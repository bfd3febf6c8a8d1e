/** Planning a two-table join: which side drives, which conjuncts are pushed down, and
    which of them the access path is trusted to enforce (join.go). */
module JoinPlans {
  import opened Wrappers
  import opened Values
  import opened Expressions
  import opened Sides
  import O = IndexOverlay

  datatype JoinType = InnerJoin | LeftJoin | RightJoin

  /** An equality the driver is fetched through: a column of the driver, and its value. */
  datatype Fetch = Fetch(ord: nat, src: Expr, byPK: bool)

  /** A composite index walked at a pinned prefix: the value of each leading column. */
  datatype Pins = Pins(index: nat, srcs: seq<Expr>)

  datatype Plan = Plan(
    typ: JoinType, nLeft: nat, nRight: nat, leftOn: nat, rightOn: nat, driverIsLeft: bool,
    fetch: Option<Fetch>, driverPreds: seq<Expr>, residual: seq<Expr>, order: Option<nat>,
    probeWalk: Option<nat>, driverWalk: bool, pins: Option<Pins>)

  /** Where the driver's cells begin in a result row. */
  function DriverOff(p: Plan): nat { if p.driverIsLeft then 0 else p.nLeft }
  function DriverWidth(p: Plan): nat { if p.driverIsLeft then p.nLeft else p.nRight }
  function DriverOn(p: Plan): nat { if p.driverIsLeft then p.leftOn else p.rightOn }
  function ProbeOff(p: Plan): nat { if p.driverIsLeft then p.nLeft else 0 }
  function ProbeWidth(p: Plan): nat { if p.driverIsLeft then p.nRight else p.nLeft }
  function ProbeOn(p: Plan): nat { if p.driverIsLeft then p.rightOn else p.leftOn }

  // ---- which columns an expression reads ----

  /** `exprOrdsWithin`: does it read a column, and are all of them in `[lo, hi)`? */
  function Reads(e: Expr, lo: nat, hi: nat): (bool, bool) {
    match e
    case Col(ord) => (true, lo <= ord < hi)
    case Lit(_) => (false, true)
    case Param(_) => (false, true)
    case Bin(_, l, r) => (Reads(l, lo, hi).0 || Reads(r, lo, hi).0, Reads(l, lo, hi).1 && Reads(r, lo, hi).1)
    case Not(x) => Reads(x, lo, hi)
    case IsNull(x, _) => Reads(x, lo, hi)
  }

  predicate OrdsWithin(e: Expr, lo: nat, hi: nat) {
    Reads(e, lo, hi).0 && Reads(e, lo, hi).1
  }

  ghost predicate AgreeOn(a: Row, b: Row, lo: nat, hi: nat) {
    |a| == |b| && forall i :: lo <= i < hi && i < |a| ==> a[i] == b[i]
  }

  /** An expression over one table's columns cannot tell two rows apart that agree there:
      pushing it down to a row with nothing else in it is sound. */
  lemma {:induction false} EvalReadsOnly(e: Expr, a: Row, b: Row, args: seq<Value>, lo: nat, hi: nat)
    requires Reads(e, lo, hi).1 && AgreeOn(a, b, lo, hi) && BoundWithin(e, |a|)
    ensures Eval(e, a, args) == Eval(e, b, args)
  {
    match e
    case Col(_) =>
    case Lit(_) =>
    case Param(_) =>
    case Bin(_, l, r) =>
      EvalReadsOnly(l, a, b, args, lo, hi);
      EvalReadsOnly(r, a, b, args, lo, hi);
    case Not(x) => EvalReadsOnly(x, a, b, args, lo, hi);
    case IsNull(x, _) => EvalReadsOnly(x, a, b, args, lo, hi);
  }

  /** Conjuncts as a set: each one passes. */
  predicate Pass(es: seq<Expr>, row: Row, args: seq<Value>)
    requires AllBound(es, |row|)
  {
    forall c {:trigger c in es} :: c in es ==> BoundWithin(c, |row|) && RowMatches(c, row, args)
  }

  lemma PassIsAllMatch(es: seq<Expr>, row: Row, args: seq<Value>)
    requires AllBound(es, |row|)
    ensures Pass(es, row, args) <==> AllMatch(es, row, args)
  {
    if Pass(es, row, args) {
      forall i | 0 <= i < |es| ensures RowMatches(es[i], row, args) { assert es[i] in es; }
    }
  }

  /** Driver conjuncts decide alike on the full row and on a scratch row that holds only
      the driver's cells. */
  lemma PassReadsOnly(es: seq<Expr>, a: Row, b: Row, args: seq<Value>, lo: nat, hi: nat)
    requires AllBound(es, |a|) && AgreeOn(a, b, lo, hi)
    requires forall c :: c in es ==> OrdsWithin(c, lo, hi)
    ensures Pass(es, a, args) <==> Pass(es, b, args)
  {
    forall c | c in es ensures BoundWithin(c, |a|) && (RowMatches(c, a, args) <==> RowMatches(c, b, args)) {
      EvalReadsOnly(c, a, b, args, lo, hi);
      RowMatcherAgrees(c, a, args);
      RowMatcherAgrees(c, b, args);
    }
  }

  // ---- the drive side ----

  /** The drive side; None refuses the join. An outer join drives the side it
      preserves, and the other side can always be probed. */
  function DriveLeft(typ: JoinType, l: TableInfo, r: TableInfo, leftOn: nat, rightOn: nat, hasL: bool, hasR: bool): (d: Option<bool>)
    ensures d == Some(true) ==> Indexed(r, rightOn) && !typ.RightJoin?
    ensures d == Some(false) ==> Indexed(l, leftOn) && !typ.LeftJoin?
    ensures d.None? <==> (typ.RightJoin? || !Indexed(r, rightOn)) && (typ.LeftJoin? || !Indexed(l, leftOn))
  {
    var leftIdx, rightIdx := Indexed(l, leftOn), Indexed(r, rightOn);
    match typ
    case LeftJoin => if rightIdx then Some(true) else None
    case RightJoin => if leftIdx then Some(false) else None
    case InnerJoin =>
      if hasL && !hasR && rightIdx then Some(true)
      else if hasR && !hasL && leftIdx then Some(false)
      else if rightOn == r.pk then Some(true)
      else if leftOn == l.pk then Some(false)
      else if leftIdx && rightIdx then Some(l.live <= r.live)
      else if rightIdx then Some(true)
      else if leftIdx then Some(false)
      else None
  }

  // ---- the conjunct split ----

  /** Conjuncts that read only columns in `[lo, hi)`. */
  method ConjunctsWithin(conj: seq<Expr>, lo: nat, hi: nat) returns (mine: seq<Expr>)
    ensures forall c :: c in mine <==> c in conj && OrdsWithin(c, lo, hi)
  {
    mine := [];
    for i := 0 to |conj|
      invariant forall c :: c in mine <==> c in conj[..i] && OrdsWithin(c, lo, hi)
    {
      if OrdsWithin(conj[i], lo, hi) { mine := mine + [conj[i]]; }
      assert conj[..i + 1] == conj[..i] + [conj[i]];
    }
    assert conj[..|conj|] == conj;
  }

  /** Everything the driver does not enforce. */
  method ResidualConjuncts(conj: seq<Expr>, driver: seq<Expr>) returns (rest: seq<Expr>)
    ensures forall c :: c in rest <==> c in conj && c !in driver
  {
    rest := [];
    for i := 0 to |conj|
      invariant forall c :: c in rest <==> c in conj[..i] && c !in driver
    {
      if conj[i] !in driver { rest := rest + [conj[i]]; }
      assert conj[..i + 1] == conj[..i] + [conj[i]];
    }
    assert conj[..|conj|] == conj;
  }

  // ---- the fetch key ----

  /** The driver column a conjunct pins, if any, and its value. */
  function DriverPin(c: Expr, off: nat, width: nat): Option<(nat, Expr)> {
    match ColAndLit(c)
    case Some((ord, src)) => if off <= ord < off + width then Some((ord - off, src)) else None
    case None => None
  }

  /** The conjunct pins an indexed column. */
  predicate Fetchable(c: Expr, t: TableInfo, off: nat) {
    DriverPin(c, off, t.width).Some? && Indexed(t, DriverPin(c, off, t.width).value.0)
  }

  predicate PinsKey(c: Expr, t: TableInfo, off: nat) {
    DriverPin(c, off, t.width).Some? && DriverPin(c, off, t.width).value.0 == t.pk
  }

  /** The fetch comes from one conjunct; a primary-key equality wins over any other, and
      there is none only when no conjunct pins an indexed column. */
  ghost predicate FetchChoice(conj: seq<Expr>, t: TableInfo, off: nat, at: nat, fetch: Option<Fetch>) {
    match fetch
    case None => forall i :: 0 <= i < |conj| ==> !Fetchable(conj[i], t, off)
    case Some(f) =>
      && at < |conj| && DriverPin(conj[at], off, t.width) == Some((f.ord, f.src)) && Indexed(t, f.ord)
      && (f.byPK <==> f.ord == t.pk) && (!f.byPK ==> forall i :: 0 <= i < |conj| ==> !PinsKey(conj[i], t, off))
  }

  method PickFetch(conj: seq<Expr>, t: TableInfo, off: nat) returns (at: nat, fetch: Option<Fetch>)
    ensures FetchChoice(conj, t, off, at, fetch)
  {
    at, fetch := 0, None;
    for i := 0 to |conj|
      invariant FetchChoice(conj[..i], t, off, at, fetch) && (fetch.Some? ==> !fetch.value.byPK)
    {
      assert conj[..i + 1] == conj[..i] + [conj[i]];
      match DriverPin(conj[i], off, t.width) {
        case None =>
        case Some((ord, src)) =>
          if ord == t.pk {
            return i, Some(Fetch(ord, src, true));
          }
          if fetch.None? && ProbeIndexFor(t.indexes, ord).Some? {
            at, fetch := i, Some(Fetch(ord, src, false));
          }
      }
    }
    assert conj[..|conj|] == conj;
  }

  // ---- the ordered walks ----

  /** The value the driver conjuncts pin a column to; a later equality replaces an earlier one. */
  function PinOf(conj: seq<Expr>, off: nat, width: nat, ord: nat): Option<Expr> {
    if conj == [] then None
    else
      var last := |conj| - 1;
      match DriverPin(conj[last], off, width)
      case Some((o, src)) => if o == ord then Some(src) else PinOf(conj[..last], off, width, ord)
      case None => PinOf(conj[..last], off, width, ord)
  }

  lemma {:induction false} PinIsDriverConjunct(conj: seq<Expr>, off: nat, width: nat, ord: nat) returns (c: Expr)
    requires PinOf(conj, off, width, ord).Some?
    ensures c in conj && DriverPin(c, off, width) == Some((ord, PinOf(conj, off, width, ord).value))
  {
    var last := |conj| - 1;
    if DriverPin(conj[last], off, width).Some? && DriverPin(conj[last], off, width).value.0 == ord {
      c := conj[last];
    } else {
      c := PinIsDriverConjunct(conj[..last], off, width, ord);
    }
  }

  method CollectPins(conj: seq<Expr>, off: nat, width: nat) returns (pinned: map<nat, Expr>)
    ensures forall ord :: Lookup(pinned, ord) == PinOf(conj, off, width, ord)
  {
    pinned := map[];
    for i := 0 to |conj|
      invariant forall ord :: Lookup(pinned, ord) == PinOf(conj[..i], off, width, ord)
    {
      assert conj[..i + 1][..i] == conj[..i];
      match DriverPin(conj[i], off, width) {
        case None =>
        case Some((ord, src)) => pinned := pinned[ord := src];
      }
    }
    assert conj[..|conj|] == conj;
  }

  function Lookup(m: map<nat, Expr>, ord: nat): Option<Expr> {
    if ord in m then Some(m[ord]) else None
  }

  /** A composite ordered index of NOT NULL columns whose first `k` columns the conjuncts
      pin, with the unpinned ORDER BY column next. */
  ghost predicate Pinnable(t: TableInfo, conj: seq<Expr>, off: nat, order: nat, index: nat, k: nat) {
    && index < |t.indexes| && CompositeOrdered(t, t.indexes[index])
    && var ords := t.indexes[index].ords;
       && 0 < k < |ords| && ords[k] == order && PinOf(conj, off, t.width, order).None?
       && forall i :: 0 <= i < k ==> PinOf(conj, off, t.width, ords[i]).Some?
  }

  ghost predicate WalkPins(t: TableInfo, conj: seq<Expr>, off: nat, order: nat, pins: Pins) {
    && Pinnable(t, conj, off, order, pins.index, |pins.srcs|)
    && forall i :: 0 <= i < |pins.srcs| ==> PinOf(conj, off, t.width, t.indexes[pins.index].ords[i]) == Some(pins.srcs[i])
  }

  predicate CompositeOrdered(t: TableInfo, ix: O.IndexDef) {
    ix.ordered && |ix.ords| >= 2 && !AnyNullable(t, ix.ords)
  }

  /** How many leading columns of an index are pinned. */
  method PinnedPrefix(ords: seq<nat>, pinned: map<nat, Expr>) returns (k: nat)
    ensures k <= |ords| && (forall i :: 0 <= i < k ==> ords[i] in pinned) && (k < |ords| ==> ords[k] !in pinned)
  {
    k := 0;
    while k < |ords|
      invariant k <= |ords| && forall i :: 0 <= i < k ==> ords[i] in pinned
    {
      if ords[k] !in pinned { return; }
      k := k + 1;
    }
  }

  lemma PinnableHasPin(t: TableInfo, conj: seq<Expr>, off: nat, order: nat)
    ensures forall i: nat, k: nat :: Pinnable(t, conj, off, order, i, k) ==> PinOf(conj, off, t.width, t.indexes[i].ords[0]).Some?
  {}

  /** `planDriverCompWalk`: finds such an index whenever there is one. */
  method PlanPins(t: TableInfo, conj: seq<Expr>, off: nat, order: nat) returns (pins: Option<Pins>)
    ensures pins.Some? ==> WalkPins(t, conj, off, order, pins.value)
    ensures pins.None? ==> forall i, k :: !Pinnable(t, conj, off, order, i, k)
  {
    var pinned := CollectPins(conj, off, t.width);
    if |pinned| == 0 {
      forall ord ensures PinOf(conj, off, t.width, ord).None? { assert Lookup(pinned, ord).None?; }
      PinnableHasPin(t, conj, off, order);
      return None;
    }
    for i := 0 to |t.indexes|
      invariant forall j, k :: 0 <= j < i ==> !Pinnable(t, conj, off, order, j, k)
    {
      var ix := t.indexes[i];
      if CompositeOrdered(t, ix) {
        var k := PinnedPrefix(ix.ords, pinned);
        forall j | 0 <= j < |ix.ords| ensures ix.ords[j] in pinned <==> PinOf(conj, off, t.width, ix.ords[j]).Some? {
          assert Lookup(pinned, ix.ords[j]) == PinOf(conj, off, t.width, ix.ords[j]);
        }
        if 0 < k < |ix.ords| && ix.ords[k] == order {
          forall j | 0 <= j < k ensures PinOf(conj, off, t.width, ix.ords[j]) == Some(pinned[ix.ords[j]]) {
            assert Lookup(pinned, ix.ords[j]) == PinOf(conj, off, t.width, ix.ords[j]);
          }
          return Some(Pins(i, seq(k, j requires 0 <= j < k => pinned[ix.ords[j]])));
        }
      }
    }
    return None;
  }

  /** `planProbeWalk`: a composite ordered index that starts with the join column and
      the ORDER BY column. */
  method PlanProbeWalk(t: TableInfo, on: nat, order: nat) returns (at: Option<nat>)
    ensures at.Some? ==> ProbeWalkIndex(t, on, order, at.value)
    ensures at.None? ==> forall i :: 0 <= i < |t.indexes| ==> !ProbeWalkIndex(t, on, order, i)
  {
    for i := 0 to |t.indexes|
      invariant forall j :: 0 <= j < i ==> !ProbeWalkIndex(t, on, order, j)
    {
      if ProbeWalkIndex(t, on, order, i) { return Some(i); }
    }
    return None;
  }

  predicate ProbeWalkIndex(t: TableInfo, on: nat, order: nat, i: nat) {
    i < |t.indexes| && CompositeOrdered(t, t.indexes[i]) && t.indexes[i].ords[0] == on && t.indexes[i].ords[1] == order
  }

  // ---- driverPreds ----

  /** An equality on a column the composite walk pins. */
  predicate OnPrefix(c: Expr, off: nat, width: nat, prefix: seq<nat>) {
    DriverPin(c, off, width).Some? && DriverPin(c, off, width).value.0 in prefix
  }

  /** The driver conjuncts the chosen path is not trusted to enforce. */
  method DriverPredicates(conj: seq<Expr>, off: nat, width: nat, prefix: Option<seq<nat>>, fetched: Option<nat>) returns (preds: seq<Expr>)
    requires fetched.Some? ==> fetched.value < |conj|
    ensures prefix.Some? ==> forall c :: c in preds <==> c in conj && !OnPrefix(c, off, width, prefix.value)
    ensures prefix.None? ==> forall c :: c in preds ==> c in conj
    ensures prefix.None? ==> forall c :: c in conj && (fetched.None? || c != conj[fetched.value]) ==> c in preds
  {
    preds := [];
    for i := 0 to |conj|
      invariant prefix.Some? ==> forall c :: c in preds <==> c in conj[..i] && !OnPrefix(c, off, width, prefix.value)
      invariant prefix.None? ==> forall c :: c in preds ==> c in conj
      invariant prefix.None? ==> forall c :: c in conj[..i] && (fetched.None? || c != conj[fetched.value]) ==> c in preds
    {
      assert conj[..i + 1] == conj[..i] + [conj[i]];
      var drop := if prefix.Some? then OnPrefix(conj[i], off, width, prefix.value) else fetched == Some(i);
      if !drop { preds := preds + [conj[i]]; }
    }
    assert conj[..|conj|] == conj;
  }

  // ---- the plan ----

  function DriverTable(p: Plan, l: TableInfo, r: TableInfo): TableInfo { if p.driverIsLeft then l else r }
  function ProbeTable(p: Plan, l: TableInfo, r: TableInfo): TableInfo { if p.driverIsLeft then r else l }

  /** The leading columns the composite walk pins. */
  function Prefix(d: TableInfo, pins: Pins): seq<nat>
    requires pins.index < |d.indexes| && |pins.srcs| <= |d.indexes[pins.index].ords|
  {
    d.indexes[pins.index].ords[..|pins.srcs|]
  }

  /** How the WHERE was divided between the driver's access path, the driver's
      predicates and the residual. `conj` are the driver's own conjuncts. */
  ghost predicate Divided(p: Plan, d: TableInfo, where: seq<Expr>, conj: seq<Expr>, at: nat) {
    var off, width := DriverOff(p), d.width;
    && DriverWidth(p) == width
    && (forall c :: c in conj <==> c in where && OrdsWithin(c, off, off + width))
    && (forall c :: c in p.residual <==> c in where && c !in conj)
    && FetchChoice(conj, d, off, at, p.fetch)
    && match p.pins
       case Some(pins) =>
         && p.order.Some? && off <= p.order.value && WalkPins(d, conj, off, p.order.value - off, pins)
         && forall c :: c in p.driverPreds <==> c in conj && !OnPrefix(c, off, width, Prefix(d, pins))
       case None =>
         && (forall c :: c in p.driverPreds ==> c in conj)
         && forall c :: c in conj && (p.fetch.None? || c != conj[at]) ==> c in p.driverPreds
  }

  /** The walks are chosen only where they deliver ORDER BY order. */
  ghost predicate Walks(p: Plan, l: TableInfo, r: TableInfo) {
    var d, pr := DriverTable(p, l, r), ProbeTable(p, l, r);
    && (p.probeWalk.Some? ==>
          && p.typ.InnerJoin? && p.order.Some? && !p.driverWalk && p.pins.None?
          && ProbeOff(p) <= p.order.value && ProbeWalkIndex(pr, ProbeOn(p), p.order.value - ProbeOff(p), p.probeWalk.value))
    && (p.driverWalk ==>
          && p.order.Some? && p.fetch.None? && p.pins.None?
          && DriverOff(p) <= p.order.value < DriverOff(p) + d.width && OrderedIndexOn(d, p.order.value - DriverOff(p)))
    && (p.pins.Some? ==> p.fetch.Some? && !p.fetch.value.byPK && p.order.Some? && p.order.value < DriverOff(p) + d.width)
  }

  /** And a pinned walk is chosen wherever it could be, unless a cheaper path was. */
  ghost predicate WalksWherePinned(p: Plan, l: TableInfo, r: TableInfo, conj: seq<Expr>) {
    var d := DriverTable(p, l, r);
    p.pins.None? && p.probeWalk.None? && !p.driverWalk && !(p.fetch.Some? && p.fetch.value.byPK)
    && p.order.Some? && DriverOff(p) <= p.order.value < DriverOff(p) + d.width ==>
      !SomePinnable(d, conj, DriverOff(p), p.order.value - DriverOff(p))
  }

  ghost predicate SomePinnable(t: TableInfo, conj: seq<Expr>, off: nat, order: nat) {
    exists i: nat, k: nat :: Pinnable(t, conj, off, order, i, k)
  }

  ghost predicate Planned(p: Plan, l: TableInfo, r: TableInfo, where: seq<Expr>, conj: seq<Expr>, at: nat) {
    && p.nLeft == l.width && p.nRight == r.width && p.leftOn < l.width && p.rightOn < r.width
    && (p.driverIsLeft ==> !p.typ.RightJoin?) && (!p.driverIsLeft ==> !p.typ.LeftJoin?)
    && Indexed(ProbeTable(p, l, r), ProbeOn(p))
    && Divided(p, DriverTable(p, l, r), where, conj, at) && Walks(p, l, r)
  }

  /** `planJoin` from bound expressions on: None is ErrUnindexedJoin. */
  method PlanJoin(l: TableInfo, r: TableInfo, typ: JoinType, leftOn: nat, rightOn: nat, where: seq<Expr>, order: Option<nat>)
    returns (p: Option<Plan>, ghost conj: seq<Expr>, ghost at: nat)
    requires leftOn < l.width && rightOn < r.width
    ensures p.None? <==> (typ.RightJoin? || !Indexed(r, rightOn)) && (typ.LeftJoin? || !Indexed(l, leftOn))
    ensures p.Some? ==> p.value.typ == typ && p.value.leftOn == leftOn && p.value.rightOn == rightOn && p.value.order == order
    ensures p.Some? ==> Planned(p.value, l, r, where, conj, at) && WalksWherePinned(p.value, l, r, conj)
  {
    conj, at := [], 0;
    var leftConj := ConjunctsWithin(where, 0, l.width);
    var rightConj := ConjunctsWithin(where, l.width, l.width + r.width);
    var drive := DriveLeft(typ, l, r, leftOn, rightOn, leftConj != [], rightConj != []);
    if drive.None? { return None, conj, at; }
    conj := if drive.value then leftConj else rightConj;
    var plan := Plan(typ, l.width, r.width, leftOn, rightOn, drive.value, None, [], [], order, None, false, None);
    var full;
    full, at := PlanDriver(plan, l, r, where, if drive.value then leftConj else rightConj);
    p := Some(full);
  }

  /** The division of the WHERE once the driver is chosen. */
  method PlanDriver(p: Plan, l: TableInfo, r: TableInfo, where: seq<Expr>, conj: seq<Expr>) returns (q: Plan, ghost at: nat)
    requires p.nLeft == l.width && p.nRight == r.width
    requires forall c :: c in conj <==> c in where && OrdsWithin(c, DriverOff(p), DriverOff(p) + DriverTable(p, l, r).width)
    ensures q == p.(fetch := q.fetch, driverPreds := q.driverPreds, residual := q.residual, probeWalk := q.probeWalk,
                    driverWalk := q.driverWalk, pins := q.pins)
    ensures Divided(q, DriverTable(p, l, r), where, conj, at) && Walks(q, l, r) && WalksWherePinned(q, l, r, conj)
  {
    var d := DriverTable(p, l, r);
    var residual := ResidualConjuncts(where, conj);
    var from, fetch := PickFetch(conj, d, DriverOff(p));
    var plan := p.(residual := residual, fetch := fetch);
    var probeWalk, driverWalk, pins := PlanWalks(plan, l, r, conj);
    plan := plan.(probeWalk := probeWalk, driverWalk := driverWalk, pins := pins);
    var preds := DriverPredicates(conj, DriverOff(p), d.width, if pins.Some? then Some(Prefix(d, pins.value)) else None,
                                  if fetch.Some? then Some(from) else None);
    PredsKeepWalks(plan, preds, l, r, conj);
    return plan.(driverPreds := preds), from;
  }

  lemma PredsKeepWalks(p: Plan, preds: seq<Expr>, l: TableInfo, r: TableInfo, conj: seq<Expr>)
    requires Walks(p, l, r) && WalksWherePinned(p, l, r, conj)
    ensures Walks(p.(driverPreds := preds), l, r) && WalksWherePinned(p.(driverPreds := preds), l, r, conj)
  {}

  /** `planProbeWalk`, then `planDriverWalk`, then `planDriverCompWalk`: the first that applies. */
  method PlanWalks(p: Plan, l: TableInfo, r: TableInfo, conj: seq<Expr>) returns (probeWalk: Option<nat>, driverWalk: bool, pins: Option<Pins>)
    requires p.nLeft == l.width && p.nRight == r.width
    requires p.fetch.None? ==> forall i :: 0 <= i < |conj| ==> !Fetchable(conj[i], DriverTable(p, l, r), DriverOff(p))
    ensures Walks(p.(probeWalk := probeWalk, driverWalk := driverWalk, pins := pins), l, r)
    ensures WalksWherePinned(p.(probeWalk := probeWalk, driverWalk := driverWalk, pins := pins), l, r, conj)
    ensures pins.Some? ==> DriverOff(p) <= p.order.value && WalkPins(DriverTable(p, l, r), conj, DriverOff(p), p.order.value - DriverOff(p), pins.value)
  {
    probeWalk, driverWalk, pins := None, false, None;
    if p.order.None? { return; }
    var order, d := p.order.value, DriverTable(p, l, r);
    if p.typ.InnerJoin? && ProbeOff(p) <= order < ProbeOff(p) + ProbeWidth(p) {
      probeWalk := PlanProbeWalk(ProbeTable(p, l, r), ProbeOn(p), order - ProbeOff(p));
    }
    if probeWalk.Some? || !(DriverOff(p) <= order < DriverOff(p) + d.width) { return; }
    if p.fetch.None? && OrderedIndexOn(d, order - DriverOff(p)) {
      driverWalk := true;
    } else if !(p.fetch.Some? && p.fetch.value.byPK) {
      pins := PlanPins(d, conj, DriverOff(p), order - DriverOff(p));
      if pins.Some? { PinsAreFetchable(d, conj, DriverOff(p), order - DriverOff(p), pins.value); }
    }
  }

  /** A pinned prefix is itself an indexed equality, so a fetch key was found too. */
  lemma PinsAreFetchable(t: TableInfo, conj: seq<Expr>, off: nat, order: nat, pins: Pins)
    requires WalkPins(t, conj, off, order, pins)
    ensures exists i :: 0 <= i < |conj| && Fetchable(conj[i], t, off)
  {
    var ords := t.indexes[pins.index].ords;
    var c := PinIsDriverConjunct(conj, off, t.width, ords[0]);
    var i :| 0 <= i < |conj| && conj[i] == c;
    assert Leads(t.indexes[pins.index], ords[0]);
    assert Fetchable(conj[i], t, off);
  }

  // ---- the split is the WHERE ----

  /** What the chosen path makes true of every driver row it delivers. */
  ghost predicate Guarantee(p: Plan, d: TableInfo, row: Row, args: seq<Value>) {
    match (p.pins, p.fetch)
    case (Some(pins), _) =>
      && pins.index < |d.indexes| && |pins.srcs| <= |d.indexes[pins.index].ords|
      && forall i :: 0 <= i < |pins.srcs| ==> HoldsPin(row, DriverOff(p) + d.indexes[pins.index].ords[i], pins.srcs[i], args)
    case (None, Some(f)) => HoldsPin(row, DriverOff(p) + f.ord, f.src, args)
    case (None, None) => true
  }

  /** The cell is the value of the pin. */
  predicate HoldsPin(row: Row, ord: nat, src: Expr, args: seq<Value>) {
    ord < |row| && ResolveOperand(src, args) == Some(row[ord])
  }

  /** Every equality a composite walk leaves unchecked has the value the walk used for
      its column: true whenever no pinned column has two equalities. */
  ghost predicate PinsAgree(p: Plan, d: TableInfo, conj: seq<Expr>, args: seq<Value>) {
    p.pins.Some? ==>
      && p.pins.value.index < |d.indexes| && |p.pins.value.srcs| <= |d.indexes[p.pins.value.index].ords|
      && forall c, i :: c in conj && 0 <= i < |p.pins.value.srcs| && PinOn(c, p, d, i) ==>
           ResolveOperand(DriverPin(c, DriverOff(p), d.width).value.1, args) == ResolveOperand(p.pins.value.srcs[i], args)
  }

  predicate PinOn(c: Expr, p: Plan, d: TableInfo, i: nat)
    requires p.pins.Some? && p.pins.value.index < |d.indexes| && i < |p.pins.value.srcs| <= |d.indexes[p.pins.value.index].ords|
  {
    var pin := DriverPin(c, DriverOff(p), d.width);
    pin.Some? && pin.value.0 == d.indexes[p.pins.value.index].ords[i]
  }

  lemma PinIsHeld(c: Expr, off: nat, width: nat, row: Row, args: seq<Value>)
    requires BoundWithin(c, |row|) && DriverPin(c, off, width).Some?
    ensures var (ord, src) := DriverPin(c, off, width).value;
            RowMatches(c, row, args) <==> HoldsPin(row, off + ord, src, args)
  {
    RowMatcherAgrees(c, row, args);
    PinMeansEqual(c, row, args);
  }

  /** A row the WHERE accepts is on the driver's path and passes what is left to check. */
  lemma WhereImpliesPath(p: Plan, d: TableInfo, where: seq<Expr>, conj: seq<Expr>, at: nat, row: Row, args: seq<Value>)
    requires Divided(p, d, where, conj, at) && AllBound(where, |row|) && Pass(where, row, args)
    ensures AllBound(p.driverPreds, |row|) && AllBound(p.residual, |row|)
    ensures Guarantee(p, d, row, args) && Pass(p.driverPreds, row, args) && Pass(p.residual, row, args)
  {
    var off := DriverOff(p);
    PartsBound(p, d, where, conj, at, |row|);
    match p.pins
    case Some(pins) =>
      var ords := d.indexes[pins.index].ords;
      forall i | 0 <= i < |pins.srcs| ensures HoldsPin(row, off + ords[i], pins.srcs[i], args) {
        var c := PinIsDriverConjunct(conj, off, d.width, ords[i]);
        PinIsHeld(c, off, d.width, row, args);
      }
    case None =>
      if p.fetch.Some? {
        assert conj[at] in conj;
        PinIsHeld(conj[at], off, d.width, row, args);
      }
  }

  lemma PartsBound(p: Plan, d: TableInfo, where: seq<Expr>, conj: seq<Expr>, at: nat, width: nat)
    requires Divided(p, d, where, conj, at) && AllBound(where, width)
    ensures AllBound(p.driverPreds, width) && AllBound(p.residual, width) && AllBound(conj, width)
  {
    forall c | c in where ensures BoundWithin(c, width) {
      var i :| 0 <= i < |where| && where[i] == c;
    }
    forall i | 0 <= i < |conj| ensures BoundWithin(conj[i], width) { assert conj[i] in conj; }
    forall i | 0 <= i < |p.driverPreds| ensures BoundWithin(p.driverPreds[i], width) { assert p.driverPreds[i] in p.driverPreds; }
    forall i | 0 <= i < |p.residual| ensures BoundWithin(p.residual[i], width) { assert p.residual[i] in p.residual; }
  }

  /** A row that passes what the join still checks, on the path the join took, satisfies
      the WHERE exactly when the unchecked equalities agree with the walked ones. */
  lemma PathIsWhereIffPinsAgree(p: Plan, d: TableInfo, where: seq<Expr>, conj: seq<Expr>, at: nat, row: Row, args: seq<Value>)
    requires Divided(p, d, where, conj, at) && AllBound(where, |row|)
    requires AllBound(p.driverPreds, |row|) && AllBound(p.residual, |row|)
    requires Guarantee(p, d, row, args) && Pass(p.driverPreds, row, args) && Pass(p.residual, row, args)
    ensures Pass(where, row, args) <==> PinsAgree(p, d, conj, args)
  {
    PartsBound(p, d, where, conj, at, |row|);
    assert Pass(where, row, args) <==> Pass(conj, row, args);
    if p.pins.Some? {
      UncheckedIffAgree(p, d, where, conj, at, row, args);
    } else if p.fetch.Some? {
      PinIsHeld(conj[at], DriverOff(p), d.width, row, args);
    }
  }

  lemma UncheckedIffAgree(p: Plan, d: TableInfo, where: seq<Expr>, conj: seq<Expr>, at: nat, row: Row, args: seq<Value>)
    requires Divided(p, d, where, conj, at) && AllBound(conj, |row|) && p.pins.Some?
    requires AllBound(p.driverPreds, |row|) && Guarantee(p, d, row, args) && Pass(p.driverPreds, row, args)
    ensures Pass(conj, row, args) <==> PinsAgree(p, d, conj, args)
  {
    if Pass(conj, row, args) {
      forall c, i | c in conj && 0 <= i < |p.pins.value.srcs| && PinOn(c, p, d, i)
        ensures ResolveOperand(DriverPin(c, DriverOff(p), d.width).value.1, args) == ResolveOperand(p.pins.value.srcs[i], args)
      {
        UncheckedIffSame(p, d, conj, c, i, row, args);
      }
    }
    if PinsAgree(p, d, conj, args) {
      forall c | c in conj ensures RowMatches(c, row, args) {
        if OnPrefix(c, DriverOff(p), d.width, Prefix(d, p.pins.value)) {
          var i := PrefixPosition(c, p, d);
          UncheckedIffSame(p, d, conj, c, i, row, args);
        } else {
          assert c in p.driverPreds;
        }
      }
    }
  }

  lemma PrefixPosition(c: Expr, p: Plan, d: TableInfo) returns (i: nat)
    requires p.pins.Some? && p.pins.value.index < |d.indexes| && |p.pins.value.srcs| <= |d.indexes[p.pins.value.index].ords|
    requires OnPrefix(c, DriverOff(p), d.width, Prefix(d, p.pins.value))
    ensures i < |p.pins.value.srcs| && PinOn(c, p, d, i)
  {
    var prefix := Prefix(d, p.pins.value);
    i :| 0 <= i < |prefix| && prefix[i] == DriverPin(c, DriverOff(p), d.width).value.0;
  }

  /** On the walked prefix, an unchecked equality holds when it names the walked value. */
  lemma UncheckedIffSame(p: Plan, d: TableInfo, conj: seq<Expr>, c: Expr, i: nat, row: Row, args: seq<Value>)
    requires p.pins.Some? && c in conj && AllBound(conj, |row|) && Guarantee(p, d, row, args)
    requires i < |p.pins.value.srcs| && PinOn(c, p, d, i)
    ensures BoundWithin(c, |row|)
    ensures RowMatches(c, row, args)
        <==> ResolveOperand(DriverPin(c, DriverOff(p), d.width).value.1, args) == ResolveOperand(p.pins.value.srcs[i], args)
  {
    var k :| 0 <= k < |conj| && conj[k] == c;
    PinIsHeld(c, DriverOff(p), d.width, row, args);
    assert HoldsPin(row, DriverOff(p) + d.indexes[p.pins.value.index].ords[i], p.pins.value.srcs[i], args);
  }

  /** `a = 1 AND a = 2 ORDER BY b` over an ordered index on (a, b). */
  function TwoPins(): seq<Expr> {
    [Bin(OpEq, Col(1), Lit(Int(1))), Bin(OpEq, Col(1), Lit(Int(2)))]
  }

  function TwoPinsTable(): TableInfo { TableInfo(3, 0, {}, [O.IndexDef([1, 2], true)], 0) }

  lemma TwoPinsArePinned(conj: seq<Expr>)
    requires forall c :: c in conj <==> c in TwoPins()
    ensures var pin := PinOf(conj, 0, 3, 1); pin.Some? && pin.value in {Lit(Int(1)), Lit(Int(2))} && PinOf(conj, 0, 3, 2).None?
    ensures Pinnable(TwoPinsTable(), conj, 0, 2, 0, 1)
    ensures forall i, k :: Pinnable(TwoPinsTable(), conj, 0, 2, i, k) ==> i == 0 && k == 1
  {
    var one, two := TwoPins()[0], TwoPins()[1];
    assert one in TwoPins() && two in TwoPins();
    assert DriverPin(one, 0, 3) == Some((1, Lit(Int(1)))) && DriverPin(two, 0, 3) == Some((1, Lit(Int(2))));
    PinsOfEqualities(conj, 1);
    PinsOfEqualities(conj, 2);
  }

  /** When every conjunct pins column 1 to one of the two values. */
  lemma {:induction false} PinsOfEqualities(conj: seq<Expr>, ord: nat)
    requires forall c :: c in conj ==> DriverPin(c, 0, 3) in {Some((1, Lit(Int(1)))), Some((1, Lit(Int(2))))}
    ensures var pin := PinOf(conj, 0, 3, ord);
            if ord == 1 && conj != [] then pin in {Some(Lit(Int(1))), Some(Lit(Int(2)))} else pin.None?
  {
    if conj != [] {
      var last := |conj| - 1;
      assert conj[last] in conj;
      PinsOfEqualities(conj[..last], ord);
    }
  }

  /** Two different equalities on a pinned column: the WHERE accepts no row, yet whatever
      the planner makes of this LEFT JOIN delivers every row under the value it walks. */
  lemma SecondEqualityIsDropped(p: Plan, r: TableInfo, conj: seq<Expr>, at: nat, id: Uuid, b: Int64) returns (v: Int64)
    requires Planned(p, TwoPinsTable(), r, TwoPins(), conj, at) && WalksWherePinned(p, TwoPinsTable(), r, conj)
    requires p.typ.LeftJoin? && p.order == Some(2) && r.width == 1
    ensures p.pins == Some(Pins(0, [Lit(Int(v))])) && p.driverPreds == []
    ensures var row := [Id(id), Int(v), Int(b), Null];
            && AllBound(p.residual, |row|) && AllBound(TwoPins(), |row|)
            && Guarantee(p, TwoPinsTable(), row, []) && Pass(p.driverPreds, row, []) && Pass(p.residual, row, [])
            && !Pass(TwoPins(), row, [])
  {
    assert forall c :: c in conj <==> c in TwoPins();
    TwoPinsArePinned(conj);
    TwoPinsWalked(p, r, conj, at);
    v := PinOf(conj, 0, 3, 1).value.v.i;
    var row := [Id(id), Int(v), Int(b), Null];
    PartsBound(p, TwoPinsTable(), TwoPins(), conj, at, |row|);
    var missed := if v == 1 then TwoPins()[1] else TwoPins()[0];
    assert missed in TwoPins();
    PinIsHeld(missed, 0, 3, row, []);
    assert !RowMatches(missed, row, []);
  }

  /** Both equalities are on the prefix, so neither is checked. */
  lemma TwoPinsWalked(p: Plan, r: TableInfo, conj: seq<Expr>, at: nat)
    requires Planned(p, TwoPinsTable(), r, TwoPins(), conj, at) && WalksWherePinned(p, TwoPinsTable(), r, conj)
    requires p.typ.LeftJoin? && p.order == Some(2) && r.width == 1
    requires Pinnable(TwoPinsTable(), conj, 0, 2, 0, 1) && PinOf(conj, 0, 3, 1).Some?
    requires forall i, k :: Pinnable(TwoPinsTable(), conj, 0, 2, i, k) ==> i == 0 && k == 1
    ensures p.pins == Some(Pins(0, [PinOf(conj, 0, 3, 1).value])) && p.driverPreds == []
  {
    assert p.driverIsLeft && SomePinnable(TwoPinsTable(), conj, 0, 2);
    assert p.fetch.Some? ==> conj[at] in conj && DriverPin(conj[at], 0, 3).value.0 == 1;
    assert p.pins.Some? by { assert !OrderedIndexOn(TwoPinsTable(), 2); }
    var pins := p.pins.value;
    assert Pinnable(TwoPinsTable(), conj, 0, 2, pins.index, |pins.srcs|);
    assert TwoPinsTable().indexes[0].ords[0] == 1;
    assert pins.srcs == [PinOf(conj, 0, 3, 1).value];
    assert Prefix(TwoPinsTable(), pins) == [1];
    assert 1 in [1];
    assert p.driverPreds != [] ==> p.driverPreds[0] in p.driverPreds;
    forall c ensures c !in p.driverPreds {
      assert c in conj ==> OnPrefix(c, 0, 3, [1]);
    }
  }

  // ---- the WHERE as a list ----

  function WhereConjuncts(where: Option<Expr>): seq<Expr> {
    match where
    case Some(e) => Conjuncts(e)
    case None => []
  }

  /** The WHERE of a SELECT, absent or present. */
  predicate WhereHolds(where: Option<Expr>, row: Row, args: seq<Value>) {
    where.Some? ==> BoundWithin(where.value, |row|) && Matches(where.value, row, args)
  }

  lemma ConjunctsAreWhere(where: Option<Expr>, row: Row, args: seq<Value>)
    requires where.Some? ==> BoundWithin(where.value, |row|)
    ensures AllBound(WhereConjuncts(where), |row|)
    ensures Pass(WhereConjuncts(where), row, args) <==> WhereHolds(where, row, args)
  {
    if where.Some? {
      ConjunctsMatchWhere(where.value, row, args);
      PassIsAllMatch(Conjuncts(where.value), row, args);
    }
  }
}
