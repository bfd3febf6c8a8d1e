/** The ordered paths of a join: walking the driver in ORDER BY order, by a column or
    under a pinned composite prefix, and walking one driver row's matches (join.go). */
module JoinWalks {
  import opened Wrappers
  import opened Sequences
  import opened Values
  import opened CompositeKeys
  import opened Expressions
  import opened IndexOrder
  import opened JoinPlans
  import opened Sides
  import opened JoinSpecs
  import opened JoinDrives
  import opened JoinRuns
  import opened IndexedReads
  import O = IndexOverlay
  import W = OrderedWalks
  import E = OrderedWalkExec

  /** `passDriver` as a filter on driver rows. */
  function RowPass(q: Query, p: Plan): Row -> bool {
    (r: Row) => PassDriver(q, p, r)
  }

  /** Probing each driver row of an ordered walk as the merge delivers it, until `eff`
      rows are kept. */
  method WalkDrivers(q: Query, p: Plan, prb: Side, wq: W.Query, residual: Row -> bool, snap: seq<OrdEntry>, cands: seq<OrdEntry>,
                     shadow: set<Uuid>, dirty: seq<Uuid>, eff: int, ghost walk: seq<Uuid>)
    returns (out: seq<Pair>, ghost all: seq<Pair>)
    requires ProbeReady(q, p, prb) && Live(prb) && ListsOverlay(prb.t, prb.s, dirty)
    requires walk == W.Walk(wq, residual, W.Directed(snap, wq.desc), W.Directed(cands, wq.desc), shadow)
    requires Distinct(walk) && forall i :: 0 <= i < |walk| ==> walk[i] in DriverRows(q, p)
    ensures Drained(q, p, walk, all) && out == Taken(all, eff)
  {
    var ii, dj := E.Start(snap, wq.desc), E.Start(cands, wq.desc);
    out, all := [], [];
    ghost var n: nat := 0;
    assert walk[..0] == [];
    while !Full(out, eff)
      invariant MergedTo(wq, residual, snap, cands, shadow, ii, dj, walk, n) && Progress(q, p, walk, n, all, out, eff)
      decreases |E.Rest(snap, ii, wq.desc)| + |E.Rest(cands, dj, wq.desc)|
    {
      var i, j, next, over := NextDriver(wq, residual, snap, cands, shadow, ii, dj, walk, n);
      if over { break; }
      if next.Some? {
        out, all := DriveNext(q, p, prb, next.value, dirty, eff, out, walk, n, all);
        n := n + 1;
      }
      ii, dj := i, j;
    }
    all := DrainRest(q, p, walk, n, all, out, eff);
  }

  /** The merge stands at `ii` and `dj`, `n` keys into the walk. */
  ghost predicate MergedTo(wq: W.Query, residual: Row -> bool, snap: seq<OrdEntry>, cands: seq<OrdEntry>, shadow: set<Uuid>,
                           ii: int, dj: int, walk: seq<Uuid>, n: nat) {
    && E.Cursor(snap, ii, wq.desc) && E.Cursor(cands, dj, wq.desc)
    && n <= |walk| && walk[n..] == W.Walk(wq, residual, E.Rest(snap, ii, wq.desc), E.Rest(cands, dj, wq.desc), shadow)
  }

  /** One turn of the merge: the next key of the walk, an entry passed over, or the end. */
  method NextDriver(wq: W.Query, residual: Row -> bool, snap: seq<OrdEntry>, cands: seq<OrdEntry>, shadow: set<Uuid>,
                    ii: int, dj: int, ghost walk: seq<Uuid>, ghost n: nat) returns (i: int, j: int, next: Option<Uuid>, over: bool)
    requires MergedTo(wq, residual, snap, cands, shadow, ii, dj, walk, n)
    ensures over ==> n == |walk|
    ensures next.Some? ==> n < |walk| && walk[n] == next.value
    ensures !over ==>
              && MergedTo(wq, residual, snap, cands, shadow, i, j, walk, if next.Some? then n + 1 else n)
              && |E.Rest(snap, i, wq.desc)| + |E.Rest(cands, j, wq.desc)| < |E.Rest(snap, ii, wq.desc)| + |E.Rest(cands, dj, wq.desc)|
  {
    i, j, next, over := E.NextInOrder(wq, residual, snap, cands, shadow, ii, dj);
    if next.Some? {
      TakeNext(walk, n, next.value, W.Walk(wq, residual, E.Rest(snap, i, wq.desc), E.Rest(cands, j, wq.desc), shadow));
    }
  }

  lemma TakeNext(walk: seq<Uuid>, n: nat, pk: Uuid, rest: seq<Uuid>)
    requires n <= |walk| && walk[n..] == [pk] + rest
    ensures n < |walk| && walk[n] == pk && walk[n + 1..] == rest
  {}

  /** A finished walk: the driver rows it listed answer the query in order. */
  lemma WalkAnswers(q: Query, p: Plan, conj: seq<Expr>, at: nat, drv: Side, prb: Side, walk: seq<Uuid>, all: seq<Pair>)
    requires Ready(q, p, conj, at, drv, prb) && PinsAgree(p, drv.info, conj, q.args) && q.ordered && Sortable(q)
    requires DriverOff(p) <= q.sh.ord < DriverOff(p) + DriverWidth(p)
    requires DriverList(q, p, drv.info, walk) && Drained(q, p, walk, all)
    requires forall i, j :: 0 <= i < j < |walk| ==> NotAfter(q, p, walk[i], walk[j])
    ensures Lists(q, all) && Ordered(q, Rows(q, all))
  {
    OrdsInRange(drv);
    DrainedLists(q, p, drv.info, conj, at, walk, all);
    forall i | 0 <= i < |walk| ensures walk[i] in DriverRows(q, p) { assert walk[i] in walk; }
    DrainedInOrder(q, p, walk, all);
  }

  // ---- driverWalk ----

  /** The sort column's walk over the whole driver. */
  function ColumnQuery(q: Query, p: Plan, drv: Side): W.Query
    requires DriverOff(p) <= q.sh.ord < DriverOff(p) + |drv.kinds|
  {
    var ord := q.sh.ord - DriverOff(p);
    W.Query(drv.s.rows, RowPass(q, p), ColumnKey(ord), drv.kinds[ord], q.sh.desc)
  }

  /** What a column walk lists is the driver list, in ORDER BY order. */
  lemma ColumnListing(q: Query, p: Plan, drv: Side, walk: seq<Uuid>)
    requires ValidQuery(q) && PlanFor(q, p) && ValidSide(drv) && drv.s.rows == DriverRows(q, p) && drv.info.width == DriverWidth(p)
    requires p.fetch.None? && p.pins.None? && DriverOff(p) <= q.sh.ord < DriverOff(p) + DriverWidth(p)
    requires W.Listing(ColumnQuery(q, p, drv), walk)
    ensures DriverList(q, p, drv.info, walk)
    ensures forall i, j :: 0 <= i < j < |walk| ==> NotAfter(q, p, walk[i], walk[j])
  {
    var wq := ColumnQuery(q, p, drv);
    forall pk ensures pk in walk <==> Drives(q, p, drv.info, pk) { assert pk in walk <==> W.Qualifies(wq, pk); }
    forall i, j | 0 <= i < j < |walk| ensures NotAfter(q, p, walk[i], walk[j]) {
      assert walk[i] in walk && walk[j] in walk;
      assert !W.Before(W.Keys(wq, walk)[j], W.Keys(wq, walk)[i], wq.desc);
    }
  }

  /** The sorted view of a NOT NULL column, and the overlay beside it. */
  method ColumnSnapshot(d: Side, ord: nat, ghost pass: Row -> bool, ghost desc: bool) returns (snap: seq<OrdEntry>, dirty: seq<Uuid>)
    requires ValidSide(d) && Live(d) && OrderedIndexOn(d.info, ord) && ord < d.info.width && ord !in d.info.nullable
    ensures E.SliceReady(W.Query(d.s.rows, pass, ColumnKey(ord), d.kinds[ord], desc), pass, snap, dirty)
  {
    var k := OrderedIndex(d, ord);
    assert IndexMatches(d, k);
    snap := d.idx[k].sorted;
    dirty := DirtyPks(d);
    NotNullColumn(d, ord);
    WholeColumnIsReady(d.t, d.s, k, ord, d.kinds[ord], pass, desc, snap, dirty);
  }

  /** The streams of a column walk, and the driver list they merge into. */
  method ColumnStreams(q: Query, p: Plan, drv: Side) returns (snap: seq<OrdEntry>, cands: seq<OrdEntry>, shadow: set<Uuid>, ghost walk: seq<Uuid>)
    requires ValidQuery(q) && PlanFor(q, p) && ValidSide(drv) && Live(drv) && drv.s.rows == DriverRows(q, p) && drv.info.width == DriverWidth(p)
    requires p.fetch.None? && p.pins.None? && DriverOff(p) <= q.sh.ord < DriverOff(p) + DriverWidth(p)
    requires OrderedIndexOn(drv.info, q.sh.ord - DriverOff(p)) && q.sh.ord - DriverOff(p) !in drv.info.nullable
    ensures walk == W.Walk(ColumnQuery(q, p, drv), RowPass(q, p), W.Directed(snap, q.sh.desc), W.Directed(cands, q.sh.desc), shadow)
    ensures DriverList(q, p, drv.info, walk)
    ensures forall i, j :: 0 <= i < j < |walk| ==> NotAfter(q, p, walk[i], walk[j])
  {
    var dirty;
    snap, dirty := ColumnSnapshot(drv, q.sh.ord - DriverOff(p), RowPass(q, p), q.sh.desc);
    cands, shadow := E.BuildDirtyCands(ColumnQuery(q, p, drv), dirty);
    E.SliceWalkIsListing(ColumnQuery(q, p, drv), RowPass(q, p), snap, dirty, cands, shadow);
    walk := W.Walk(ColumnQuery(q, p, drv), RowPass(q, p), W.Directed(snap, q.sh.desc), W.Directed(cands, q.sh.desc), shadow);
    ColumnListing(q, p, drv, walk);
  }

  /** ORDER BY a NOT NULL driver column with an ordered index: the driver is walked in
      order and probed until offset+limit rows are kept. */
  method ColumnWalk(q: Query, p: Plan, ghost conj: seq<Expr>, ghost at: nat, drv: Side, prb: Side, dirty: seq<Uuid>, eff: int)
    returns (out: seq<Pair>, ghost all: seq<Pair>)
    requires Ready(q, p, conj, at, drv, prb) && ProbeReady(q, p, prb) && Live(drv) && Live(prb) && ListsOverlay(prb.t, prb.s, dirty)
    requires p.driverWalk && PinsAgree(p, drv.info, conj, q.args) && Sortable(q) && q.sh.ord - DriverOff(p) !in drv.info.nullable
    ensures Lists(q, all) && Ordered(q, Rows(q, all)) && out == Taken(all, eff)
  {
    var snap, cands, shadow;
    ghost var walk;
    snap, cands, shadow, walk := ColumnStreams(q, p, drv);
    forall i | 0 <= i < |walk| ensures walk[i] in DriverRows(q, p) { assert walk[i] in walk; }
    out, all := WalkDrivers(q, p, prb, ColumnQuery(q, p, drv), RowPass(q, p), snap, cands, shadow, dirty, eff, walk);
    WalkAnswers(q, p, conj, at, drv, prb, walk, all);
  }

  /** `indexFor` finds the ordered index the planner saw: no column has two. */
  method OrderedIndex(d: Side, ord: nat) returns (k: nat)
    requires ValidSide(d) && OrderedIndexOn(d.info, ord)
    ensures k < |d.t.indexes| && d.t.indexes[k] == O.IndexDef([ord], true)
  {
    ghost var i :| 0 <= i < |d.t.indexes| && d.t.indexes[i] == O.IndexDef([ord], true);
    k := IndexFor(d.t.indexes, ord).value;
    assert k == i;
  }

  lemma NotNullColumn(d: Side, ord: nat)
    requires ValidSide(d) && ord < d.info.width && ord !in d.info.nullable
    ensures ColumnTyped(d.s.rows, d.t.width, ord, d.kinds[ord])
  {
    forall pk | pk in d.s.rows ensures d.s.rows[pk][ord].Kind() == d.kinds[ord] {
      assert TypedRow(d, pk, d.s.rows[pk]);
      assert TypedCell(d, d.s.rows[pk], ord);
    }
  }

  // ---- driverCompWalk ----

  /** The first operand that gives no value to walk under comes to `end`. */
  predicate EndsIn(srcs: seq<Expr>, args: seq<Value>, end: Option<Value>) {
    exists i :: 0 <= i < |srcs| && ResolveOperand(srcs[i], args) == end && UsableTo(srcs, args, i)
  }

  predicate UsableTo(srcs: seq<Expr>, args: seq<Value>, n: nat)
    requires n <= |srcs|
  {
    forall k {:trigger srcs[k]} :: 0 <= k < n ==> var v := ResolveOperand(srcs[k], args); v.Some? && !v.value.Null?
  }

  /** The value of each pinned leading column: an unresolved one is an error, a NULL one
      empties the result, whichever comes first. */
  method PinnedValues(srcs: seq<Expr>, args: seq<Value>) returns (r: Result<Option<seq<Value>>, EvalError>)
    ensures r.Ok? && r.value.Some? ==>
              |r.value.value| == |srcs| && forall i :: 0 <= i < |srcs| ==> ResolveOperand(srcs[i], args) == Some(r.value.value[i]) && !r.value.value[i].Null?
    ensures r == Ok(None) <==> EndsIn(srcs, args, Some(Null))
    ensures r.Err? <==> EndsIn(srcs, args, None)
  {
    var vals := [];
    for i := 0 to |srcs|
      invariant |vals| == i && forall k :: 0 <= k < i ==> ResolveOperand(srcs[k], args) == Some(vals[k]) && !vals[k].Null?
    {
      match ResolveOperand(srcs[i], args) {
        case None => return Err(ParamOutOfRange);
        case Some(v) =>
          if v.Null? { return Ok(None); }
          vals := vals + [v];
      }
    }
    return Ok(Some(vals));
  }

  /** The pinned index and values of a plan. */
  ghost predicate PinnedTo(p: Plan, drv: Side, args: seq<Value>, vals: seq<Value>) {
    && p.pins.Some? && p.pins.value.index < |drv.info.indexes|
    && 0 < |vals| == |p.pins.value.srcs| < |drv.info.indexes[p.pins.value.index].ords|
    && forall i :: 0 <= i < |vals| ==> ResolveOperand(p.pins.value.srcs[i], args) == Some(vals[i])
  }

  function PinOrds(p: Plan, drv: Side): seq<nat>
    requires p.pins.Some? && p.pins.value.index < |drv.info.indexes|
  {
    drv.info.indexes[p.pins.value.index].ords
  }

  /** What the composite walk really filters by: the driver's predicates, and the pinned
      prefix only for rows outside the overlay, whose key is in the primary-key column. */
  function PinnedFilter(q: Query, p: Plan, ords: seq<nat>, vals: seq<Value>, shadow: set<Uuid>, pkOrd: nat): Row -> bool {
    (r: Row) => PassDriver(q, p, r) && (HoldsPrefix(ords, vals, r) || InOverlay(r, shadow, pkOrd))
  }

  predicate InOverlay(r: Row, shadow: set<Uuid>, pkOrd: nat) {
    pkOrd < |r| && r[pkOrd].Id? && r[pkOrd].u in shadow
  }

  function PinnedQuery(q: Query, p: Plan, drv: Side, vals: seq<Value>, shadow: set<Uuid>): W.Query
    requires p.pins.Some? && p.pins.value.index < |drv.info.indexes|
  {
    W.Query(drv.s.rows, PinnedFilter(q, p, PinOrds(p, drv), vals, shadow, drv.info.pk), TupleKey(PinOrds(p, drv)), KindBytes, q.sh.desc)
  }

  /** Every overlay row that passes the driver's predicates holds the pinned prefix. */
  ghost predicate OverlayPinned(q: Query, p: Plan, drv: Side, vals: seq<Value>)
    requires O.ValidTable(drv.t) && O.Shaped(drv.t, drv.s) && p.pins.Some? && p.pins.value.index < |drv.info.indexes|
  {
    forall pk {:trigger O.Overlay(drv.t, drv.s, pk)} :: O.Overlay(drv.t, drv.s, pk) && pk in drv.s.rows && PassDriver(q, p, drv.s.rows[pk]) ==>
      HoldsPrefix(PinOrds(p, drv), vals, drv.s.rows[pk])
  }

  lemma PinsAreGuarantee(q: Query, p: Plan, drv: Side, vals: seq<Value>, pk: Uuid)
    requires ValidQuery(q) && PlanFor(q, p) && ValidSide(drv) && drv.s.rows == DriverRows(q, p) && drv.info.width == DriverWidth(p)
    requires PinnedTo(p, drv, q.args, vals) && pk in drv.s.rows
    ensures Guarantee(p, drv.info, Scratch(q, p, drv.s.rows[pk]), q.args) <==> HoldsPrefix(PinOrds(p, drv), vals, drv.s.rows[pk])
  {
    OrdsInRange(drv);
    var row, ords := drv.s.rows[pk], PinOrds(p, drv);
    forall i | 0 <= i < |vals|
      ensures HoldsPin(Scratch(q, p, row), DriverOff(p) + ords[i], p.pins.value.srcs[i], q.args) <==> row[ords[i]] == vals[i] {}
  }

  /** What such a walk visits. */
  lemma WalkVisits(q: Query, p: Plan, drv: Side, vals: seq<Value>, dirty: seq<Uuid>, walk: seq<Uuid>, pk: Uuid)
    requires ValidQuery(q) && PlanFor(q, p) && ValidSide(drv) && drv.s.rows == DriverRows(q, p) && drv.info.width == DriverWidth(p)
    requires PinnedTo(p, drv, q.args, vals) && ListsOverlay(drv.t, drv.s, dirty)
    requires W.Listing(PinnedQuery(q, p, drv, vals, set pk | pk in dirty), walk)
    ensures pk in walk <==> pk in drv.s.rows && PassDriver(q, p, drv.s.rows[pk]) && (HoldsPrefix(PinOrds(p, drv), vals, drv.s.rows[pk]) || O.Overlay(drv.t, drv.s, pk))
  {
    assert pk in walk <==> W.Qualifies(PinnedQuery(q, p, drv, vals, set pk | pk in dirty), pk);
    if pk in drv.s.rows { assert TypedRow(drv, pk, drv.s.rows[pk]); }
    assert pk in dirty <==> O.Overlay(drv.t, drv.s, pk);
  }

  /** The walk's driver rows are the ones the plan promises exactly when every overlay
      row that passes the driver's predicates holds the pinned prefix. */
  lemma PinnedWalkIffOverlayPinned(q: Query, p: Plan, drv: Side, vals: seq<Value>, dirty: seq<Uuid>, walk: seq<Uuid>)
    requires ValidQuery(q) && PlanFor(q, p) && ValidSide(drv) && drv.s.rows == DriverRows(q, p) && drv.info.width == DriverWidth(p)
    requires PinnedTo(p, drv, q.args, vals) && ListsOverlay(drv.t, drv.s, dirty)
    requires W.Listing(PinnedQuery(q, p, drv, vals, set pk | pk in dirty), walk)
    ensures DriverList(q, p, drv.info, walk) <==> OverlayPinned(q, p, drv, vals)
  {
    forall pk ensures pk in walk <==> pk in drv.s.rows && PassDriver(q, p, drv.s.rows[pk]) && (HoldsPrefix(PinOrds(p, drv), vals, drv.s.rows[pk]) || O.Overlay(drv.t, drv.s, pk))
    {
      WalkVisits(q, p, drv, vals, dirty, walk, pk);
    }
    forall pk | pk in drv.s.rows ensures Drives(q, p, drv.info, pk) <==> PassDriver(q, p, drv.s.rows[pk]) && HoldsPrefix(PinOrds(p, drv), vals, drv.s.rows[pk]) {
      PinsAreGuarantee(q, p, drv, vals, pk);
    }
    if DriverList(q, p, drv.info, walk) {
      forall pk | O.Overlay(drv.t, drv.s, pk) && pk in drv.s.rows && PassDriver(q, p, drv.s.rows[pk]) ensures HoldsPrefix(PinOrds(p, drv), vals, drv.s.rows[pk]) {
        assert pk in walk;
        assert Drives(q, p, drv.info, pk);
      }
    }
  }

  /** An insert under another prefix breaks that condition until the next merge: the
      walk then delivers a driver row the WHERE rejects. */
  lemma UnmergedRowEscapesPins(q: Query, p: Plan, drv: Side, vals: seq<Value>, pk: Uuid, row: Row)
    requires O.ValidTable(drv.t) && O.Inv(drv.t, drv.s) && p.pins.Some? && p.pins.value.index < |drv.info.indexes|
    requires pk !in drv.s.rows && |row| == drv.t.width && PassDriver(q, p, row) && !HoldsPrefix(PinOrds(p, drv), vals, row)
    ensures !OverlayPinned(q, p, drv.(s := O.Do(drv.t, drv.s, O.Insert(pk, row))), vals)
  {
    var s' := O.Do(drv.t, drv.s, O.Insert(pk, row));
    O.StepKeepsInv(drv.t, drv.s, O.Insert(pk, row));
    var sh := drv.t.route(pk);
    assert pk in s'.dirtyRead[sh];
    O.CounterNeverHides(drv.t, s', sh);
    assert O.Overlay(drv.t, s', pk);
  }

  function KindsAt(d: Side, ords: seq<nat>): seq<Kind> {
    seq(|ords|, i requires 0 <= i < |ords| => if ords[i] < |d.kinds| then d.kinds[ords[i]] else KindNull)
  }

  /** Validated rows have a non-NULL cell of its kind in every NOT NULL indexed column. */
  lemma NotNullTuple(d: Side, k: nat)
    requires ValidSide(d) && k < |d.t.indexes| && !AnyNullable(d.info, d.t.indexes[k].ords)
    ensures TupleTyped(d.s.rows, d.t.width, d.t.indexes[k].ords, KindsAt(d, d.t.indexes[k].ords))
  {
    var ords := d.t.indexes[k].ords;
    OrdsInRange(d);
    forall pk, i | pk in d.s.rows && 0 <= i < |ords| ensures d.s.rows[pk][ords[i]].Kind() == KindsAt(d, ords)[i] {
      assert TypedRow(d, pk, d.s.rows[pk]);
      assert TypedCell(d, d.s.rows[pk], ords[i]);
    }
  }

  /** The pinned values are of their columns' kinds. */
  ghost predicate PinsTyped(p: Plan, drv: Side, vals: seq<Value>)
    requires p.pins.Some? && p.pins.value.index < |drv.info.indexes|
  {
    |vals| <= |PinOrds(p, drv)| && forall i :: 0 <= i < |vals| ==> vals[i].Kind() == KindsAt(drv, PinOrds(p, drv))[i]
  }

  /** Rows outside the overlay are filtered by the prefix and the driver's predicates. */
  lemma CleanFilter(q: Query, p: Plan, drv: Side, vals: seq<Value>, dirty: seq<Uuid>)
    requires ValidSide(drv) && PinnedTo(p, drv, q.args, vals)
    ensures forall pk :: pk in drv.s.rows && pk !in dirty ==>
              (PinnedQuery(q, p, drv, vals, set x | x in dirty).where(drv.s.rows[pk]) <==>
               HoldsPrefix(PinOrds(p, drv), vals, drv.s.rows[pk]) && RowPass(q, p)(drv.s.rows[pk]))
    ensures forall pk :: pk in drv.s.rows && pk in dirty ==>
              (PinnedQuery(q, p, drv, vals, set x | x in dirty).where(drv.s.rows[pk]) <==> RowPass(q, p)(drv.s.rows[pk]))
  {
    forall pk | pk in drv.s.rows ensures InOverlay(drv.s.rows[pk], (set x | x in dirty), drv.info.pk) <==> pk in dirty {
      assert TypedRow(drv, pk, drv.s.rows[pk]);
    }
  }

  /** The streams of a composite walk: the run under the pinned prefix, and the overlay
      rows that pass the driver's predicates. */
  method PinnedStreams(q: Query, p: Plan, drv: Side, vals: seq<Value>)
    returns (part: seq<OrdEntry>, cands: seq<OrdEntry>, shadow: set<Uuid>, ghost dirty: seq<Uuid>, ghost walk: seq<Uuid>)
    requires ValidSide(drv) && Live(drv) && PinnedTo(p, drv, q.args, vals) && PinsTyped(p, drv, vals)
    requires CompositeOrdered(drv.info, drv.info.indexes[p.pins.value.index])
    ensures ListsOverlay(drv.t, drv.s, dirty) && shadow == set pk | pk in dirty
    ensures walk == W.Walk(PinnedQuery(q, p, drv, vals, shadow), RowPass(q, p), W.Directed(part, q.sh.desc), W.Directed(cands, q.sh.desc), shadow)
    ensures W.Listing(PinnedQuery(q, p, drv, vals, shadow), walk)
  {
    var k := p.pins.value.index;
    var ords, si := drv.t.indexes[k].ords, drv.idx[k];
    assert IndexMatches(drv, k);
    NotNullTuple(drv, k);
    var overlay := DirtyPks(drv);
    var prefix := EncodeCompositeKey(vals);
    var lo, hi := si.SnapshotPrefix(prefix);
    part, dirty := si.sorted[lo..hi], overlay;
    var byPass := W.Query(drv.s.rows, RowPass(q, p), TupleKey(ords), KindBytes, q.sh.desc);
    CleanFilter(q, p, drv, vals, dirty);
    ghost var wq := PinnedQuery(q, p, drv, vals, set x | x in dirty);
    PrefixRunIsReady(drv.t, drv.s, k, KindsAt(drv, ords), vals, wq.where, RowPass(q, p), q.sh.desc, si.sorted, lo, hi, dirty);
    cands, shadow := E.BuildDirtyCands(byPass, overlay);
    SameCandidates(byPass, wq, dirty);
    E.SliceWalkIsListing(wq, RowPass(q, p), part, dirty, cands, shadow);
    walk := W.Walk(wq, RowPass(q, p), W.Directed(part, q.sh.desc), W.Directed(cands, q.sh.desc), shadow);
  }

  lemma SameCandidates(a: W.Query, b: W.Query, dirty: seq<Uuid>)
    requires a.rows == b.rows && a.keyFn == b.keyFn
    requires forall pk :: pk in b.rows && pk in dirty ==> (b.where(b.rows[pk]) <==> a.where(a.rows[pk]))
    ensures forall pk {:trigger W.Qualifies(a, pk)} {:trigger W.Qualifies(b, pk)} :: pk in dirty ==> (W.Qualifies(a, pk) <==> W.Qualifies(b, pk))
    ensures forall pk {:trigger W.KeyAt(b, pk)} :: W.KeyAt(a, pk) == W.KeyAt(b, pk)
  {}

  /** Rows under one prefix in tuple order are in order by the ORDER BY column. */
  lemma PinnedOrder(q: Query, p: Plan, drv: Side, vals: seq<Value>, shadow: set<Uuid>, walk: seq<Uuid>)
    requires ValidQuery(q) && PlanFor(q, p) && ValidSide(drv) && drv.s.rows == DriverRows(q, p) && drv.info.width == DriverWidth(p)
    requires PinnedTo(p, drv, q.args, vals) && CompositeOrdered(drv.info, drv.info.indexes[p.pins.value.index])
    requires DriverOff(p) <= q.sh.ord && PinOrds(p, drv)[|vals|] == q.sh.ord - DriverOff(p)
    requires W.Listing(PinnedQuery(q, p, drv, vals, shadow), walk) && DriverList(q, p, drv.info, walk)
    ensures forall i, j :: 0 <= i < j < |walk| ==> NotAfter(q, p, walk[i], walk[j])
  {
    var wq, ords := PinnedQuery(q, p, drv, vals, shadow), PinOrds(p, drv);
    forall i | 0 <= i < |walk| ensures walk[i] in drv.s.rows && HoldsPrefix(ords, vals, drv.s.rows[walk[i]]) {
      assert walk[i] in walk;
      assert Drives(q, p, drv.info, walk[i]);
      PinsAreGuarantee(q, p, drv, vals, walk[i]);
    }
    forall i, j | 0 <= i < j < |walk| ensures NotAfter(q, p, walk[i], walk[j]) {
      assert !W.Before(W.Keys(wq, walk)[j], W.Keys(wq, walk)[i], wq.desc);
      UnderPrefixInOrder(drv, p.pins.value.index, vals, walk[i], walk[j], q.sh.desc);
    }
  }

  /** Two rows that hold a prefix: tuple order is the order of the next column. */
  lemma UnderPrefixInOrder(d: Side, k: nat, vals: seq<Value>, a: Uuid, b: Uuid, desc: bool)
    requires ValidSide(d) && k < |d.t.indexes| && !AnyNullable(d.info, d.t.indexes[k].ords) && |vals| < |d.t.indexes[k].ords|
    requires a in d.s.rows && b in d.s.rows
    requires HoldsPrefix(d.t.indexes[k].ords, vals, d.s.rows[a]) && HoldsPrefix(d.t.indexes[k].ords, vals, d.s.rows[b])
    requires !W.Before(TupleKey(d.t.indexes[k].ords)(d.s.rows[b]), TupleKey(d.t.indexes[k].ords)(d.s.rows[a]), desc)
    ensures var o := d.t.indexes[k].ords[|vals|];
            o < |d.s.rows[a]| && o < |d.s.rows[b]| && !W.Before(KeyOf(d.s.rows[b][o]), KeyOf(d.s.rows[a][o]), desc)
  {
    NotNullTuple(d, k);
    NextColumnInOrder(d.t.indexes[k].ords, KindsAt(d, d.t.indexes[k].ords), d.s.rows[a], d.s.rows[b], |vals|, desc);
  }

  /** ORDER BY the column after a pinned prefix of a composite index. */
  method PinnedWalk(q: Query, p: Plan, ghost conj: seq<Expr>, ghost at: nat, drv: Side, prb: Side, vals: seq<Value>, dirty: seq<Uuid>, eff: int)
    returns (out: seq<Pair>, ghost all: seq<Pair>)
    requires Ready(q, p, conj, at, drv, prb) && ProbeReady(q, p, prb) && Live(drv) && Live(prb) && ListsOverlay(prb.t, prb.s, dirty)
    requires PinnedTo(p, drv, q.args, vals) && PinsTyped(p, drv, vals) && PinsAgree(p, drv.info, conj, q.args) && Sortable(q)
    requires OverlayPinned(q, p, drv, vals)
    ensures Lists(q, all) && Ordered(q, Rows(q, all)) && out == Taken(all, eff)
  {
    var part, cands, shadow;
    ghost var overlay, walk;
    part, cands, shadow, overlay, walk := PinnedStreams(q, p, drv, vals);
    PinnedWalkIffOverlayPinned(q, p, drv, vals, overlay, walk);
    PinnedOrder(q, p, drv, vals, shadow, walk);
    forall i | 0 <= i < |walk| ensures walk[i] in DriverRows(q, p) { assert walk[i] in walk; }
    out, all := WalkDrivers(q, p, prb, PinnedQuery(q, p, drv, vals, shadow), RowPass(q, p), part, cands, shadow, dirty, eff, walk);
    WalkAnswers(q, p, conj, at, drv, prb, walk, all);
  }
}
