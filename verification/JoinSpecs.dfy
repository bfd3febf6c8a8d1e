/** What a two-table join promises, as a naive nested loop with NULL padding, WHERE,
    ORDER BY, OFFSET and LIMIT; and why driving one side answers it (join.go). */
module JoinSpecs {
  import opened Wrappers
  import opened Values
  import opened Sequences
  import opened Expressions
  import opened IndexOrder
  import opened JoinPlans
  import opened Sides
  import opened TopNs
  import W = OrderedWalks

  /** Which left and which right row make up a result row; None is NULL padding. */
  datatype Pair = Pair(l: Option<Uuid>, r: Option<Uuid>)

  /** A join over the live rows of two tables. `sh` names the ORDER BY column, when
      `ordered`, and the projected columns, None for all. */
  datatype Query = Query(typ: JoinType, nLeft: nat, nRight: nat, leftOn: nat, rightOn: nat,
                         left: map<Uuid, Row>, right: map<Uuid, Row>, where: Option<Expr>, args: seq<Value>,
                         ordered: bool, sh: Shape)

  function Nulls(n: nat): (r: Row)
    ensures |r| == n
  {
    seq(n, _ => Null)
  }

  function SideRow(rows: map<Uuid, Row>, pk: Option<Uuid>, width: nat): (r: Row)
    ensures |r| == width
  {
    if pk.Some? && pk.value in rows && |rows[pk.value]| == width then rows[pk.value] else Nulls(width)
  }

  /** `fillConcat`: left cells, then right cells. */
  function Concat(q: Query, p: Pair): (r: Row)
    ensures |r| == q.nLeft + q.nRight
  {
    SideRow(q.left, p.l, q.nLeft) + SideRow(q.right, p.r, q.nRight)
  }

  /** A result row: the left row's cells, then the right row's, NULL where a side is padding. */
  lemma ConcatIs(q: Query, p: Pair, i: nat)
    requires ValidQuery(q) && (p.l.Some? ==> p.l.value in q.left) && (p.r.Some? ==> p.r.value in q.right)
    ensures |Concat(q, p)| == q.nLeft + q.nRight
    ensures i < q.nLeft ==> Concat(q, p)[i] == if p.l.Some? then q.left[p.l.value][i] else Null
    ensures i < q.nRight ==> Concat(q, p)[q.nLeft + i] == if p.r.Some? then q.right[p.r.value][i] else Null
  {}

  ghost predicate Wide(rows: map<Uuid, Row>, width: nat) {
    forall pk :: pk in rows ==> |rows[pk]| == width
  }

  ghost predicate ValidQuery(q: Query) {
    && Wide(q.left, q.nLeft) && Wide(q.right, q.nRight) && q.leftOn < q.nLeft && q.rightOn < q.nRight
    && (q.where.Some? ==> BoundWithin(q.where.value, q.nLeft + q.nRight))
    && q.sh.ord < q.nLeft + q.nRight
  }

  /** The ON condition; a NULL join cell matches nothing. */
  predicate Matched(q: Query, l: Uuid, r: Uuid)
    requires ValidQuery(q)
  {
    l in q.left && r in q.right && !q.left[l][q.leftOn].Null? && q.left[l][q.leftOn] == q.right[r][q.rightOn]
  }

  /** A combination the nested loop produces before WHERE: a match, or a row of the
      preserved side that has none. */
  ghost predicate OnPair(q: Query, p: Pair)
    requires ValidQuery(q)
  {
    match (p.l, p.r)
    case (Some(l), Some(r)) => Matched(q, l, r)
    case (Some(l), None) => q.typ.LeftJoin? && l in q.left && forall r :: !Matched(q, l, r)
    case (None, Some(r)) => q.typ.RightJoin? && r in q.right && forall l :: !Matched(q, l, r)
    case (None, None) => false
  }

  ghost predicate Joined(q: Query, p: Pair)
    requires ValidQuery(q)
  {
    OnPair(q, p) && WhereHolds(q.where, Concat(q, p), q.args)
  }

  /** The whole unsorted result: every joined combination once. */
  ghost predicate Lists(q: Query, all: seq<Pair>)
    requires ValidQuery(q)
  {
    Distinct(all) && forall p {:trigger p in all} :: p in all <==> Joined(q, p)
  }

  function Rows(q: Query, ps: seq<Pair>): (rows: seq<Row>)
    ensures |rows| == |ps| && forall i :: 0 <= i < |rows| ==> rows[i] == Concat(q, ps[i])
  {
    seq(|ps|, i requires 0 <= i < |ps| => Concat(q, ps[i]))
  }

  ghost predicate Ordered(q: Query, rows: seq<Row>)
    requires forall i :: 0 <= i < |rows| ==> q.sh.ord < |rows[i]|
  {
    W.InOrder(RowKeys(q.sh, rows), q.sh.desc)
  }

  /** `rows`, before projection, answers the query: against every way to list the join,
      in ORDER BY order if there is one, it holds listed rows only, as many as OFFSET and
      LIMIT leave, and for ORDER BY with exactly the keys of that slice. */
  ghost predicate Answers(q: Query, rows: seq<Row>, offset: nat, limit: int)
    requires ValidQuery(q)
  {
    forall all {:trigger Lists(q, all)} :: Lists(q, all) && (q.ordered ==> Ordered(q, Rows(q, all))) ==> Slices(q, all, rows, offset, limit)
  }

  ghost predicate Slices(q: Query, all: seq<Pair>, rows: seq<Row>, offset: nat, limit: int)
    requires ValidQuery(q)
  {
    && multiset(rows) <= multiset(Rows(q, all)) && |rows| == |W.Slice(all, offset, limit)|
    && (forall i :: 0 <= i < |rows| ==> q.sh.ord < |rows[i]|)
    && (q.ordered ==> RowKeys(q.sh, rows) == W.Slice(RowKeys(q.sh, Rows(q, all)), offset, limit))
  }

  /** Every row the join sorts has a sort cell of one kind: ORDER BY over NULL cells has
      no defined order in the source either. */
  ghost predicate Sortable(q: Query)
    requires ValidQuery(q)
  {
    q.ordered ==> forall p {:trigger Joined(q, p)} :: Joined(q, p) ==> Fits(q.sh, Concat(q, p))
  }

  // ---- any two listings agree ----

  ghost predicate SameMembers(a: seq<Pair>, b: seq<Pair>) {
    forall p {:trigger p in a} {:trigger p in b} :: p in a <==> p in b
  }

  lemma {:induction false} SameMembersSameRows(q: Query, a: seq<Pair>, b: seq<Pair>)
    requires Distinct(a) && Distinct(b) && SameMembers(a, b)
    ensures multiset(Rows(q, a)) == multiset(Rows(q, b)) && |a| == |b|
    decreases |a|
  {
    assert b == [] || b[0] in b;
    if a != [] {
      assert a[0] in b;
      var i :| 0 <= i < |b| && b[i] == a[0];
      LessOne(a, b, i);
      SameMembersSameRows(q, a[1..], Without(b, i));
      RowsWithout(q, b, i);
      RowsWithout(q, a, 0);
      assert a[1..] == Without(a, 0);
    }
  }

  lemma LessOne(a: seq<Pair>, b: seq<Pair>, i: nat)
    requires Distinct(a) && Distinct(b) && SameMembers(a, b) && a != [] && i < |b| && b[i] == a[0]
    ensures Distinct(a[1..]) && Distinct(Without(b, i)) && SameMembers(a[1..], Without(b, i))
  {
    assert a[1..] == Without(a, 0);
    forall p ensures p in a[1..] <==> p in Without(b, i) {
      OneLess(a, 0, p);
      OneLess(b, i, p);
    }
  }

  lemma RowsWithout(q: Query, s: seq<Pair>, i: nat)
    requires i < |s|
    ensures multiset(Rows(q, s)) == multiset(Rows(q, Without(s, i))) + multiset{Concat(q, s[i])}
  {
    assert s == s[..i] + ([s[i]] + s[i + 1..]);
    RowsConcat(q, s[..i], [s[i]] + s[i + 1..]);
    RowsConcat(q, [s[i]], s[i + 1..]);
    RowsConcat(q, s[..i], s[i + 1..]);
    MultisetMiddle(Rows(q, s[..i]), Concat(q, s[i]), Rows(q, s[i + 1..]));
  }

  lemma RowsConcat(q: Query, a: seq<Pair>, b: seq<Pair>)
    ensures Rows(q, a + b) == Rows(q, a) + Rows(q, b)
  {}

  lemma OneLess(s: seq<Pair>, i: nat, p: Pair)
    requires Distinct(s) && i < |s|
    ensures p in Without(s, i) <==> p in s && p != s[i]
  {
    if p in s && p != s[i] {
      var j :| 0 <= j < |s| && s[j] == p;
      assert if j < i then s[..i][j] == p else s[i + 1..][j - i - 1] == p;
    }
  }

  lemma ListingsSameRows(q: Query, a: seq<Pair>, b: seq<Pair>)
    requires ValidQuery(q) && Lists(q, a) && Lists(q, b)
    ensures multiset(Rows(q, a)) == multiset(Rows(q, b)) && |a| == |b|
  {
    forall p ensures p in a <==> p in b { assert p in a <==> Joined(q, p); }
    assert SameMembers(a, b);
    SameMembersSameRows(q, a, b);
  }

  lemma ListedFit(q: Query, all: seq<Pair>)
    requires ValidQuery(q) && q.ordered && Sortable(q) && Lists(q, all)
    ensures AllFit(q.sh, Rows(q, all))
  {
    forall i | 0 <= i < |all| ensures Fits(q.sh, Rows(q, all)[i]) {
      assert all[i] in all;
      assert Joined(q, all[i]);
    }
  }

  /** Slicing the rows of one listing, put in order if need be, answers the query. */
  lemma SliceAnswers(q: Query, mine: seq<Pair>, rows: seq<Row>, offset: nat, limit: int)
    requires ValidQuery(q) && Sortable(q) && Lists(q, mine)
    requires multiset(rows) == multiset(Rows(q, mine)) && AllWide(q, rows) && (q.ordered ==> Ordered(q, rows))
    ensures Answers(q, W.Slice(rows, offset, limit), offset, limit)
  {
    var out := W.Slice(rows, offset, limit);
    assert |multiset(rows)| == |rows| && |multiset(Rows(q, mine))| == |mine|;
    forall all | Lists(q, all) && (q.ordered ==> Ordered(q, Rows(q, all))) ensures Slices(q, all, out, offset, limit) {
      ListingsSameRows(q, mine, all);
      SliceIsPart(rows, offset, limit);
      SliceKeys(q, rows, offset, limit);
      if q.ordered { SortedKeysAgree(q, rows, all); }
    }
  }

  /** LIMIT 0 needs no join at all. */
  lemma NothingAnswersLimitZero(q: Query, offset: nat)
    requires ValidQuery(q)
    ensures Answers(q, [], offset, 0)
  {
    forall all | Lists(q, all) ensures Slices(q, all, [], offset, 0) {
      assert W.Slice(all, offset, 0) == [] && W.Slice(RowKeys(q.sh, Rows(q, all)), offset, 0) == [];
    }
  }

  lemma SliceIsPart<T>(s: seq<T>, offset: nat, limit: int)
    ensures multiset(W.Slice(s, offset, limit)) <= multiset(s)
  {
    var n := if offset >= |s| then |s| else offset;
    assert s == s[..n] + s[n..];
    var rest := s[n..];
    if 0 <= limit < |rest| { assert rest == rest[..limit] + rest[limit..]; }
  }

  lemma SliceKeys(q: Query, rows: seq<Row>, offset: nat, limit: int)
    requires forall i :: 0 <= i < |rows| ==> q.sh.ord < |rows[i]|
    ensures forall i :: 0 <= i < |W.Slice(rows, offset, limit)| ==> q.sh.ord < |W.Slice(rows, offset, limit)[i]|
    ensures RowKeys(q.sh, W.Slice(rows, offset, limit)) == W.Slice(RowKeys(q.sh, rows), offset, limit)
  {}

  /** Two sorts of the same rows have the same keys. */
  lemma SortedKeysAgree(q: Query, rows: seq<Row>, all: seq<Pair>)
    requires ValidQuery(q) && q.ordered && Sortable(q) && Lists(q, all) && Ordered(q, Rows(q, all))
    requires multiset(rows) == multiset(Rows(q, all))
    requires AllWide(q, rows) && Ordered(q, rows)
    ensures RowKeys(q.sh, rows) == RowKeys(q.sh, Rows(q, all))
  {
    ListedFit(q, all);
    PermutedFit(q.sh, rows, Rows(q, all));
    RowKeysPermute(q.sh, rows, Rows(q, all));
    RowKeysOfKind(q.sh, rows);
    RowKeysOfKind(q.sh, Rows(q, all));
    W.OrderFixesKeys(RowKeys(q.sh, rows), RowKeys(q.sh, Rows(q, all)), q.sh.kind, q.sh.desc);
  }

  ghost predicate AllWide(q: Query, rows: seq<Row>) {
    forall i :: 0 <= i < |rows| ==> q.sh.ord < |rows[i]|
  }

  lemma PermutedFit(sh: Shape, a: seq<Row>, b: seq<Row>)
    requires multiset(a) <= multiset(b) && AllFit(sh, b)
    ensures AllFit(sh, a)
  {
    forall i | 0 <= i < |a| ensures Fits(sh, a[i]) {
      assert a[i] in multiset(a);
      assert a[i] in multiset(b);
    }
  }

  /** The best rows of a full sort, in order, answer the query once sliced. */
  lemma TopAnswers(q: Query, mine: seq<Pair>, top: seq<Row>, offset: nat, limit: nat)
    requires ValidQuery(q) && q.ordered && Sortable(q) && Lists(q, mine) && AllFit(q.sh, top)
    requires |top| == (if |mine| < limit + offset then |mine| else limit + offset)
    requires multiset(top) <= multiset(Rows(q, mine))
    requires forall all: seq<Row> :: IsSort(q.sh, all, Rows(q, mine)) ==> RowKeys(q.sh, top) <= RowKeys(q.sh, all)
    ensures Answers(q, W.Slice(top, offset, limit), offset, limit)
  {
    forall all | Lists(q, all) && Ordered(q, Rows(q, all)) ensures Slices(q, all, W.Slice(top, offset, limit), offset, limit) {
      ListingsSameRows(q, mine, all);
      ListedFit(q, all);
      assert IsSort(q.sh, Rows(q, all), Rows(q, mine));
      TopSlices(q, all, top, offset, limit);
    }
  }

  lemma TopSlices(q: Query, all: seq<Pair>, top: seq<Row>, offset: nat, limit: nat)
    requires ValidQuery(q) && AllFit(q.sh, top) && AllFit(q.sh, Rows(q, all))
    requires |top| == (if |all| < limit + offset then |all| else limit + offset) && multiset(top) <= multiset(Rows(q, all))
    requires RowKeys(q.sh, top) <= RowKeys(q.sh, Rows(q, all))
    ensures Slices(q, all, W.Slice(top, offset, limit), offset, limit)
  {
    SliceIsPart(top, offset, limit);
    SliceKeys(q, top, offset, limit);
    PrefixSlice(RowKeys(q.sh, top), RowKeys(q.sh, Rows(q, all)), offset, limit);
  }

  lemma PrefixSlice<T>(a: seq<T>, b: seq<T>, offset: nat, limit: nat)
    requires a <= b && (|a| == |b| || |a| >= limit + offset)
    ensures W.Slice(a, offset, limit) == W.Slice(b, offset, limit)
  {}

  // ---- there is a listing to answer against ----

  ghost function ListPairs(s: set<Pair>): (ps: seq<Pair>)
    ensures Distinct(ps) && forall x {:trigger x in ps} {:trigger x in s} :: x in ps <==> x in s
  {
    if s == {} then []
    else
      var x :| x in s;
      [x] + ListPairs(s - {x})
  }

  ghost function JoinedPairs(q: Query): (s: set<Pair>)
    requires ValidQuery(q)
    ensures forall p {:trigger p in s} :: p in s <==> Joined(q, p)
  {
    var both := set l, r | l in q.left && r in q.right :: Pair(Some(l), Some(r));
    var lefts := set l | l in q.left :: Pair(Some(l), None);
    var rights := set r | r in q.right :: Pair(None, Some(r));
    set p | p in both + lefts + rights && Joined(q, p)
  }

  /** The same combinations, arranged so that their rows are `rows`. */
  lemma {:induction false} Rearrange(q: Query, ps: seq<Pair>, rows: seq<Row>) returns (out: seq<Pair>)
    requires Distinct(ps) && multiset(Rows(q, ps)) == multiset(rows)
    ensures Distinct(out) && SameMembers(out, ps) && Rows(q, out) == rows
    decreases |rows|
  {
    assert |multiset(Rows(q, ps))| == |ps| && |multiset(rows)| == |rows|;
    if rows == [] {
      out := [];
    } else {
      assert rows[0] in multiset(Rows(q, ps));
      var i :| 0 <= i < |ps| && Concat(q, ps[i]) == rows[0];
      WithoutIs(ps, i);
      RowsCancel(q, ps, i, rows);
      var rest := Rearrange(q, Without(ps, i), rows[1..]);
      out := [ps[i]] + rest;
      assert ps[i] !in rest;
      assert Rows(q, out) == [rows[0]] + Rows(q, rest);
    }
  }

  lemma WithoutIs(s: seq<Pair>, i: nat)
    requires Distinct(s) && i < |s|
    ensures Distinct(Without(s, i)) && forall p {:trigger p in Without(s, i)} :: p in Without(s, i) <==> p in s && p != s[i]
  {
    forall p ensures p in Without(s, i) <==> p in s && p != s[i] { OneLess(s, i, p); }
  }

  lemma RowsCancel(q: Query, ps: seq<Pair>, i: nat, rows: seq<Row>)
    requires i < |ps| && rows != [] && multiset(Rows(q, ps)) == multiset(rows) && Concat(q, ps[i]) == rows[0]
    ensures multiset(Rows(q, Without(ps, i))) == multiset(rows[1..])
  {
    RowsWithout(q, ps, i);
    assert rows == [rows[0]] + rows[1..];
    assert multiset(rows[1..]) == multiset(rows) - multiset{rows[0]};
    assert multiset(Rows(q, Without(ps, i))) == multiset(Rows(q, ps)) - multiset{rows[0]};
  }

  /** Every join has a listing, in ORDER BY order where it is sortable: an answer is never
      vacuous. */
  lemma ListingExists(q: Query) returns (all: seq<Pair>)
    requires ValidQuery(q) && Sortable(q)
    ensures Lists(q, all) && (q.ordered ==> Ordered(q, Rows(q, all)))
  {
    var ps := ListPairs(JoinedPairs(q));
    assert Lists(q, ps);
    all := ps;
    if q.ordered {
      ListedFit(q, ps);
      all := Rearrange(q, ps, SortRows(q.sh, Rows(q, ps)));
      forall p ensures p in all <==> Joined(q, p) { assert p in all <==> p in ps; }
    }
  }

  // ---- driving one side ----

  /** The plan is for this query. */
  ghost predicate PlanFor(q: Query, p: Plan) {
    && p.typ == q.typ && p.nLeft == q.nLeft && p.nRight == q.nRight && p.leftOn == q.leftOn && p.rightOn == q.rightOn
    && (p.driverIsLeft ==> !p.typ.RightJoin?) && (!p.driverIsLeft ==> !p.typ.LeftJoin?)
  }

  function DriverRows(q: Query, p: Plan): map<Uuid, Row> { if p.driverIsLeft then q.left else q.right }
  function ProbeRowsOf(q: Query, p: Plan): map<Uuid, Row> { if p.driverIsLeft then q.right else q.left }

  function PairOf(p: Plan, d: Uuid, pr: Option<Uuid>): Pair {
    if p.driverIsLeft then Pair(Some(d), pr) else Pair(pr, Some(d))
  }

  function DriverOf(p: Plan, pair: Pair): Option<Uuid> { if p.driverIsLeft then pair.l else pair.r }
  function ProbeOf(p: Plan, pair: Pair): Option<Uuid> { if p.driverIsLeft then pair.r else pair.l }

  /** The driver's row alone in a full-width row: what `passDriver` evaluates on. */
  function Scratch(q: Query, p: Plan, row: Row): Row {
    if p.driverIsLeft then row + Nulls(q.nRight) else Nulls(q.nLeft) + row
  }

  /** `passDriver`. */
  predicate PassDriver(q: Query, p: Plan, row: Row) {
    AllBound(p.driverPreds, |Scratch(q, p, row)|) && Pass(p.driverPreds, Scratch(q, p, row), q.args)
  }

  /** The driver rows the access path should deliver. */
  ghost predicate Drives(q: Query, p: Plan, d: TableInfo, pk: Uuid) {
    && pk in DriverRows(q, p) && var row := DriverRows(q, p)[pk];
       Guarantee(p, d, Scratch(q, p, row), q.args) && PassDriver(q, p, row)
  }

  predicate PassResidual(q: Query, p: Plan, row: Row) {
    AllBound(p.residual, |row|) && Pass(p.residual, row, q.args)
  }

  /** What probing for one driver row yields: its matches, or itself padded when the
      preserved side has none; in both cases only where the residual passes. */
  ghost predicate Emitted(q: Query, p: Plan, pk: Uuid, pair: Pair)
    requires ValidQuery(q)
  {
    DriverOf(p, pair) == Some(pk) && OnPair(q, pair) && PassResidual(q, p, Concat(q, pair))
  }

  lemma ScratchAgrees(q: Query, p: Plan, pair: Pair)
    requires ValidQuery(q) && PlanFor(q, p) && OnPair(q, pair) && DriverOf(p, pair).Some?
    ensures DriverOf(p, pair).value in DriverRows(q, p)
    ensures AgreeOn(Scratch(q, p, DriverRows(q, p)[DriverOf(p, pair).value]), Concat(q, pair), DriverOff(p), DriverOff(p) + DriverWidth(p))
  {}

  /** A pinned driver cell reads the same on the scratch row as on the result row. */
  lemma GuaranteeAgrees(p: Plan, d: TableInfo, where: seq<Expr>, conj: seq<Expr>, at: nat, a: Row, b: Row, args: seq<Value>)
    requires Divided(p, d, where, conj, at) && AgreeOn(a, b, DriverOff(p), DriverOff(p) + DriverWidth(p))
    requires forall k, i :: 0 <= k < |d.indexes| && 0 <= i < |d.indexes[k].ords| ==> d.indexes[k].ords[i] < d.width
    ensures Guarantee(p, d, a, args) <==> Guarantee(p, d, b, args)
  {
    match p.pins
    case Some(pins) =>
      var ords := d.indexes[pins.index].ords;
      forall i | 0 <= i < |pins.srcs|
        ensures HoldsPin(a, DriverOff(p) + ords[i], pins.srcs[i], args) <==> HoldsPin(b, DriverOff(p) + ords[i], pins.srcs[i], args) {}
    case None =>
  }

  /** The pushdown is sound and complete: the joined combinations are exactly what the
      driver rows of the path yield, for every join type and either drive side. */
  lemma DrivenIsJoined(q: Query, p: Plan, d: TableInfo, conj: seq<Expr>, at: nat, pair: Pair)
    requires ValidQuery(q) && PlanFor(q, p) && Divided(p, d, WhereConjuncts(q.where), conj, at) && PinsAgree(p, d, conj, q.args)
    requires forall k, i :: 0 <= k < |d.indexes| && 0 <= i < |d.indexes[k].ords| ==> d.indexes[k].ords[i] < d.width
    ensures Joined(q, pair) <==>
              DriverOf(p, pair).Some? && Drives(q, p, d, DriverOf(p, pair).value) && Emitted(q, p, DriverOf(p, pair).value, pair)
  {
    if OnPair(q, pair) && DriverOf(p, pair).Some? {
      ScratchAgrees(q, p, pair);
      ConjunctsAreWhere(q.where, Concat(q, pair), q.args);
      PathIsWhere(p, d, WhereConjuncts(q.where), conj, at, Scratch(q, p, DriverRows(q, p)[DriverOf(p, pair).value]), Concat(q, pair), q.args);
    }
  }

  /** On the scratch row the driver's share, on the full row the rest: together the WHERE. */
  lemma PathIsWhere(p: Plan, d: TableInfo, where: seq<Expr>, conj: seq<Expr>, at: nat, row: Row, full: Row, args: seq<Value>)
    requires Divided(p, d, where, conj, at) && PinsAgree(p, d, conj, args) && AllBound(where, |full|)
    requires forall k, i :: 0 <= k < |d.indexes| && 0 <= i < |d.indexes[k].ords| ==> d.indexes[k].ords[i] < d.width
    requires AgreeOn(row, full, DriverOff(p), DriverOff(p) + DriverWidth(p))
    ensures AllBound(p.driverPreds, |row|) && AllBound(p.residual, |full|)
    ensures Pass(where, full, args) <==> Guarantee(p, d, row, args) && Pass(p.driverPreds, row, args) && Pass(p.residual, full, args)
  {
    GuaranteeAgrees(p, d, where, conj, at, row, full, args);
    PartsBound(p, d, where, conj, at, |full|);
    PassReadsOnly(p.driverPreds, full, row, args, DriverOff(p), DriverOff(p) + DriverWidth(p));
    if Pass(where, full, args) {
      WhereImpliesPath(p, d, where, conj, at, full, args);
    } else if Guarantee(p, d, full, args) && Pass(p.driverPreds, full, args) && Pass(p.residual, full, args) {
      PathIsWhereIffPinsAgree(p, d, where, conj, at, full, args);
    }
  }

  // ---- draining the driver ----

  /** `ps` is everything one driver row yields. */
  ghost predicate Complete(q: Query, p: Plan, pk: Uuid, ps: seq<Pair>)
    requires ValidQuery(q)
  {
    Distinct(ps) && forall pair {:trigger pair in ps} :: pair in ps <==> Emitted(q, p, pk, pair)
  }

  /** `all` is everything these driver rows yield, driver by driver. */
  ghost predicate Drained(q: Query, p: Plan, drivers: seq<Uuid>, all: seq<Pair>)
    requires ValidQuery(q)
  {
    && Distinct(all)
    && (forall pair {:trigger pair in all} :: pair in all <==>
          DriverOf(p, pair).Some? && DriverOf(p, pair).value in drivers && Emitted(q, p, DriverOf(p, pair).value, pair))
    && (forall i, j :: 0 <= i < j < |all| ==> Precedes(p, drivers, all[i], all[j]))
  }

  /** The driver row of `a` is not visited after that of `b`. */
  ghost predicate Precedes(p: Plan, drivers: seq<Uuid>, a: Pair, b: Pair) {
    exists i, j :: 0 <= i <= j < |drivers| && DriverOf(p, a) == Some(drivers[i]) && DriverOf(p, b) == Some(drivers[j])
  }

  lemma DrainedNext(q: Query, p: Plan, drivers: seq<Uuid>, all: seq<Pair>, pk: Uuid, ps: seq<Pair>)
    requires ValidQuery(q) && Drained(q, p, drivers, all) && Complete(q, p, pk, ps) && pk !in drivers
    ensures Drained(q, p, drivers + [pk], all + ps)
  {
    var next, more := drivers + [pk], all + ps;
    forall i | 0 <= i < |all| ensures DriverOf(p, all[i]).Some? && DriverOf(p, all[i]).value in drivers { assert all[i] in all; }
    forall i | 0 <= i < |ps| ensures DriverOf(p, ps[i]) == Some(pk) {
      assert ps[i] in ps;
      assert Emitted(q, p, pk, ps[i]);
    }
    forall i, j | 0 <= i < j < |more| ensures more[i] != more[j] && Precedes(p, next, more[i], more[j]) {
      if j < |all| {
        PrecedesMore(p, drivers, pk, all[i], all[j]);
      } else {
        assert next[|drivers|] == pk;
        if i < |all| {
          var a :| 0 <= a < |drivers| && drivers[a] == DriverOf(p, all[i]).value;
          assert next[a] == drivers[a] && DriverOf(p, more[i]) == Some(next[a]) && DriverOf(p, more[j]) == Some(next[|drivers|]);
        } else {
          assert more[i] == ps[i - |all|] && more[j] == ps[j - |all|];
          assert DriverOf(p, more[i]) == Some(next[|drivers|]) && DriverOf(p, more[j]) == Some(next[|drivers|]);
        }
      }
    }
    forall pair ensures pair in more <==>
      DriverOf(p, pair).Some? && DriverOf(p, pair).value in next && Emitted(q, p, DriverOf(p, pair).value, pair)
    {
      assert pair in more <==> pair in all || pair in ps;
      assert pair in ps <==> Emitted(q, p, pk, pair);
    }
  }

  lemma PrecedesMore(p: Plan, drivers: seq<Uuid>, pk: Uuid, a: Pair, b: Pair)
    requires Precedes(p, drivers, a, b)
    ensures Precedes(p, drivers + [pk], a, b)
  {
    var i, j :| 0 <= i <= j < |drivers| && DriverOf(p, a) == Some(drivers[i]) && DriverOf(p, b) == Some(drivers[j]);
    assert (drivers + [pk])[i] == drivers[i] && (drivers + [pk])[j] == drivers[j];
  }

  /** The driver list an access path must deliver: each driver row once. */
  ghost predicate DriverList(q: Query, p: Plan, d: TableInfo, drivers: seq<Uuid>) {
    && Distinct(drivers)
    && forall pk {:trigger pk in drivers} :: pk in drivers <==> Drives(q, p, d, pk)
  }

  /** Draining every driver row lists the join. */
  lemma DrainedLists(q: Query, p: Plan, d: TableInfo, conj: seq<Expr>, at: nat, drivers: seq<Uuid>, all: seq<Pair>)
    requires ValidQuery(q) && PlanFor(q, p) && Divided(p, d, WhereConjuncts(q.where), conj, at) && PinsAgree(p, d, conj, q.args)
    requires forall k, i :: 0 <= k < |d.indexes| && 0 <= i < |d.indexes[k].ords| ==> d.indexes[k].ords[i] < d.width
    requires DriverList(q, p, d, drivers) && Drained(q, p, drivers, all)
    ensures Lists(q, all)
  {
    forall pair ensures pair in all <==> Joined(q, pair) {
      DrivenIsJoined(q, p, d, conj, at, pair);
    }
  }

  /** When ORDER BY is on a driver column and the driver rows come in that order, so do
      the joined rows. */
  lemma DrainedInOrder(q: Query, p: Plan, drivers: seq<Uuid>, all: seq<Pair>)
    requires ValidQuery(q) && PlanFor(q, p) && q.ordered && Sortable(q) && Drained(q, p, drivers, all) && Lists(q, all)
    requires DriverOff(p) <= q.sh.ord < DriverOff(p) + DriverWidth(p)
    requires forall i :: 0 <= i < |drivers| ==> drivers[i] in DriverRows(q, p)
    requires forall i, j :: 0 <= i < j < |drivers| ==> NotAfter(q, p, drivers[i], drivers[j])
    ensures Ordered(q, Rows(q, all))
  {
    var keys := RowKeys(q.sh, Rows(q, all));
    ListedFit(q, all);
    RowKeysOfKind(q.sh, Rows(q, all));
    forall i, j | 0 <= i < j < |keys| ensures !W.Before(keys[j], keys[i], q.sh.desc) {
      assert Precedes(p, drivers, all[i], all[j]);
      var a, b :| 0 <= a <= b < |drivers| && DriverOf(p, all[i]) == Some(drivers[a]) && DriverOf(p, all[j]) == Some(drivers[b]);
      assert all[i] in all && all[j] in all;
      DriverCell(q, p, all[i], drivers[a]);
      DriverCell(q, p, all[j], drivers[b]);
      W.BeforeTotal(keys[i], keys[j], q.sh.desc);
      assert a < b ==> NotAfter(q, p, drivers[a], drivers[b]);
    }
  }

  /** The first driver row does not sort after the second. */
  ghost predicate NotAfter(q: Query, p: Plan, a: Uuid, b: Uuid)
    requires DriverOff(p) <= q.sh.ord
  {
    && a in DriverRows(q, p) && b in DriverRows(q, p)
    && var o := q.sh.ord - DriverOff(p);
       o < |DriverRows(q, p)[a]| && o < |DriverRows(q, p)[b]|
       && !W.Before(KeyOf(DriverRows(q, p)[b][o]), KeyOf(DriverRows(q, p)[a][o]), q.sh.desc)
  }

  lemma DriverCell(q: Query, p: Plan, pair: Pair, pk: Uuid)
    requires ValidQuery(q) && PlanFor(q, p) && DriverOf(p, pair) == Some(pk) && pk in DriverRows(q, p)
    requires DriverOff(p) <= q.sh.ord < DriverOff(p) + DriverWidth(p)
    ensures Concat(q, pair)[q.sh.ord] == DriverRows(q, p)[pk][q.sh.ord - DriverOff(p)]
  {}
}
