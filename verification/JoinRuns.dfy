/** The result paths of a join, each against the nested-loop answer: fetched, scanned or
    streamed drivers, the two ordered walks, the probe walk, top-N and sort (join.go). */
module JoinRuns {
  import opened Wrappers
  import opened Sequences
  import opened Values
  import opened Expressions
  import opened JoinPlans
  import opened Sides
  import opened JoinSpecs
  import opened JoinExecs
  import opened JoinDrives
  import W = OrderedWalks
  import T = TopNs

  function LeftInfo(p: Plan, drv: Side, prb: Side): TableInfo { if p.driverIsLeft then drv.info else prb.info }
  function RightInfo(p: Plan, drv: Side, prb: Side): TableInfo { if p.driverIsLeft then prb.info else drv.info }

  /** The plan was made for this query, over these two tables. */
  ghost predicate Ready(q: Query, p: Plan, conj: seq<Expr>, at: nat, drv: Side, prb: Side) {
    && ValidQuery(q) && PlanFor(q, p) && ValidSide(drv) && ValidSide(prb)
    && drv.s.rows == DriverRows(q, p) && prb.s.rows == ProbeRowsOf(q, p)
    && drv.info.width == DriverWidth(p) && prb.info.width == ProbeWidth(p)
    && Divided(p, drv.info, WhereConjuncts(q.where), conj, at) && Walks(p, LeftInfo(p, drv, prb), RightInfo(p, drv, prb))
    && Indexed(prb.info, ProbeOn(p))
    && (q.ordered <==> p.order.Some?) && (q.ordered ==> p.order.value == q.sh.ord)
    && ProjFits(q)
  }

  ghost predicate ProjFits(q: Query) {
    q.sh.proj.Some? ==> forall j :: 0 <= j < |q.sh.proj.value| ==> q.sh.proj.value[j] < q.nLeft + q.nRight
  }

  /** What the planner returns is what the executor needs. */
  lemma PlannedIsReady(q: Query, p: Plan, l: TableInfo, r: TableInfo, conj: seq<Expr>, at: nat, drv: Side, prb: Side)
    requires ValidQuery(q) && ProjFits(q) && ValidSide(drv) && ValidSide(prb)
    requires Planned(p, l, r, WhereConjuncts(q.where), conj, at)
    requires p.typ == q.typ && p.leftOn == q.leftOn && p.rightOn == q.rightOn && l.width == q.nLeft && r.width == q.nRight
    requires drv.info == DriverTable(p, l, r) && prb.info == ProbeTable(p, l, r)
    requires drv.s.rows == DriverRows(q, p) && prb.s.rows == ProbeRowsOf(q, p)
    requires (q.ordered <==> p.order.Some?) && (q.ordered ==> p.order.value == q.sh.ord)
    ensures Ready(q, p, conj, at, drv, prb)
  {}

  /** What can be read off the two schemas: ON columns of one kind meet through an index
      that holds every row; columns of different kinds, where neither a text is looked up as
      an identifier nor the probe side walked. */
  predicate JoinSafe(p: Plan, drv: Side, prb: Side)
    requires DriverOn(p) < |drv.kinds| && ProbeOn(p) < |prb.kinds|
  {
    if drv.kinds[DriverOn(p)] == prb.kinds[ProbeOn(p)] then ProbeOn(p) == prb.info.pk || OthersNotNull(prb, ProbeOn(p))
    else p.probeWalk.None? && (ProbeOn(p) == prb.info.pk ==> drv.kinds[DriverOn(p)] != KindString)
  }

  lemma ReadyProbe(q: Query, p: Plan, conj: seq<Expr>, at: nat, drv: Side, prb: Side)
    requires Ready(q, p, conj, at, drv, prb) && JoinSafe(p, drv, prb)
    ensures ProbeReady(q, p, prb) && AllBound(p.driverPreds, q.nLeft + q.nRight)
  {
    assert AllBound(WhereConjuncts(q.where), q.nLeft + q.nRight) by {
      ConjunctsAreWhere(q.where, Nulls(q.nLeft + q.nRight), q.args);
    }
    PartsBound(p, drv.info, WhereConjuncts(q.where), conj, at, q.nLeft + q.nRight);
    forall pk | pk in DriverRows(q, p) ensures CellReady(p, prb, JoinCell(q, p, pk)) {
      assert TypedRow(drv, pk, drv.s.rows[pk]);
      assert TypedCell(drv, drv.s.rows[pk], DriverOn(p));
    }
  }

  lemma OrdsInRange(d: Side)
    requires ValidSide(d)
    ensures forall k, i :: 0 <= k < |d.info.indexes| && 0 <= i < |d.info.indexes[k].ords| ==> d.info.indexes[k].ords[i] < d.info.width
  {}

  // ---- gathering the driver ----

  /** The rows of a table, in no particular order. */
  method ScanRows(rows: map<Uuid, Row>) returns (scan: seq<Uuid>)
    ensures Distinct(scan) && forall pk :: pk in scan <==> pk in rows
  {
    scan := [];
    var left := rows.Keys;
    while left != {}
      invariant left <= rows.Keys && Distinct(scan) && forall pk :: pk in scan <==> pk in rows && pk !in left
      decreases |left|
    {
      var pk :| pk in left;
      scan, left := scan + [pk], left - {pk};
    }
  }

  /** A scanned driver: every row that passes the pushed-down conjuncts. */
  lemma ScannedIsDriverList(q: Query, p: Plan, d: TableInfo, scan: seq<Uuid>)
    requires p.fetch.None? && p.pins.None? && Distinct(scan) && forall pk {:trigger pk in scan} :: pk in scan <==> pk in DriverRows(q, p)
    ensures DriverList(q, p, d, Only(scan, PassesPk(q, p)))
  {
    OnlyMembers(scan, PassesPk(q, p));
  }

  /** The fetch key probes safely, and is not NULL for a column that may be: the fetch finds
      nothing for NULL, where a scan takes NULL = NULL for true. */
  predicate FetchSafe(p: Plan, drv: Side, args: seq<Value>) {
    p.fetch.Some? ==>
      var f := p.fetch.value;
      var key := ResolveOperand(f.src, args);
      key.Some? ==> f.ord < |drv.kinds| && (key.value.Null? ==> f.ord !in drv.info.nullable) && ProbeSafe(drv, f.ord, f.byPK, key.value)
  }

  /** A fetched driver: the rows under the key that pass the rest. */
  method FetchDrivers(q: Query, p: Plan, drv: Side, key: Value) returns (drivers: seq<Uuid>)
    requires ValidQuery(q) && PlanFor(q, p) && ValidSide(drv) && Live(drv) && drv.s.rows == DriverRows(q, p) && drv.info.width == DriverWidth(p)
    requires p.fetch.Some? && p.pins.None? && p.fetch.value.ord < drv.info.width && FetchSafe(p, drv, q.args)
    requires (p.fetch.value.byPK <==> p.fetch.value.ord == drv.info.pk) && ResolveOperand(p.fetch.value.src, q.args) == Some(key)
    ensures DriverList(q, p, drv.info, drivers)
  {
    var f := p.fetch.value;
    var dirty := DirtyPks(drv);
    var hits := ProbeRows(drv, f.ord, f.byPK, key, dirty);
    drivers := Only(hits, PassesPk(q, p));
    OnlyMembers(hits, PassesPk(q, p));
    forall pk ensures pk in drivers <==> Drives(q, p, drv.info, pk) {
      SafeProbeIsEquality(drv, f.ord, f.byPK, key, pk);
      if pk in drv.s.rows { assert TypedRow(drv, pk, drv.s.rows[pk]) && TypedCell(drv, drv.s.rows[pk], f.ord); }
      assert pk in drivers <==> pk in hits && PassesPk(q, p)(pk);
      if pk in drv.s.rows { FetchedIsGuaranteed(q, p, drv, key, pk); }
    }
  }

  lemma FetchedIsGuaranteed(q: Query, p: Plan, drv: Side, key: Value, pk: Uuid)
    requires ValidQuery(q) && PlanFor(q, p) && drv.s.rows == DriverRows(q, p) && drv.info.width == DriverWidth(p) && pk in drv.s.rows
    requires p.fetch.Some? && p.pins.None? && p.fetch.value.ord < drv.info.width && ResolveOperand(p.fetch.value.src, q.args) == Some(key)
    ensures Guarantee(p, drv.info, Scratch(q, p, drv.s.rows[pk]), q.args) <==> drv.s.rows[pk][p.fetch.value.ord] == key
  {}

  // ---- results ----

  /** `projectRows`. */
  method ProjectRows(q: Query, rows: seq<Row>) returns (out: seq<Row>)
    requires ProjFits(q) && forall i :: 0 <= i < |rows| ==> |rows[i]| == q.nLeft + q.nRight
    ensures Projects(q, rows, out)
  {
    out := [];
    for i := 0 to |rows|
      invariant |out| == i && forall k :: 0 <= k < i ==> Projection(q, rows[k], out[k])
    {
      out := out + [T.Projected(q.sh, rows[i])];
    }
  }

  ghost predicate Projection(q: Query, row: Row, out: Row)
    requires ProjFits(q)
  {
    |row| == q.nLeft + q.nRight && T.Shows(q.sh, row, out)
  }

  ghost predicate Projects(q: Query, rows: seq<Row>, out: seq<Row>)
    requires ProjFits(q)
  {
    |out| == |rows| && forall i :: 0 <= i < |rows| ==> Projection(q, rows[i], out[i])
  }

  /** What a sink kept, sliced, is the slice of the whole listing. */
  lemma KeptSliceAnswers(q: Query, all: seq<Pair>, out: seq<Pair>, offset: nat, limit: int)
    requires ValidQuery(q) && Sortable(q) && Lists(q, all) && (q.ordered ==> Ordered(q, Rows(q, all)))
    requires out == Taken(all, W.FetchBound(limit, offset))
    ensures Answers(q, W.Slice(Rows(q, out), offset, limit), offset, limit)
  {
    assert Rows(q, out) == Taken(Rows(q, all), W.FetchBound(limit, offset));
    TakenSlice(Rows(q, all), offset, limit);
    SliceAnswers(q, all, Rows(q, all), offset, limit);
  }

  /** No ORDER BY: the first offset+limit joined rows, whatever they are. */
  method Unordered(q: Query, all_: seq<Pair>, ghost all: seq<Pair>, offset: nat, limit: int) returns (out: seq<Row>, ghost rows: seq<Row>)
    requires ValidQuery(q) && ProjFits(q) && Sortable(q) && Lists(q, all) && (q.ordered ==> Ordered(q, Rows(q, all)))
    requires all_ == Taken(all, W.FetchBound(limit, offset))
    ensures Answers(q, rows, offset, limit) && Projects(q, rows, out)
  {
    var kept := W.Slice(Rows(q, all_), offset, limit);
    KeptSliceAnswers(q, all, all_, offset, limit);
    out := ProjectRows(q, kept);
    rows := kept;
  }

  /** ORDER BY without LIMIT: gather, sort, slice. */
  method SortAll(q: Query, all: seq<Pair>, offset: nat, limit: int) returns (out: seq<Row>, ghost rows: seq<Row>)
    requires ValidQuery(q) && ProjFits(q) && q.ordered && Sortable(q) && Lists(q, all)
    ensures Answers(q, rows, offset, limit) && Projects(q, rows, out)
  {
    ListedFit(q, all);
    var sorted := T.SortRows(q.sh, Rows(q, all));
    SortedWide(q, sorted, all, offset, limit);
    SliceAnswers(q, all, sorted, offset, limit);
    var kept := W.Slice(sorted, offset, limit);
    out := ProjectRows(q, kept);
    rows := kept;
  }

  lemma SortedWide(q: Query, sorted: seq<Row>, all: seq<Pair>, offset: nat, limit: int)
    requires ValidQuery(q) && multiset(sorted) == multiset(Rows(q, all))
    ensures AllWide(q, sorted)
    ensures forall i :: 0 <= i < |W.Slice(sorted, offset, limit)| ==> |W.Slice(sorted, offset, limit)[i]| == q.nLeft + q.nRight
  {
    forall i | 0 <= i < |sorted| ensures |sorted[i]| == q.nLeft + q.nRight {
      assert sorted[i] in multiset(sorted);
      assert sorted[i] in multiset(Rows(q, all));
    }
  }

  /** ORDER BY with LIMIT: every joined row is offered to a heap of offset+limit rows. */
  method TopRows(q: Query, all: seq<Pair>, offset: nat, limit: nat) returns (out: seq<Row>, ghost rows: seq<Row>)
    requires ValidQuery(q) && ProjFits(q) && q.ordered && Sortable(q) && Lists(q, all) && limit > 0 && q.sh.kind != KindNull
    ensures Answers(q, rows, offset, limit) && Projects(q, rows, out)
  {
    ListedFit(q, all);
    var sh := q.sh.(capN := limit + offset);
    var top := T.OfferAll(sh, Rows(q, all));
    var sorted;
    ghost var order;
    sorted, order := T.SortedRows(top);
    CapIsIrrelevant(q, sh, order, Rows(q, all));
    TopAnswers(q, all, order, offset, limit);
    out, rows := W.Slice(sorted, offset, limit), W.Slice(order, offset, limit);
    ProjectedSlice(q, sh, order, sorted, all, offset, limit);
  }

  /** The heap's capacity plays no part in what a sort is. */
  lemma CapIsIrrelevant(q: Query, sh: T.Shape, order: seq<Row>, offered: seq<Row>)
    requires sh == q.sh.(capN := sh.capN) && T.AllFit(sh, order)
    requires forall all: seq<Row> :: T.IsSort(sh, all, offered) ==> T.RowKeys(sh, order) <= T.RowKeys(sh, all)
    ensures T.AllFit(q.sh, order)
    ensures forall all: seq<Row> :: T.IsSort(q.sh, all, offered) ==> T.RowKeys(q.sh, order) <= T.RowKeys(q.sh, all)
  {
    forall i | 0 <= i < |order| ensures T.Fits(q.sh, order[i]) { assert T.Fits(sh, order[i]); }
    forall all: seq<Row> | T.IsSort(q.sh, all, offered) ensures T.RowKeys(q.sh, order) <= T.RowKeys(q.sh, all) {
      forall i | 0 <= i < |all| ensures T.Fits(sh, all[i]) { assert T.Fits(q.sh, all[i]); }
      assert T.RowKeys(sh, all) == T.RowKeys(q.sh, all);
      assert T.IsSort(sh, all, offered);
      assert T.RowKeys(sh, order) == T.RowKeys(q.sh, order);
    }
  }

  lemma ProjectedSlice(q: Query, sh: T.Shape, order: seq<Row>, sorted: seq<Row>, all: seq<Pair>, offset: nat, limit: nat)
    requires ProjFits(q) && sh == q.sh.(capN := sh.capN) && T.AllFit(sh, order) && multiset(order) <= multiset(Rows(q, all))
    requires |sorted| == |order| && forall i :: 0 <= i < |sorted| ==> T.Shows(sh, order[i], sorted[i])
    ensures Projects(q, W.Slice(order, offset, limit), W.Slice(sorted, offset, limit))
  {
    forall i | 0 <= i < |order| ensures Projection(q, order[i], sorted[i]) {
      assert order[i] in multiset(order);
      assert order[i] in multiset(Rows(q, all));
      assert T.Shows(q.sh, order[i], sorted[i]);
    }
  }
}
