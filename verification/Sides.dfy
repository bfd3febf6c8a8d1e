/** One table as a statement meets it: its schema, its indexes and their overlay
    (plan.go, secindex.go, store_read.go). */
module Sides {
  import opened Wrappers
  import opened Values
  import opened IndexedReads
  import O = IndexOverlay
  import S = SecIndexes

  /** What the planner reads of a table. */
  datatype TableInfo = TableInfo(width: nat, pk: nat, nullable: set<nat>, indexes: seq<O.IndexDef>, live: nat)

  // ---- indexes ----

  predicate Leads(ix: O.IndexDef, ord: nat) { |ix.ords| >= 1 && ix.ords[0] == ord }

  /** `probeIndexFor`: the first index whose leading column is `ord`. */
  function ProbeIndexFor(indexes: seq<O.IndexDef>, ord: nat): (k: Option<nat>)
    ensures k.Some? ==> k.value < |indexes| && Leads(indexes[k.value], ord)
    ensures k.None? ==> forall i :: 0 <= i < |indexes| ==> !Leads(indexes[i], ord)
  {
    if indexes == [] then None
    else
      var last := |indexes| - 1;
      match ProbeIndexFor(indexes[..last], ord)
      case Some(k) => Some(k)
      case None => if Leads(indexes[last], ord) then Some(last) else None
  }

  /** `indexFor`: the first single-column index on `ord`. */
  function IndexFor(indexes: seq<O.IndexDef>, ord: nat): (k: Option<nat>)
    ensures k.Some? ==> k.value < |indexes| && indexes[k.value].ords == [ord]
    ensures k.None? ==> forall i :: 0 <= i < |indexes| ==> indexes[i].ords != [ord]
  {
    if indexes == [] then None
    else
      var last := |indexes| - 1;
      match IndexFor(indexes[..last], ord)
      case Some(k) => Some(k)
      case None => if indexes[last].ords == [ord] then Some(last) else None
  }

  predicate Indexed(t: TableInfo, ord: nat) {
    ord == t.pk || ProbeIndexFor(t.indexes, ord).Some?
  }

  predicate AnyNullable(t: TableInfo, ords: seq<nat>) {
    exists i :: 0 <= i < |ords| && ords[i] in t.nullable
  }

  /** `orderedIndexOn`. */
  predicate OrderedIndexOn(t: TableInfo, ord: nat) {
    exists i :: 0 <= i < |t.indexes| && t.indexes[i] == O.IndexDef([ord], true)
  }

  /** One table at execution: its index protocol state, its schema, and its indexes. */
  datatype Side = Side(t: O.Table, s: O.State, info: TableInfo, kinds: seq<Kind>, idx: seq<S.SecIndex>)

  /** The key kind of an index: a column's own, or bytes for a composite. */
  function IndexKind(d: Side, k: nat): Kind
    requires k < |d.t.indexes|
  {
    var ords := d.t.indexes[k].ords;
    if |ords| == 1 && ords[0] < |d.kinds| then d.kinds[ords[0]] else KindBytes
  }

  /** The side's index objects stand for the protocol's index states. */
  ghost predicate Live(d: Side)
    reads d.idx
  {
    |d.idx| == |d.t.indexes| == |d.s.idx| && forall k {:trigger d.idx[k]} :: 0 <= k < |d.idx| ==> IndexMatches(d, k)
  }

  ghost predicate IndexMatches(d: Side, k: nat)
    requires k < |d.idx| == |d.t.indexes| == |d.s.idx|
    reads d.idx[k]
  {
    && d.idx[k].Valid() && d.idx[k].View == d.s.idx[k].view
    && d.idx[k].ordered == d.t.indexes[k].ordered && d.idx[k].kind == IndexKind(d, k)
  }

  /** Every index covers a column, and a composite one is ordered. */
  predicate IndexShape(ix: O.IndexDef) {
    |ix.ords| >= 1 && (|ix.ords| > 1 ==> ix.ordered)
  }

  ghost predicate TypedCell(d: Side, row: Row, o: nat)
    requires o < |row| && o < |d.kinds|
  {
    row[o].Kind() == d.kinds[o] || (row[o].Null? && o in d.info.nullable)
  }

  ghost predicate TypedRow(d: Side, pk: Uuid, row: Row) {
    && |row| == |d.kinds| == d.info.width && d.info.pk < d.info.width && row[d.info.pk] == Id(pk)
    && forall o {:trigger TypedCell(d, row, o)} :: 0 <= o < d.info.width ==> TypedCell(d, row, o)
  }

  /** A reachable side: the overlay invariant, and rows as validation on write leaves
      them. No two indexes cover the same columns. */
  ghost predicate ValidSide(d: Side) {
    && O.ValidTable(d.t) && O.Inv(d.t, d.s) && d.info.indexes == d.t.indexes && d.info.width == d.t.width == |d.kinds|
    && (forall k {:trigger d.t.indexes[k]} :: 0 <= k < |d.t.indexes| ==> IndexShape(d.t.indexes[k]))
    && (forall i, j :: 0 <= i < j < |d.t.indexes| ==> d.t.indexes[i].ords != d.t.indexes[j].ords)
    && d.info.pk < d.info.width && d.kinds[d.info.pk] == KindUuid && d.info.pk !in d.info.nullable
    && (forall o :: 0 <= o < |d.kinds| ==> d.kinds[o] != KindNull)
    && (forall pk :: pk in d.s.rows ==> TypedRow(d, pk, d.s.rows[pk]))
  }

  // ---- states with one row ----

  /** The table with one live row, its index entries merged. */
  function OneRow(d: Side, pk: Uuid, row: Row): Side {
    d.(s := O.Rebuilt(d.t, map[pk := row]))
  }

  lemma OneRowValid(d: Side, pk: Uuid, row: Row)
    requires ValidSide(d) && TypedRow(d, pk, row)
    ensures ValidSide(OneRow(d, pk, row)) && forall k :: !O.Overlay(d.t, OneRow(d, pk, row).s, k)
  {
    var d' := OneRow(d, pk, row);
    O.RebuiltInv(d.t, d'.s.rows);
    forall o | 0 <= o < d.info.width ensures TypedCell(d', row, o) { assert TypedCell(d, row, o); }
    assert TypedRow(d', pk, row);
  }

  // ---- the overlay ----

  /** `dirtyPKs`: nothing when the counter is zero, else every listed live row. */
  method DirtyPks(d: Side) returns (out: seq<Uuid>)
    requires O.ValidTable(d.t) && O.Inv(d.t, d.s)
    ensures ListsOverlay(d.t, d.s, out)
  {
    out := [];
    if d.s.readCount == 0 { return; }
    for sh := 0 to d.t.shards
      invariant forall pk :: pk in out <==> pk in d.s.rows && exists i :: 0 <= i < sh && pk in d.s.dirtyRead[i]
    {
      var live := LiveOf(d.s.rows, d.s.dirtyRead[sh]);
      out := out + live;
    }
  }

  method LiveOf(rows: map<Uuid, Row>, pks: seq<Uuid>) returns (out: seq<Uuid>)
    ensures forall pk :: pk in out <==> pk in pks && pk in rows
  {
    out := [];
    for i := 0 to |pks|
      invariant forall pk :: pk in out <==> pk in pks[..i] && pk in rows
    {
      if pks[i] in rows { out := out + [pks[i]]; }
      assert pks[..i + 1] == pks[..i] + [pks[i]];
    }
    assert pks[..|pks|] == pks;
  }
}
