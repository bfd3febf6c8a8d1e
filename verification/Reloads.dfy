/** Loading stored rows back under the byte cap: which stores reopen (recover_sqlite.go,
    store_write.go, budget.go). */
module Reloads {
  import opened Sequences
  import opened Values
  import opened Codec
  import opened Interpreters
  import opened Shards
  import opened TableSpec
  import opened Tables
  import opened Budgets

  function Costs(rows: seq<Row>, nIdx: nat): seq<nat> {
    seq(|rows|, i requires 0 <= i < |rows| => RowCost(rows[i], nIdx))
  }

  ghost predicate AllOf(def: TableDef, rows: seq<Row>) {
    ValidDef(def) && forall i :: 0 <= i < |rows| ==> RowOf(def, rows[i])
  }

  /** Every row has a key of its own, and none that is stored already. */
  ghost predicate NewKeys(def: TableDef, m: map<Uuid, Row>, rows: seq<Row>)
    requires AllOf(def, rows)
  {
    && (forall i :: 0 <= i < |rows| ==> RowPk(def, rows[i]) !in m)
    && forall i, j :: 0 <= i < j < |rows| ==> RowPk(def, rows[i]) != RowPk(def, rows[j])
  }

  function PutAll(def: TableDef, m: map<Uuid, Row>, rows: seq<Row>): map<Uuid, Row>
    requires AllOf(def, rows)
  {
    if rows == [] then m
    else
      var last := |rows| - 1;
      PutAll(def, m, rows[..last])[RowPk(def, rows[last]) := rows[last]]
  }

  lemma {:induction false} PutAllKeys(def: TableDef, m: map<Uuid, Row>, rows: seq<Row>, pk: Uuid)
    requires AllOf(def, rows)
    ensures pk in PutAll(def, m, rows) <==> pk in m || exists i :: 0 <= i < |rows| && RowPk(def, rows[i]) == pk
  {
    if rows != [] {
      var last := |rows| - 1;
      PutAllKeys(def, m, rows[..last], pk);
      forall i | 0 <= i < last ensures rows[..last][i] == rows[i] {}
    }
  }

  lemma PutNext(def: TableDef, m: map<Uuid, Row>, rows: seq<Row>, n: nat)
    requires AllOf(def, rows) && NewKeys(def, m, rows) && n < |rows|
    ensures AllOf(def, rows[..n]) && AllOf(def, rows[..n + 1]) && RowPk(def, rows[n]) !in PutAll(def, m, rows[..n])
    ensures PutAll(def, m, rows[..n + 1]) == PutAll(def, m, rows[..n])[RowPk(def, rows[n]) := rows[n]]
  {
    assert rows[..n + 1][..n] == rows[..n];
    PutAllKeys(def, m, rows[..n], RowPk(def, rows[n]));
  }

  /** `insert`: the boot path, which neither journals nor marks. */
  method InsertBoot(t: Table, row: Row) returns (out: Outcome)
    requires t.Valid() && RowOf(t.lay.def, row)
    modifies t`shards, t.budget
    ensures t.Valid() && out in {Done, Duplicate, NoCapacity}
    ensures out == Duplicate <==> RowPk(t.lay.def, row) in old(t.Rows())
    ensures var after := old(t.budget.total) + RowCost(row, t.lay.nIdx);
            && (out == NoCapacity <==> out != Duplicate && t.budget.max != 0 && after > t.budget.max)
            && t.budget.total == if out == Done && t.budget.max != 0 then after else old(t.budget.total)
    ensures t.Rows() == if out == Done then old(t.Rows())[RowPk(t.lay.def, row) := row] else old(t.Rows())
  {
    var pk := RowPk(t.lay.def, row);
    ContentsAt(t.lay, t.shards, pk);
    var i := ShardIdx(t.lay, |t.shards|, pk);
    assert ShardFits(t.lay, t.shards, i) && KeyFound(t.lay.def, t.shards[i], pk);
    if pk in t.shards[i].pk { return Duplicate; }
    var cost := RowCost(row, t.lay.nIdx);
    var ok := t.budget.Reserve(cost);
    if !ok { return NoCapacity; }
    AddRowKeeps(t.lay.def, t.lay.nIdx, t.shards[i], row);
    ShardChanges(t.lay, t.shards, pk, AddRow(t.shards[i], pk, row, cost));
    t.shards := t.shards[i := AddRow(t.shards[i], pk, row, cost)];
    return Done;
  }

  /** The first `n` rows are stored beside what was there. */
  ghost predicate Stored(def: TableDef, m: map<Uuid, Row>, rows: seq<Row>, n: nat, now: map<Uuid, Row>)
    requires AllOf(def, rows) && n <= |rows|
  {
    now == PutAll(def, m, rows[..n])
  }

  /** Whether the rows from `n` on load decides whether all do. */
  ghost predicate StillLoads(max: nat, before: int, rows: seq<Row>, nIdx: nat, n: nat, total: int)
    requires n <= |rows|
  {
    && before >= 0 && (max != 0 ==> total >= 0)
    && (Loads(max, before, Costs(rows, nIdx)) <==> Loads(max, if max == 0 then 0 else total, Costs(rows[n..], nIdx)))
  }

  lemma LoadsNext(max: nat, before: int, rows: seq<Row>, nIdx: nat, n: nat, total: int)
    requires n < |rows| && StillLoads(max, before, rows, nIdx, n, total)
    ensures var after := total + RowCost(rows[n], nIdx);
            if max == 0 then StillLoads(max, before, rows, nIdx, n + 1, total)
            else if after <= max then StillLoads(max, before, rows, nIdx, n + 1, after)
            else !Loads(max, before, Costs(rows, nIdx))
  {
    assert Costs(rows[n..], nIdx)[1..] == Costs(rows[n + 1..], nIdx);
    if max == 0 {
      UnlimitedLoads(before, Costs(rows, nIdx));
      UnlimitedLoads(0, Costs(rows[n + 1..], nIdx));
    }
  }

  /** The rows of one mirror table inserted one after another: all of them, or refused at the
      first that does not fit the cap. */
  method LoadRows(t: Table, rows: seq<Row>) returns (out: Outcome)
    requires t.Valid() && t.budget.total >= 0 && AllOf(t.lay.def, rows) && NewKeys(t.lay.def, t.Rows(), rows)
    modifies t`shards, t.budget
    ensures t.Valid() && out in {Done, NoCapacity}
    ensures out == Done <==> Loads(t.budget.max, old(t.budget.total), Costs(rows, t.lay.nIdx))
    ensures out == Done ==> t.Rows() == PutAll(t.lay.def, old(t.Rows()), rows)
  {
    ghost var m, before := t.Rows(), t.budget.total;
    NothingLoaded(t.budget.max, before, rows, t.lay.nIdx);
    for i := 0 to |rows|
      invariant t.Valid() && Stored(t.lay.def, m, rows, i, t.Rows())
      invariant StillLoads(t.budget.max, before, rows, t.lay.nIdx, i, t.budget.total)
    {
      out := LoadNext(t, m, before, rows, i);
      if out == NoCapacity { return; }
    }
    assert rows[..|rows|] == rows && rows[|rows|..] == [];
    out := Done;
  }

  lemma NothingLoaded(max: nat, before: nat, rows: seq<Row>, nIdx: nat)
    ensures rows[..0] == [] && StillLoads(max, before, rows, nIdx, 0, before)
  {
    assert rows[0..] == rows;
    if max == 0 {
      UnlimitedLoads(before, Costs(rows, nIdx));
      UnlimitedLoads(0, Costs(rows, nIdx));
    }
  }

  method LoadNext(t: Table, ghost m: map<Uuid, Row>, ghost before: int, rows: seq<Row>, i: nat) returns (out: Outcome)
    requires t.Valid() && i < |rows| && AllOf(t.lay.def, rows) && NewKeys(t.lay.def, m, rows)
    requires Stored(t.lay.def, m, rows, i, t.Rows()) && StillLoads(t.budget.max, before, rows, t.lay.nIdx, i, t.budget.total)
    modifies t`shards, t.budget
    ensures t.Valid() && out in {Done, NoCapacity}
    ensures out == Done ==>
              && Stored(t.lay.def, m, rows, i + 1, t.Rows())
              && StillLoads(t.budget.max, before, rows, t.lay.nIdx, i + 1, t.budget.total)
    ensures out == NoCapacity ==> !Loads(t.budget.max, before, Costs(rows, t.lay.nIdx))
  {
    PutNext(t.lay.def, m, rows, i);
    LoadsNext(t.budget.max, before, rows, t.lay.nIdx, i, t.budget.total);
    out := InsertBoot(t, rows[i]);
  }

  // ---- reopening what was stored ----

  /** The live rows of a table, shard by shard. */
  function AllRows(ss: seq<Shard>): seq<Row> {
    if ss == [] then [] else AllRows(ss[..|ss| - 1]) + LiveRows(ss[|ss| - 1].rows)
  }

  lemma {:induction false} TotalConcat(a: seq<nat>, b: seq<nat>)
    ensures Total(a + b) == Total(a) + Total(b)
  {
    if a == [] {
      assert a + b == b;
    } else {
      assert (a + b)[1..] == a[1..] + b;
      TotalConcat(a[1..], b);
    }
  }

  lemma TotalRows(a: seq<Row>, b: seq<Row>, nIdx: nat)
    ensures Total(Costs(a + b, nIdx)) == Total(Costs(a, nIdx)) + Total(Costs(b, nIdx))
  {
    assert Costs(a + b, nIdx) == Costs(a, nIdx) + Costs(b, nIdx);
    TotalConcat(Costs(a, nIdx), Costs(b, nIdx));
  }

  lemma {:induction false} LiveRowsCost(rows: seq<Slot>, nIdx: nat)
    ensures Total(Costs(LiveRows(rows), nIdx)) == CostOf(rows, nIdx)
  {
    if rows != [] {
      var n := |rows| - 1;
      LiveRowsCost(rows[..n], nIdx);
      if rows[n].Some? {
        TotalRows(LiveRows(rows[..n]), [rows[n].value], nIdx);
        assert Costs([rows[n].value], nIdx) == [RowCost(rows[n].value, nIdx)];
      } else {
        assert LiveRows(rows[..n]) + [] == LiveRows(rows[..n]);
      }
    }
  }

  lemma {:induction false} AllRowsCost(ss: seq<Shard>, nIdx: nat)
    ensures Total(Costs(AllRows(ss), nIdx)) == TotalCost(ss, nIdx)
  {
    if ss != [] {
      var n := |ss| - 1;
      AllRowsCost(ss[..n], nIdx);
      LiveRowsCost(ss[n].rows, nIdx);
      TotalRows(AllRows(ss[..n]), LiveRows(ss[n].rows), nIdx);
    }
  }

  /** The order rows are read back in does not matter. */
  lemma {:induction false} CostsPermute(a: seq<Row>, b: seq<Row>, nIdx: nat)
    requires multiset(a) == multiset(b)
    ensures Total(Costs(a, nIdx)) == Total(Costs(b, nIdx))
    decreases |a|
  {
    SameSize(a, b);
    if a != [] {
      var i := HeadIsSomewhere(a, b);
      CostsPermute(a[1..], b[..i] + b[i + 1..], nIdx);
      assert a == [a[0]] + a[1..] && b == b[..i] + ([b[i]] + b[i + 1..]);
      TotalRows([a[0]], a[1..], nIdx);
      TotalRows(b[..i], [b[i]] + b[i + 1..], nIdx);
      TotalRows([b[i]], b[i + 1..], nIdx);
      TotalRows(b[..i], b[i + 1..], nIdx);
    }
  }

  /** The rows a table holds load under a cap, in whatever order the mirror returns them, if
      and only if the table's byte tally is within it. */
  lemma ReloadsIffWithinCap(lay: Layout, ss: seq<Shard>, rows: seq<Row>, max: nat)
    requires ShardsOk(lay, ss) && multiset(rows) == multiset(AllRows(ss)) && max != 0
    ensures Loads(max, 0, Costs(rows, lay.nIdx)) <==> BytesOf(ss) <= max
  {
    LoadsIffFits(max, 0, Costs(rows, lay.nIdx));
    CostsPermute(rows, AllRows(ss), lay.nIdx);
    AllRowsCost(ss, lay.nIdx);
    TalliesAreCosts(lay, ss, |ss|);
    assert ss[..|ss|] == ss;
  }
}
