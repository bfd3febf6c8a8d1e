/** A whole table as its shards, and what it stores: a map from primary key to row
    (store.go). Keys are routed to shards by an uninterpreted hash. */
module TableSpec {
  import opened Wrappers
  import opened Values
  import opened Codec
  import opened Interpreters
  import opened LiveLog
  import opened Shards

  /** What never changes about a table. */
  datatype Layout = Layout(def: TableDef, nIdx: nat, indexed: set<nat>, home: Uuid -> nat)

  /** `shardIdxOf`. */
  function ShardIdx(lay: Layout, n: nat, pk: Uuid): (i: nat)
    requires n > 0
    ensures i < n
  {
    lay.home(pk) % n
  }

  ghost predicate ShardFits(lay: Layout, ss: seq<Shard>, i: nat)
    requires i < |ss|
  {
    ShardOk(lay.def, lay.nIdx, ss[i]) && forall pk {:trigger RowAt(ss[i], pk)} :: RowAt(ss[i], pk).Some? ==> ShardIdx(lay, |ss|, pk) == i
  }

  ghost predicate ShardsOk(lay: Layout, ss: seq<Shard>) {
    |ss| > 0 && forall i {:trigger ShardFits(lay, ss, i)} :: 0 <= i < |ss| ==> ShardFits(lay, ss, i)
  }

  /** The row the table holds under a key. */
  function Lookup(lay: Layout, ss: seq<Shard>, pk: Uuid): Option<Row>
    requires |ss| > 0
  {
    RowAt(ss[ShardIdx(lay, |ss|, pk)], pk)
  }

  function KeysOf(ss: seq<Shard>): set<Uuid> {
    if ss == [] then {} else KeysOf(ss[..|ss| - 1]) + ss[|ss| - 1].pk.Keys
  }

  lemma {:induction false} KeysOfShards(ss: seq<Shard>, pk: Uuid)
    ensures pk in KeysOf(ss) <==> exists i :: 0 <= i < |ss| && pk in ss[i].pk
  {
    if ss != [] {
      KeysOfShards(ss[..|ss| - 1], pk);
      if pk in KeysOf(ss[..|ss| - 1]) {
        var i :| 0 <= i < |ss| - 1 && pk in ss[..|ss| - 1][i].pk;
        assert pk in ss[i].pk;
      }
      if i :| 0 <= i < |ss| && pk in ss[i].pk {
        if i < |ss| - 1 { assert pk in ss[..|ss| - 1][i].pk; }
      }
    }
  }

  /** The table's contents. */
  function Contents(lay: Layout, ss: seq<Shard>): map<Uuid, Row>
    requires |ss| > 0
  {
    map pk | pk in KeysOf(ss) && Lookup(lay, ss, pk).Some? :: Lookup(lay, ss, pk).value
  }

  lemma ContentsAt(lay: Layout, ss: seq<Shard>, pk: Uuid)
    requires |ss| > 0
    ensures pk in Contents(lay, ss) <==> Lookup(lay, ss, pk).Some?
    ensures pk in Contents(lay, ss) ==> Lookup(lay, ss, pk) == Some(Contents(lay, ss)[pk])
  {
    KeysOfShards(ss, pk);
    if Lookup(lay, ss, pk).Some? {
      assert pk in ss[ShardIdx(lay, |ss|, pk)].pk;
    }
  }

  /** Every stored row fits the schema under its own key. */
  lemma ContentsTyped(lay: Layout, ss: seq<Shard>)
    requires ShardsOk(lay, ss)
    ensures TableOk(MemTable(lay.def, Contents(lay, ss)))
  {
    assert ShardFits(lay, ss, 0);
    forall pk | pk in Contents(lay, ss)
      ensures RowOf(lay.def, Contents(lay, ss)[pk]) && RowPk(lay.def, Contents(lay, ss)[pk]) == pk
    {
      ContentsAt(lay, ss, pk);
      var i := ShardIdx(lay, |ss|, pk);
      assert ShardFits(lay, ss, i) && KeyFound(lay.def, ss[i], pk);
    }
  }

  function BytesOf(ss: seq<Shard>): int {
    if ss == [] then 0 else BytesOf(ss[..|ss| - 1]) + ss[|ss| - 1].bytes
  }

  lemma {:induction false} BytesChange(ss: seq<Shard>, i: nat, s: Shard)
    requires i < |ss|
    ensures BytesOf(ss[i := s]) == BytesOf(ss) - ss[i].bytes + s.bytes
    decreases |ss|
  {
    var n := |ss| - 1;
    if i == n {
      assert ss[i := s][..n] == ss[..n];
    } else {
      assert ss[i := s][..n] == ss[..n][i := s];
      BytesChange(ss[..n], i, s);
    }
  }

  /** What every row of the table costs, summed. */
  ghost function TotalCost(ss: seq<Shard>, nIdx: nat): nat {
    if ss == [] then 0 else TotalCost(ss[..|ss| - 1], nIdx) + CostOf(ss[|ss| - 1].rows, nIdx)
  }

  /** The running tallies add up to the cost of the live rows. */
  lemma {:induction false} TalliesAreCosts(lay: Layout, ss: seq<Shard>, n: nat)
    requires ShardsOk(lay, ss) && n <= |ss|
    ensures BytesOf(ss[..n]) == TotalCost(ss[..n], lay.nIdx)
  {
    if n > 0 {
      assert ss[..n][..n - 1] == ss[..n - 1];
      assert ShardFits(lay, ss, n - 1);
      TalliesAreCosts(lay, ss, n - 1);
    }
  }

  // ---- one shard changes ----

  /** One shard is replaced by one that differs only under `pk`: so does the table. */
  lemma ShardChanges(lay: Layout, ss: seq<Shard>, pk: Uuid, s: Shard)
    requires ShardsOk(lay, ss) && ShardOk(lay.def, lay.nIdx, s)
    requires forall k :: k != pk ==> RowAt(s, k) == RowAt(ss[ShardIdx(lay, |ss|, pk)], k)
    ensures var ss' := ss[ShardIdx(lay, |ss|, pk) := s];
            && ShardsOk(lay, ss')
            && Contents(lay, ss')
               == if RowAt(s, pk).Some? then Contents(lay, ss)[pk := RowAt(s, pk).value] else Contents(lay, ss) - {pk}
  {
    var i := ShardIdx(lay, |ss|, pk);
    var ss' := ss[i := s];
    forall j | 0 <= j < |ss'| ensures ShardFits(lay, ss', j) {
      assert ShardFits(lay, ss, j);
      forall k | RowAt(ss'[j], k).Some? ensures ShardIdx(lay, |ss'|, k) == j {
        if j == i && k != pk { assert RowAt(ss[i], k).Some?; }
      }
    }
    var want := if RowAt(s, pk).Some? then Contents(lay, ss)[pk := RowAt(s, pk).value] else Contents(lay, ss) - {pk};
    forall k ensures (k in Contents(lay, ss') <==> k in want) && (k in want ==> Contents(lay, ss')[k] == want[k]) {
      ContentsAt(lay, ss, k);
      ContentsAt(lay, ss', k);
    }
    assert Contents(lay, ss') == want;
  }

  /** A shard replaced by one with the same rows (marks added, arena compacted). */
  lemma ShardKeeps(lay: Layout, ss: seq<Shard>, i: nat, s: Shard)
    requires ShardsOk(lay, ss) && i < |ss| && ShardOk(lay.def, lay.nIdx, s)
    requires forall k :: RowAt(s, k) == RowAt(ss[i], k)
    ensures ShardsOk(lay, ss[i := s]) && Contents(lay, ss[i := s]) == Contents(lay, ss)
  {
    var ss' := ss[i := s];
    forall j | 0 <= j < |ss'| ensures ShardFits(lay, ss', j) {
      assert ShardFits(lay, ss, j);
      forall k | RowAt(ss'[j], k).Some? ensures ShardIdx(lay, |ss'|, k) == j { assert RowAt(ss[j], k).Some?; }
    }
    forall k ensures (k in Contents(lay, ss') <==> k in Contents(lay, ss))
                  && (k in Contents(lay, ss) ==> Contents(lay, ss')[k] == Contents(lay, ss)[k]) {
      ContentsAt(lay, ss, k);
      ContentsAt(lay, ss', k);
    }
  }

  // ---- the store's row operations on the whole table ----

  function WithRow(lay: Layout, ss: seq<Shard>, row: Row): seq<Shard>
    requires |ss| > 0 && ValidDef(lay.def) && RowOf(lay.def, row)
  {
    var pk := RowPk(lay.def, row);
    var i := ShardIdx(lay, |ss|, pk);
    ss[i := Marked(lay, AddRow(ss[i], pk, row, RowCost(row, lay.nIdx)), pk, true)]
  }

  /** `markDirtyLocked`: only tables with secondary indexes keep an overlay. */
  function Marked(lay: Layout, s: Shard, pk: Uuid, touch: bool): Shard {
    if touch && lay.nIdx > 0 then MarkRead(s, pk) else s
  }

  function MarkedDel(lay: Layout, s: Shard, pk: Uuid): Shard {
    if lay.nIdx > 0 then MarkDel(s, pk) else s
  }

  /** `updateTouchesIndex`. */
  predicate Touches(lay: Layout, ords: seq<nat>) {
    exists i :: 0 <= i < |ords| && ords[i] in lay.indexed
  }

  lemma WithRowInserts(lay: Layout, ss: seq<Shard>, row: Row)
    requires ShardsOk(lay, ss) && ValidDef(lay.def) && RowOf(lay.def, row) && RowPk(lay.def, row) !in Contents(lay, ss)
    ensures var ss' := WithRow(lay, ss, row);
            && ShardsOk(lay, ss') && Contents(lay, ss') == Contents(lay, ss)[RowPk(lay.def, row) := row]
            && BytesOf(ss') == BytesOf(ss) + RowCost(row, lay.nIdx)
  {
    var pk := RowPk(lay.def, row);
    var i := ShardIdx(lay, |ss|, pk);
    ContentsAt(lay, ss, pk);
    assert ShardFits(lay, ss, i) && KeyFound(lay.def, ss[i], pk);
    AddRowKeeps(lay.def, lay.nIdx, ss[i], row);
    var s := AddRow(ss[i], pk, row, RowCost(row, lay.nIdx));
    MarksKeep(lay.def, lay.nIdx, s, pk);
    ShardChanges(lay, ss, pk, Marked(lay, s, pk, true));
    BytesChange(ss, i, Marked(lay, s, pk, true));
  }

  /** The row under `pk` overwritten in place. */
  function Overwritten(lay: Layout, ss: seq<Shard>, pk: Uuid, row: Row, delta: int, touch: bool): seq<Shard>
    requires |ss| > 0 && Lookup(lay, ss, pk).Some?
  {
    var i := ShardIdx(lay, |ss|, pk);
    ss[i := Marked(lay, PutAt(ss[i], ss[i].pk[pk], row, delta), pk, touch)]
  }

  lemma OverwriteUpdates(lay: Layout, ss: seq<Shard>, pk: Uuid, row: Row, touch: bool)
    requires ShardsOk(lay, ss) && Lookup(lay, ss, pk).Some?
    requires ValidDef(lay.def) && RowOf(lay.def, row) && RowPk(lay.def, row) == pk
    ensures var delta := RowCost(row, lay.nIdx) - RowCost(Lookup(lay, ss, pk).value, lay.nIdx);
            var ss' := Overwritten(lay, ss, pk, row, delta, touch);
            && ShardsOk(lay, ss') && Contents(lay, ss') == Contents(lay, ss)[pk := row] && BytesOf(ss') == BytesOf(ss) + delta
  {
    var i := ShardIdx(lay, |ss|, pk);
    assert ShardFits(lay, ss, i);
    PutAtKeeps(lay.def, lay.nIdx, ss[i], pk, row);
    var delta := RowCost(row, lay.nIdx) - RowCost(Lookup(lay, ss, pk).value, lay.nIdx);
    var s := PutAt(ss[i], ss[i].pk[pk], row, delta);
    MarksKeep(lay.def, lay.nIdx, s, pk);
    ShardChanges(lay, ss, pk, Marked(lay, s, pk, touch));
    BytesChange(ss, i, Marked(lay, s, pk, touch));
  }

  function WithoutRow(lay: Layout, ss: seq<Shard>, pk: Uuid): seq<Shard>
    requires |ss| > 0 && Lookup(lay, ss, pk).Some? && ss[ShardIdx(lay, |ss|, pk)].live > 0
  {
    var i := ShardIdx(lay, |ss|, pk);
    ss[i := MarkedDel(lay, RemoveAt(ss[i], ss[i].pk[pk], pk, RowCost(Lookup(lay, ss, pk).value, lay.nIdx)), pk)]
  }

  lemma WithoutRowRemoves(lay: Layout, ss: seq<Shard>, pk: Uuid)
    requires ShardsOk(lay, ss) && Lookup(lay, ss, pk).Some?
    ensures ss[ShardIdx(lay, |ss|, pk)].live > 0
    ensures var ss' := WithoutRow(lay, ss, pk);
            && ShardsOk(lay, ss') && Contents(lay, ss') == Contents(lay, ss) - {pk}
            && BytesOf(ss') == BytesOf(ss) - RowCost(Lookup(lay, ss, pk).value, lay.nIdx)
  {
    var i := ShardIdx(lay, |ss|, pk);
    assert ShardFits(lay, ss, i);
    RemoveAtKeeps(lay.def, lay.nIdx, ss[i], pk);
    var s := RemoveAt(ss[i], ss[i].pk[pk], pk, RowCost(Lookup(lay, ss, pk).value, lay.nIdx));
    MarksKeep(lay.def, lay.nIdx, s, pk);
    ShardChanges(lay, ss, pk, MarkedDel(lay, s, pk));
    BytesChange(ss, i, MarkedDel(lay, s, pk));
  }

  // ---- the marks of writes ----

  /** The dirty lists of every shard, and the table's counter of read marks. */
  datatype Marks = Marks(read: seq<seq<Uuid>>, del: seq<seq<Uuid>>, count: int)

  function MarksOf(ss: seq<Shard>, count: int): (m: Marks)
    ensures |m.read| == |m.del| == |ss|
  {
    Marks(seq(|ss|, i requires 0 <= i < |ss| => ss[i].dirtyRead), seq(|ss|, i requires 0 <= i < |ss| => ss[i].dirtyDel), count)
  }

  /** `markDirtyLocked`: only a table with secondary indexes keeps marks. */
  function WithRead(lay: Layout, m: Marks, pk: Uuid): Marks {
    if lay.nIdx == 0 || m.read == [] then m
    else
      var i := ShardIdx(lay, |m.read|, pk);
      Marks(m.read[i := m.read[i] + [pk]], m.del, m.count + 1)
  }

  /** `markDelDirtyLocked`. */
  function WithDel(lay: Layout, m: Marks, pk: Uuid): Marks {
    if lay.nIdx == 0 || m.del == [] then m
    else
      var i := ShardIdx(lay, |m.del|, pk);
      Marks(m.read, m.del[i := m.del[i] + [pk]], m.count)
  }

  /** An insert and an update of an indexed column list the row dirty, a delete lists it for
      clean-up. */
  function MarkAct(lay: Layout, m: Marks, act: Act): Marks
    requires ValidDef(lay.def)
  {
    match act
    case PutRow(row) => if RowOf(lay.def, row) then WithRead(lay, m, RowPk(lay.def, row)) else m
    case SetRow(pk, ords, _) => if Touches(lay, ords) then WithRead(lay, m, pk) else m
    case DropRow(pk) => WithDel(lay, m, pk)
  }

  function MarkActs(lay: Layout, m: Marks, acts: seq<Act>): Marks
    requires ValidDef(lay.def)
  {
    if acts == [] then m else MarkAct(lay, MarkActs(lay, m, acts[..|acts| - 1]), acts[|acts| - 1])
  }

  lemma MarkActsSnoc(lay: Layout, m: Marks, acts: seq<Act>, act: Act)
    requires ValidDef(lay.def)
    ensures MarkActs(lay, m, acts + [act]) == MarkAct(lay, MarkActs(lay, m, acts), act)
  {
    assert (acts + [act])[..|acts|] == acts;
  }

  function MarkCount(lay: Layout, touch: bool): nat {
    if touch && lay.nIdx > 0 then 1 else 0
  }

  /** One shard marked for a row it routes. */
  lemma ReadMarked(lay: Layout, ss: seq<Shard>, count: int, pk: Uuid, s: Shard, touch: bool)
    requires |ss| > 0 && s.dirtyRead == ss[ShardIdx(lay, |ss|, pk)].dirtyRead && s.dirtyDel == ss[ShardIdx(lay, |ss|, pk)].dirtyDel
    ensures MarksOf(ss[ShardIdx(lay, |ss|, pk) := Marked(lay, s, pk, touch)], count + MarkCount(lay, touch))
         == if touch then WithRead(lay, MarksOf(ss, count), pk) else MarksOf(ss, count)
  {
    var i, m := ShardIdx(lay, |ss|, pk), MarksOf(ss, count);
    var m' := MarksOf(ss[i := Marked(lay, s, pk, touch)], count + MarkCount(lay, touch));
    assert m'.read == (if touch then WithRead(lay, m, pk) else m).read;
    assert m'.del == m.del;
  }

  lemma DelMarked(lay: Layout, ss: seq<Shard>, count: int, pk: Uuid, s: Shard)
    requires |ss| > 0 && s.dirtyRead == ss[ShardIdx(lay, |ss|, pk)].dirtyRead && s.dirtyDel == ss[ShardIdx(lay, |ss|, pk)].dirtyDel
    ensures MarksOf(ss[ShardIdx(lay, |ss|, pk) := MarkedDel(lay, s, pk)], count) == WithDel(lay, MarksOf(ss, count), pk)
  {
    var i, m := ShardIdx(lay, |ss|, pk), MarksOf(ss, count);
    var m' := MarksOf(ss[i := MarkedDel(lay, s, pk)], count);
    assert m'.read == m.read && m'.del == WithDel(lay, m, pk).del;
  }
}
