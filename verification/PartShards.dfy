/** One shard of a partitioned table: its arena, and per partition the list of row ids in
    insert order (partition_store.go, store_compact.go). */
module PartShards {
  import opened Wrappers
  import opened Values
  import opened Codec
  import opened Interpreters
  import opened Shards

  const MIN_TAIL_PRUNE: nat := 16

  datatype PShard = PShard(rows: seq<Slot>, tails: map<Uuid, seq<nat>>, tailsDead: map<Uuid, nat>, live: nat, bytes: int)

  const EMPTY_PART: PShard := PShard([], map[], map[], 0, 0)

  /** A table definition with its partition column: a UUID, present in every row, and not
      the primary key. */
  datatype PartDef = PartDef(def: TableDef, ord: nat)

  predicate ValidPartDef(d: PartDef) {
    && ValidDef(d.def) && d.ord < |d.def.columns| && d.ord != PkOrd(d.def.columns)
    && d.def.columns[d.ord].typ == TypeUuid && !d.def.columns[d.ord].nullable
  }

  function RowPart(d: PartDef, row: Row): Uuid
    requires ValidPartDef(d) && RowOf(d.def, row)
  {
    assert ValidValue(d.def.columns[d.ord], row[d.ord]);
    row[d.ord].u
  }

  function Tail(s: PShard, p: Uuid): seq<nat> {
    if p in s.tails then s.tails[p] else []
  }

  function Dead(s: PShard, p: Uuid): nat {
    if p in s.tailsDead then s.tailsDead[p] else 0
  }

  predicate LiveAt(rows: seq<Slot>, i: nat) {
    i < |rows| && rows[i].Some?
  }

  /** The ids whose rows are live, in list order: what a partition scan visits. */
  function LiveIds(rows: seq<Slot>, ids: seq<nat>): seq<nat> {
    if ids == [] then [] else LiveIds(rows, ids[..|ids| - 1]) + if LiveAt(rows, ids[|ids| - 1]) then [ids[|ids| - 1]] else []
  }

  function DeadIn(rows: seq<Slot>, ids: seq<nat>): nat {
    if ids == [] then 0 else DeadIn(rows, ids[..|ids| - 1]) + if LiveAt(rows, ids[|ids| - 1]) then 0 else 1
  }

  predicate Rising(ids: seq<nat>) {
    forall i, j :: 0 <= i < j < |ids| ==> ids[i] < ids[j]
  }

  predicate InPart(d: PartDef, slot: Slot, p: Uuid)
    requires ValidPartDef(d)
  {
    slot.Some? && RowOf(d.def, slot.value) && RowPart(d, slot.value) == p
  }

  // ---- the reference: a partition's rows in insert order ----

  /** Ids of the live rows of `p` among the first `n` slots. */
  function PartIds(d: PartDef, rows: seq<Slot>, p: Uuid, n: nat): seq<nat>
    requires ValidPartDef(d) && n <= |rows|
  {
    if n == 0 then [] else PartIds(d, rows, p, n - 1) + if InPart(d, rows[n - 1], p) then [n - 1] else []
  }

  /** The partition's scan sequence: its live rows in the order they were inserted. */
  function PartRows(d: PartDef, rows: seq<Slot>, p: Uuid): seq<Row>
    requires ValidPartDef(d)
  {
    if rows == [] then []
    else PartRows(d, rows[..|rows| - 1], p) + if InPart(d, rows[|rows| - 1], p) then [rows[|rows| - 1].value] else []
  }

  // ---- the invariant ----

  /** Every id is in the arena, and a live one is a row of the partition. */
  ghost predicate Owned(d: PartDef, rows: seq<Slot>, ids: seq<nat>, p: Uuid)
    requires ValidPartDef(d)
  {
    forall k {:trigger ids[k]} :: 0 <= k < |ids| ==> ids[k] < |rows| && (rows[ids[k]].Some? ==> InPart(d, rows[ids[k]], p))
  }

  /** The list of one partition: rising ids of its own rows, every dead one counted, and
      the dead either few or less than half. */
  ghost predicate TailOk(d: PartDef, s: PShard, p: Uuid)
    requires ValidPartDef(d)
  {
    var ids := Tail(s, p);
    && Rising(ids) && Owned(d, s.rows, ids, p)
    && Dead(s, p) == DeadIn(s.rows, ids)
    && (2 * Dead(s, p) < |ids| || Dead(s, p) < MIN_TAIL_PRUNE)
  }

  /** Every live row is typed and listed under its partition. */
  ghost predicate RowListed(d: PartDef, s: PShard, i: nat)
    requires ValidPartDef(d)
  {
    LiveAt(s.rows, i) ==> RowOf(d.def, s.rows[i].value) && i in Tail(s, RowPart(d, s.rows[i].value))
  }

  ghost predicate PShardOk(d: PartDef, nIdx: nat, s: PShard) {
    && ValidPartDef(d)
    && (forall p {:trigger TailOk(d, s, p)} :: TailOk(d, s, p))
    && (forall i {:trigger RowListed(d, s, i)} :: RowListed(d, s, i))
    && s.live == LiveIn(s.rows) && s.bytes == CostOf(s.rows, nIdx)
  }

  // ---- lists of ids ----

  lemma {:induction false} LiveIdsMembers(rows: seq<Slot>, ids: seq<nat>)
    ensures forall i: nat {:trigger i in LiveIds(rows, ids)} :: i in LiveIds(rows, ids) <==> i in ids && LiveAt(rows, i)
    ensures |LiveIds(rows, ids)| + DeadIn(rows, ids) == |ids|
  {
    if ids != [] {
      var n := |ids| - 1;
      LiveIdsMembers(rows, ids[..n]);
      assert ids == ids[..n] + [ids[n]];
    }
  }

  lemma RisingSnoc(ids: seq<nat>, last: nat)
    requires Rising(ids) && forall i :: 0 <= i < |ids| ==> ids[i] < last
    ensures Rising(ids + [last])
  {}

  lemma {:induction false} LiveIdsRise(rows: seq<Slot>, ids: seq<nat>)
    requires Rising(ids)
    ensures Rising(LiveIds(rows, ids))
  {
    if ids != [] {
      var n := |ids| - 1;
      var before := LiveIds(rows, ids[..n]);
      LiveIdsRise(rows, ids[..n]);
      LiveIdsMembers(rows, ids[..n]);
      forall i | 0 <= i < |before| ensures before[i] < ids[n] {
        assert before[i] in before;
        var k :| 0 <= k < n && ids[..n][k] == before[i];
      }
      RisingSnoc(before, ids[n]);
      assert before + [] == before;
    }
  }

  lemma LiveIdsAre(rows: seq<Slot>, ids: seq<nat>)
    ensures forall i: nat {:trigger i in LiveIds(rows, ids)} :: i in LiveIds(rows, ids) <==> i in ids && LiveAt(rows, i)
    ensures Rising(ids) ==> Rising(LiveIds(rows, ids))
    ensures |LiveIds(rows, ids)| + DeadIn(rows, ids) == |ids|
  {
    LiveIdsMembers(rows, ids);
    if Rising(ids) { LiveIdsRise(rows, ids); }
  }

  lemma {:induction false} PartIdsAre(d: PartDef, rows: seq<Slot>, p: Uuid, n: nat)
    requires ValidPartDef(d) && n <= |rows|
    ensures forall i: nat :: i in PartIds(d, rows, p, n) <==> i < n && InPart(d, rows[i], p)
    ensures Rising(PartIds(d, rows, p, n))
  {
    if n > 0 {
      PartIdsAre(d, rows, p, n - 1);
      var before := PartIds(d, rows, p, n - 1);
      forall i | 0 <= i < |before| ensures before[i] < n - 1 { assert before[i] in before; }
    }
  }

  /** Rising lists with the same members are the same list. */
  lemma {:induction false} RisingIsUnique(a: seq<nat>, b: seq<nat>)
    requires Rising(a) && Rising(b) && forall i: nat :: i in a <==> i in b
    ensures a == b
    decreases |a|
  {
    assert (a != [] ==> a[0] in b) && (b != [] ==> b[0] in b);
    if a != [] {
      LastMember(a, b);
      var m, n := |a| - 1, |b| - 1;
      assert a == a[..m] + [a[m]] && b == b[..n] + [b[n]];
      forall i: nat ensures i in a[..m] <==> i in b[..n] {
        WithoutLast(a, i);
        WithoutLast(b, i);
      }
      RisingIsUnique(a[..m], b[..n]);
    }
  }

  lemma WithoutLast(a: seq<nat>, i: nat)
    requires a != [] && Rising(a)
    ensures i in a[..|a| - 1] <==> i in a && i != a[|a| - 1]
  {
    var m := |a| - 1;
    if i in a[..m] {
      var k :| 0 <= k < m && a[..m][k] == i;
      assert a[k] == i;
    }
    if i in a && i != a[m] {
      var k :| 0 <= k < |a| && a[k] == i;
      assert a[..m][k] == i;
    }
  }

  lemma LastMember(a: seq<nat>, b: seq<nat>)
    requires a != [] && b != [] && Rising(a) && Rising(b) && forall i: nat :: i in a <==> i in b
    ensures a[|a| - 1] == b[|b| - 1]
  {
    var x, y := a[|a| - 1], b[|b| - 1];
    assert x in b && y in a;
    var i :| 0 <= i < |b| && b[i] == x;
    var j :| 0 <= j < |a| && a[j] == y;
  }

  /** A partition's list, dead ids skipped, is exactly its rows in insert order. */
  lemma TailIsPartition(d: PartDef, nIdx: nat, s: PShard, p: Uuid)
    requires PShardOk(d, nIdx, s)
    ensures LiveIds(s.rows, Tail(s, p)) == PartIds(d, s.rows, p, |s.rows|)
  {
    assert TailOk(d, s, p);
    LiveIdsAre(s.rows, Tail(s, p));
    PartIdsAre(d, s.rows, p, |s.rows|);
    var ids := Tail(s, p);
    forall i: nat ensures i in LiveIds(s.rows, ids) <==> i in PartIds(d, s.rows, p, |s.rows|) {
      assert RowListed(d, s, i);
      if i in ids && LiveAt(s.rows, i) {
        var k :| 0 <= k < |ids| && ids[k] == i;
      }
    }
    RisingIsUnique(LiveIds(s.rows, ids), PartIds(d, s.rows, p, |s.rows|));
  }

  /** The rows behind a list of ids. */
  function RowsOf(rows: seq<Slot>, ids: seq<nat>): seq<Row>
    requires forall k :: 0 <= k < |ids| ==> LiveAt(rows, ids[k])
  {
    seq(|ids|, k requires 0 <= k < |ids| && LiveAt(rows, ids[k]) => rows[ids[k]].value)
  }

  lemma {:induction false} PartRowsAre(d: PartDef, rows: seq<Slot>, p: Uuid, n: nat)
    requires ValidPartDef(d) && n <= |rows|
    ensures forall k :: 0 <= k < |PartIds(d, rows, p, n)| ==> LiveAt(rows, PartIds(d, rows, p, n)[k])
    ensures RowsOf(rows, PartIds(d, rows, p, n)) == PartRows(d, rows[..n], p)
  {
    if n > 0 {
      PartRowsAre(d, rows, p, n - 1);
      assert rows[..n][..n - 1] == rows[..n - 1];
      var before := PartIds(d, rows, p, n - 1);
      if InPart(d, rows[n - 1], p) {
        assert RowsOf(rows, before + [n - 1]) == RowsOf(rows, before) + [rows[n - 1].value];
      } else {
        assert before + [] == before;
        assert PartRows(d, rows[..n - 1], p) + [] == PartRows(d, rows[..n - 1], p);
      }
    }
  }

  // ---- scans ----

  /** `scanPartition`: the visited rows, until the visitor has had `quitAt` of them
      (negative: never stops). */
  method ScanPartition(d: PartDef, ghost nIdx: nat, s: PShard, p: Uuid, quitAt: int) returns (out: seq<Row>)
    requires PShardOk(d, nIdx, s) && quitAt != 0
    ensures var all := PartRows(d, s.rows, p);
            out == if 0 < quitAt <= |all| then all[..quitAt] else all
  {
    out := [];
    var ids := Tail(s, p);
    assert TailOk(d, s, p);
    for k := 0 to |ids|
      invariant Visited(s.rows, LiveIds(s.rows, ids[..k]), out)
      invariant quitAt < 0 || |out| < quitAt
    {
      assert ids[..k + 1][..k] == ids[..k];
      if ids[k] >= |s.rows| || s.rows[ids[k]].None? { continue; }
      out := out + [s.rows[ids[k]].value];
      if |out| == quitAt {
        StopIsPrefix(d, nIdx, s, p, k + 1, out);
        return;
      }
    }
    assert ids[..|ids|] == ids;
    FullScan(d, nIdx, s, p, out);
  }

  ghost predicate Visited(rows: seq<Slot>, ids: seq<nat>, out: seq<Row>) {
    |out| == |ids| && forall k :: 0 <= k < |ids| ==> LiveAt(rows, ids[k]) && out[k] == rows[ids[k]].value
  }

  lemma FullScan(d: PartDef, nIdx: nat, s: PShard, p: Uuid, out: seq<Row>)
    requires PShardOk(d, nIdx, s) && Visited(s.rows, LiveIds(s.rows, Tail(s, p)), out)
    ensures out == PartRows(d, s.rows, p)
  {
    TailIsPartition(d, nIdx, s, p);
    PartRowsAre(d, s.rows, p, |s.rows|);
    assert s.rows[..|s.rows|] == s.rows;
    assert out == RowsOf(s.rows, PartIds(d, s.rows, p, |s.rows|));
  }

  lemma {:induction false} LiveIdsPrefix(rows: seq<Slot>, ids: seq<nat>, k: nat)
    requires k <= |ids|
    ensures |LiveIds(rows, ids[..k])| <= |LiveIds(rows, ids)|
    ensures LiveIds(rows, ids)[..|LiveIds(rows, ids[..k])|] == LiveIds(rows, ids[..k])
    decreases |ids| - k
  {
    if k == |ids| {
      assert ids[..k] == ids;
    } else {
      LiveIdsPrefix(rows, ids, k + 1);
      assert ids[..k + 1][..k] == ids[..k];
    }
  }

  lemma StopIsPrefix(d: PartDef, nIdx: nat, s: PShard, p: Uuid, k: nat, out: seq<Row>)
    requires PShardOk(d, nIdx, s) && k <= |Tail(s, p)| && Visited(s.rows, LiveIds(s.rows, Tail(s, p)[..k]), out)
    ensures |out| <= |PartRows(d, s.rows, p)| && out == PartRows(d, s.rows, p)[..|out|]
  {
    var ids := Tail(s, p);
    LiveIdsPrefix(s.rows, ids, k);
    TailIsPartition(d, nIdx, s, p);
    PartRowsAre(d, s.rows, p, |s.rows|);
    assert s.rows[..|s.rows|] == s.rows;
    var all := PartIds(d, s.rows, p, |s.rows|);
    assert PartRows(d, s.rows, p) == RowsOf(s.rows, all);
    forall j | 0 <= j < |out| ensures out[j] == PartRows(d, s.rows, p)[j] {
      assert LiveIds(s.rows, ids[..k])[j] == all[..|out|][j] == all[j];
    }
  }

  function Reversed<T>(s: seq<T>): seq<T> {
    seq(|s|, i requires 0 <= i < |s| => s[|s| - 1 - i])
  }

  lemma ReversedSnoc<T>(s: seq<T>, x: T)
    ensures Reversed(s + [x]) == [x] + Reversed(s)
  {}

  lemma LiveIdsBack(rows: seq<Slot>, ids: seq<nat>, i: nat, rest: seq<nat>)
    requires i < |ids|
    ensures LiveIds(rows, ids[..i + 1]) + rest == LiveIds(rows, ids[..i]) + if LiveAt(rows, ids[i]) then [ids[i]] + rest else rest
  {
    assert ids[..i + 1][..i] == ids[..i];
  }

  lemma VisitedFirst(rows: seq<Slot>, rest: seq<nat>, out: seq<Row>, id: nat)
    requires Visited(rows, rest, Reversed(out)) && LiveAt(rows, id)
    ensures Visited(rows, [id] + rest, Reversed(out + [rows[id].value]))
  {
    ReversedSnoc(out, rows[id].value);
  }

  /** `scanPartitionRev`, run to the end: the same rows, newest first. */
  method ScanPartitionRev(d: PartDef, ghost nIdx: nat, s: PShard, p: Uuid) returns (out: seq<Row>)
    requires PShardOk(d, nIdx, s)
    ensures out == Reversed(PartRows(d, s.rows, p))
  {
    out := VisitBack(s.rows, Tail(s, p));
    FullScan(d, nIdx, s, p, Reversed(out));
    assert Reversed(Reversed(out)) == out;
  }

  /** The list from its end, skipping dead ids. */
  method VisitBack(rows: seq<Slot>, ids: seq<nat>) returns (out: seq<Row>)
    ensures Visited(rows, LiveIds(rows, ids), Reversed(out))
  {
    out := [];
    ghost var rest: seq<nat> := [];
    var i := |ids|;
    assert ids[..i] == ids;
    while i > 0
      invariant 0 <= i <= |ids|
      invariant LiveIds(rows, ids) == LiveIds(rows, ids[..i]) + rest
      invariant Visited(rows, rest, Reversed(out))
    {
      i := i - 1;
      LiveIdsBack(rows, ids, i, rest);
      if ids[i] < |rows| && rows[ids[i]].Some? {
        VisitedFirst(rows, rest, out, ids[i]);
        out := out + [rows[ids[i]].value];
        rest := [ids[i]] + rest;
      }
    }
    assert LiveIds(rows, ids) == rest;
  }

  // ---- inserts ----

  /** The row appended to the arena and to its partition's list. */
  function Appended(s: PShard, p: Uuid, row: Row, cost: int): PShard {
    PShard(s.rows + [Some(row)], s.tails[p := Tail(s, p) + [|s.rows|]], s.tailsDead, s.live + 1, s.bytes + cost)
  }

  lemma {:induction false} DeadInSame(rows: seq<Slot>, rows': seq<Slot>, ids: seq<nat>)
    requires forall k :: 0 <= k < |ids| ==> (LiveAt(rows, ids[k]) <==> LiveAt(rows', ids[k]))
    ensures DeadIn(rows, ids) == DeadIn(rows', ids) && LiveIds(rows, ids) == LiveIds(rows', ids)
  {
    if ids != [] {
      DeadInSame(rows, rows', ids[..|ids| - 1]);
    }
  }

  lemma OwnedAppend(d: PartDef, rows: seq<Slot>, ids: seq<nat>, p: Uuid, slot: Slot)
    requires ValidPartDef(d) && Owned(d, rows, ids, p)
    ensures Owned(d, rows + [slot], ids, p)
    ensures slot.Some? && InPart(d, slot, p) && Rising(ids) ==> Owned(d, rows + [slot], ids + [|rows|], p) && Rising(ids + [|rows|])
  {}

  lemma DeadAppend(d: PartDef, rows: seq<Slot>, ids: seq<nat>, p: Uuid, slot: Slot)
    requires ValidPartDef(d) && Owned(d, rows, ids, p)
    ensures DeadIn(rows + [slot], ids) == DeadIn(rows, ids)
    ensures slot.Some? ==> DeadIn(rows + [slot], ids + [|rows|]) == DeadIn(rows, ids)
  {
    DeadInSame(rows, rows + [slot], ids);
    assert (ids + [|rows|])[..|ids|] == ids;
  }

  lemma AppendKeepsTail(d: PartDef, s: PShard, row: Row, cost: int, q: Uuid)
    requires ValidPartDef(d) && RowOf(d.def, row) && TailOk(d, s, q)
    ensures TailOk(d, Appended(s, RowPart(d, row), row, cost), q)
  {
    OwnedAppend(d, s.rows, Tail(s, q), q, Some(row));
    DeadAppend(d, s.rows, Tail(s, q), q, Some(row));
  }

  lemma AppendKeeps(d: PartDef, nIdx: nat, s: PShard, row: Row)
    requires PShardOk(d, nIdx, s) && RowOf(d.def, row)
    ensures PShardOk(d, nIdx, Appended(s, RowPart(d, row), row, RowCost(row, nIdx)))
  {
    var p := RowPart(d, row);
    var s' := Appended(s, p, row, RowCost(row, nIdx));
    TallyAppend(s.rows, Some(row), nIdx);
    forall q ensures TailOk(d, s', q) {
      assert TailOk(d, s, q);
      AppendKeepsTail(d, s, row, RowCost(row, nIdx), q);
    }
    forall i ensures RowListed(d, s', i) {
      assert RowListed(d, s, i);
      assert Tail(s', p)[|Tail(s, p)|] == |s.rows|;
    }
  }

  /** An insert adds its row at the end of its own partition's sequence only. */
  lemma PartRowsAfterInsert(d: PartDef, rows: seq<Slot>, row: Row, p: Uuid)
    requires ValidPartDef(d) && RowOf(d.def, row)
    ensures PartRows(d, rows + [Some(row)], p) == PartRows(d, rows, p) + if p == RowPart(d, row) then [row] else []
  {
    assert (rows + [Some(row)])[..|rows|] == rows;
  }

  // ---- deletes ----

  /** `tailsTombstone`'s prune test. */
  predicate Prunes(dead: nat, len: nat) {
    2 * dead >= len && len >= MIN_TAIL_PRUNE
  }

  /** What counting one more dead id of `p` does to its list. */
  predicate OneMoreDead(s: PShard, s': PShard, p: Uuid) {
    if Prunes(Dead(s, p) + 1, |Tail(s, p)|) then Tail(s', p) == LiveIds(s'.rows, Tail(s, p)) && Dead(s', p) == 0
    else Tail(s', p) == Tail(s, p) && Dead(s', p) == Dead(s, p) + 1
  }

  /** The filter of a prune: live ids kept, in order. */
  method KeepLive(rows: seq<Slot>, ids: seq<nat>) returns (live: seq<nat>)
    ensures live == LiveIds(rows, ids)
  {
    live := [];
    for k := 0 to |ids|
      invariant live == LiveIds(rows, ids[..k])
    {
      assert ids[..k + 1][..k] == ids[..k];
      if ids[k] < |rows| && rows[ids[k]].Some? { live := live + [ids[k]]; }
    }
    assert ids[..|ids|] == ids;
  }

  /** `tailsTombstone`: one more dead id in the list of `p`; once the dead reach half of a
      list worth pruning, the live ids alone remain. */
  method TailsTombstone(s: PShard, p: Uuid) returns (s': PShard)
    ensures s'.rows == s.rows && s'.live == s.live && s'.bytes == s.bytes
    ensures forall q :: q != p ==> Tail(s', q) == Tail(s, q) && Dead(s', q) == Dead(s, q)
    ensures OneMoreDead(s, s', p)
  {
    var dead := Dead(s, p) + 1;
    var ids := Tail(s, p);
    if dead * 2 < |ids| || |ids| < MIN_TAIL_PRUNE {
      return PShard(s.rows, s.tails, s.tailsDead[p := dead], s.live, s.bytes);
    }
    var live := KeepLive(s.rows, ids);
    if |live| == 0 {
      return PShard(s.rows, s.tails - {p}, s.tailsDead - {p}, s.live, s.bytes);
    }
    return PShard(s.rows, s.tails[p := live], s.tailsDead[p := 0], s.live, s.bytes);
  }

  lemma {:induction false} DeadGrows(rows: seq<Slot>, ids: seq<nat>, i: nat)
    requires LiveAt(rows, i) && Rising(ids)
    ensures DeadIn(rows[i := None], ids) == DeadIn(rows, ids) + if i in ids then 1 else 0
  {
    if ids != [] {
      var n := |ids| - 1;
      DeadGrows(rows, ids[..n], i);
      WithoutLast(ids, i);
    }
  }

  lemma {:induction false} AllLiveIds(rows: seq<Slot>, ids: seq<nat>)
    requires forall k :: 0 <= k < |ids| ==> LiveAt(rows, ids[k])
    ensures DeadIn(rows, ids) == 0 && LiveIds(rows, ids) == ids
  {
    if ids != [] {
      AllLiveIds(rows, ids[..|ids| - 1]);
      assert ids == ids[..|ids| - 1] + [ids[|ids| - 1]];
    }
  }

  /** The list of a partition after one of its rows was tombstoned, pruned or not. */
  lemma TombstonedTail(d: PartDef, s: PShard, i: nat, s': PShard, q: Uuid)
    requires ValidPartDef(d) && LiveAt(s.rows, i) && InPart(d, s.rows[i], q) && TailOk(d, s, q) && i in Tail(s, q)
    requires s'.rows == s.rows[i := None]
    requires OneMoreDead(s, s', q)
    ensures TailOk(d, s', q)
    ensures forall k: nat :: LiveAt(s'.rows, k) && k in Tail(s, q) ==> k in Tail(s', q)
  {
    var ids := Tail(s, q);
    DeadGrows(s.rows, ids, i);
    LiveIdsAre(s'.rows, ids);
    if Prunes(Dead(s, q) + 1, |ids|) {
      var live := LiveIds(s'.rows, ids);
      forall k | 0 <= k < |live| ensures LiveAt(s'.rows, live[k]) && InPart(d, s'.rows[live[k]], q) {
        assert live[k] in live;
        var j :| 0 <= j < |ids| && ids[j] == live[k];
      }
      AllLiveIds(s'.rows, live);
    }
  }

  lemma OtherTail(d: PartDef, s: PShard, i: nat, p: Uuid, s': PShard, q: Uuid)
    requires ValidPartDef(d) && LiveAt(s.rows, i) && InPart(d, s.rows[i], p) && TailOk(d, s, q) && q != p
    requires s'.rows == s.rows[i := None] && Tail(s', q) == Tail(s, q) && Dead(s', q) == Dead(s, q)
    ensures TailOk(d, s', q)
  {
    var ids := Tail(s, q);
    forall k | 0 <= k < |ids| ensures ids[k] != i { assert ids[k] < |s.rows|; }
    DeadInSame(s.rows, s'.rows, ids);
  }

  /** `tombstoneLocked` and `tailsTombstone`: the row leaves its partition's scan sequence,
      every other row stays in it. */
  method DeleteRow(d: PartDef, ghost nIdx: nat, s: PShard, i: nat, cost: nat) returns (s': PShard)
    requires PShardOk(d, nIdx, s) && LiveAt(s.rows, i) && cost == RowCost(s.rows[i].value, nIdx)
    ensures PShardOk(d, nIdx, s') && s'.rows == s.rows[i := None] && s'.bytes == s.bytes - cost
  {
    assert RowListed(d, s, i);
    var p := RowPart(d, s.rows[i].value);
    TallyUpdate(s.rows, i, None, nIdx);
    LiveCounted(s.rows, i);
    var dead := PShard(s.rows[i := None], s.tails, s.tailsDead, s.live - 1, s.bytes - cost);
    s' := TailsTombstone(dead, p);
    DeleteKeeps(d, nIdx, s, i, s');
  }

  lemma LiveCounted(rows: seq<Slot>, i: nat)
    requires LiveAt(rows, i)
    ensures LiveIn(rows) > 0
  {
    TallyUpdate(rows, i, None, 0);
  }

  lemma DeleteKeeps(d: PartDef, nIdx: nat, s: PShard, i: nat, s': PShard)
    requires PShardOk(d, nIdx, s) && LiveAt(s.rows, i) && s'.rows == s.rows[i := None]
    requires RowOf(d.def, s.rows[i].value)
    requires s'.live == LiveIn(s'.rows) && s'.bytes == CostOf(s'.rows, nIdx)
    requires var p := RowPart(d, s.rows[i].value);
             && (forall q :: q != p ==> Tail(s', q) == Tail(s, q) && Dead(s', q) == Dead(s, q))
             && OneMoreDead(s, s', p)
    ensures PShardOk(d, nIdx, s')
  {
    var p := RowPart(d, s.rows[i].value);
    assert RowListed(d, s, i) && TailOk(d, s, p);
    TombstonedTail(d, s, i, s', p);
    forall q ensures TailOk(d, s', q) {
      assert TailOk(d, s, q);
      if q != p { OtherTail(d, s, i, p, s', q); }
    }
    forall k ensures RowListed(d, s', k) { StaysListed(d, s, i, s', p, k); }
  }

  lemma StaysListed(d: PartDef, s: PShard, i: nat, s': PShard, p: Uuid, k: nat)
    requires ValidPartDef(d) && RowListed(d, s, k) && LiveAt(s.rows, i) && s'.rows == s.rows[i := None]
    requires RowOf(d.def, s.rows[i].value) && p == RowPart(d, s.rows[i].value)
    requires forall q :: q != p ==> Tail(s', q) == Tail(s, q)
    requires LiveAt(s'.rows, k) && k in Tail(s, p) ==> k in Tail(s', p)
    ensures RowListed(d, s', k)
  {}

  predicate HasPk(def: TableDef, row: Row, pk: Uuid) {
    ValidDef(def) && RowOf(def, row) && RowPk(def, row) == pk
  }

  /** The sequence without the row of that key. */
  function DroppedFrom(def: TableDef, s: seq<Row>, pk: Uuid): seq<Row> {
    if s == [] then []
    else DroppedFrom(def, s[..|s| - 1], pk) + if HasPk(def, s[|s| - 1], pk) then [] else [s[|s| - 1]]
  }

  /** The sequence with the row of that key replaced in its place. */
  function RewrittenIn(def: TableDef, s: seq<Row>, pk: Uuid, row: Row): seq<Row> {
    seq(|s|, i requires 0 <= i < |s| => if HasPk(def, s[i], pk) then row else s[i])
  }

  /** No live slot but `i` holds that key. */
  ghost predicate OnlyAt(def: TableDef, rows: seq<Slot>, i: int, pk: Uuid) {
    forall j: nat {:trigger LiveAt(rows, j)} :: LiveAt(rows, j) && HasPk(def, rows[j].value, pk) ==> j == i
  }

  lemma OnlyAtInit(def: TableDef, rows: seq<Slot>, i: int, pk: Uuid)
    requires rows != [] && OnlyAt(def, rows, i, pk)
    ensures OnlyAt(def, rows[..|rows| - 1], i, pk)
    ensures i != |rows| - 1 && LiveAt(rows, |rows| - 1) ==> !HasPk(def, rows[|rows| - 1].value, pk)
  {
    var n := |rows| - 1;
    forall j: nat | LiveAt(rows[..n], j) && HasPk(def, rows[..n][j].value, pk) ensures j == i { assert LiveAt(rows, j); }
  }

  /** A tombstone at the row's slot takes the row out of its partition's sequence; every
      other sequence is unchanged. With `i` out of range, nothing is dropped. */
  lemma {:induction false} PartRowsDrop(d: PartDef, rows: seq<Slot>, i: nat, pk: Uuid, q: Uuid)
    requires ValidPartDef(d) && OnlyAt(d.def, rows, i, pk) && (i < |rows| ==> LiveAt(rows, i) && HasPk(d.def, rows[i].value, pk))
    ensures PartRows(d, if i < |rows| then rows[i := None] else rows, q) == DroppedFrom(d.def, PartRows(d, rows, q), pk)
    decreases |rows|
  {
    if rows != [] {
      var n := |rows| - 1;
      OnlyAtInit(d.def, rows, i, pk);
      if i < n {
        PartRowsDrop(d, rows[..n], i, pk, q);
        assert rows[i := None][..n] == rows[..n][i := None];
      } else {
        OnlyElsewhere(d.def, rows[..n], i, pk);
        PartRowsDrop(d, rows[..n], |rows[..n]|, pk, q);
        if i == n { assert rows[i := None][..n] == rows[..n]; }
      }
      DroppedLast(d, rows, pk, q);
    }
  }

  lemma OnlyElsewhere(def: TableDef, rows: seq<Slot>, i: nat, pk: Uuid)
    requires OnlyAt(def, rows, i, pk) && i >= |rows|
    ensures OnlyAt(def, rows, |rows|, pk)
  {}

  lemma DroppedLast(d: PartDef, rows: seq<Slot>, pk: Uuid, q: Uuid)
    requires ValidPartDef(d) && rows != []
    ensures DroppedFrom(d.def, PartRows(d, rows, q), pk)
         == DroppedFrom(d.def, PartRows(d, rows[..|rows| - 1], q), pk)
            + if InPart(d, rows[|rows| - 1], q) && !HasPk(d.def, rows[|rows| - 1].value, pk) then [rows[|rows| - 1].value] else []
  {
    var n := |rows| - 1;
    var before := PartRows(d, rows[..n], q);
    if InPart(d, rows[n], q) {
      assert (before + [rows[n].value])[..|before|] == before;
    } else {
      assert before + [] == before;
    }
  }

  /** A row rewritten in its slot, in the same partition, is replaced in its sequence. */
  lemma {:induction false} PartRowsSet(d: PartDef, rows: seq<Slot>, i: nat, pk: Uuid, row: Row, q: Uuid)
    requires ValidPartDef(d) && OnlyAt(d.def, rows, i, pk) && (i < |rows| ==> LiveAt(rows, i) && HasPk(d.def, rows[i].value, pk))
    requires HasPk(d.def, row, pk) && (i < |rows| ==> RowPart(d, row) == RowPart(d, rows[i].value))
    ensures PartRows(d, if i < |rows| then rows[i := Some(row)] else rows, q) == RewrittenIn(d.def, PartRows(d, rows, q), pk, row)
    decreases |rows|
  {
    if rows != [] {
      var n := |rows| - 1;
      OnlyAtInit(d.def, rows, i, pk);
      if i < n {
        PartRowsSet(d, rows[..n], i, pk, row, q);
        assert rows[i := Some(row)][..n] == rows[..n][i := Some(row)];
      } else {
        OnlyElsewhere(d.def, rows[..n], i, pk);
        PartRowsSet(d, rows[..n], |rows[..n]|, pk, row, q);
        if i == n { assert rows[i := Some(row)][..n] == rows[..n]; }
      }
      RewrittenLast(d, rows, pk, row, q);
    }
  }

  lemma RewrittenLast(d: PartDef, rows: seq<Slot>, pk: Uuid, row: Row, q: Uuid)
    requires ValidPartDef(d) && rows != []
    ensures RewrittenIn(d.def, PartRows(d, rows, q), pk, row)
         == RewrittenIn(d.def, PartRows(d, rows[..|rows| - 1], q), pk, row)
            + if InPart(d, rows[|rows| - 1], q) then [if HasPk(d.def, rows[|rows| - 1].value, pk) then row else rows[|rows| - 1].value] else []
  {}
}
