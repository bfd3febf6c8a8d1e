/** Arena compaction of non-partitioned shards, and the batched scan that stays exact
    across it (store_compact.go, compact.go, store_read.go). */
module Compaction {
  import opened Wrappers
  import opened Sequences
  import opened Values
  import opened Codec
  import opened Interpreters
  import opened Shards
  import opened TableSpec
  import opened TableScans
  import opened Tables

  /** What the rebuild has moved out of the first `j` slots. */
  ghost predicate Rebuilt(def: TableDef, nIdx: nat, s: Shard, j: nat, rows: seq<Slot>, pk: map<Uuid, nat>)
    requires ValidDef(def) && j <= |s.rows|
  {
    && rows == AllLive(LiveRows(s.rows[..j]))
    && LiveIn(rows) == LiveIn(s.rows[..j]) == |rows| && CostOf(rows, nIdx) == CostOf(s.rows[..j], nIdx)
    && (forall k {:trigger MovedKey(def, s, j, rows, pk, k)} :: MovedKey(def, s, j, rows, pk, k))
    && forall i {:trigger MovedSlot(def, rows, pk, i)} :: MovedSlot(def, rows, pk, i)
  }

  ghost predicate MovedKey(def: TableDef, s: Shard, j: nat, rows: seq<Slot>, pk: map<Uuid, nat>, k: Uuid)
    requires ValidDef(def)
  {
    && (k in pk <==> k in s.pk && s.pk[k] < j)
    && (k in pk ==> pk[k] < |rows| && rows[pk[k]].Some? && rows[pk[k]] == RowAt(s, k))
  }

  ghost predicate MovedSlot(def: TableDef, rows: seq<Slot>, pk: map<Uuid, nat>, i: nat)
    requires ValidDef(def)
  {
    i < |rows| ==> rows[i].Some? && RowOf(def, rows[i].value) && RowPk(def, rows[i].value) in pk && pk[RowPk(def, rows[i].value)] == i
  }

  lemma DeadSlotStep(def: TableDef, nIdx: nat, s: Shard, j: nat, rows: seq<Slot>, pk: map<Uuid, nat>)
    requires ShardOk(def, nIdx, s) && j < |s.rows| && Rebuilt(def, nIdx, s, j, rows, pk) && s.rows[j].None?
    ensures Rebuilt(def, nIdx, s, j + 1, rows, pk)
  {
    PrefixGrows(s.rows, j, nIdx);
    assert LiveRows(s.rows[..j]) + [] == LiveRows(s.rows[..j]);
    var n := j + 1;
    forall k ensures MovedKey(def, s, n, rows, pk, k) { assert MovedKey(def, s, j, rows, pk, k) && KeyFound(def, s, k); }
  }

  lemma LiveSlotStep(def: TableDef, nIdx: nat, s: Shard, j: nat, rows: seq<Slot>, pk: map<Uuid, nat>)
    requires ShardOk(def, nIdx, s) && j < |s.rows| && Rebuilt(def, nIdx, s, j, rows, pk) && s.rows[j].Some?
    ensures RowOf(def, s.rows[j].value)
    ensures Rebuilt(def, nIdx, s, j + 1, rows + [s.rows[j]], pk[RowPk(def, s.rows[j].value) := |rows|])
  {
    assert SlotFound(def, s, j);
    var row, n := s.rows[j].value, j + 1;
    var rows', pk' := rows + [s.rows[j]], pk[RowPk(def, row) := |rows|];
    PrefixGrows(s.rows, j, nIdx);
    TallyAppend(rows, s.rows[j], nIdx);
    AllLiveSnoc(LiveRows(s.rows[..j]), row);
    forall k ensures MovedKey(def, s, n, rows', pk', k) {
      assert MovedKey(def, s, j, rows, pk, k) && KeyFound(def, s, k);
    }
    forall i ensures MovedSlot(def, rows', pk', i) {
      assert MovedSlot(def, rows, pk, i) && MovedKey(def, s, j, rows, pk, RowPk(def, row));
    }
  }

  lemma {:induction false} LiveRowsOfAllLive(rs: seq<Row>)
    ensures LiveRows(AllLive(rs)) == rs
  {
    if rs != [] {
      var n := |rs| - 1;
      assert AllLive(rs)[..n] == AllLive(rs[..n]);
      LiveRowsOfAllLive(rs[..n]);
      assert rs == rs[..n] + [rs[n]];
    }
  }

  /** One compaction: the live rows in their order, and nothing else of the shard changed. */
  ghost predicate Compacted(def: TableDef, nIdx: nat, s: Shard, s': Shard) {
    && ShardOk(def, nIdx, s) && ShardOk(def, nIdx, s') && s'.rows == AllLive(LiveRows(s.rows))
    && s'.live == s.live && s'.bytes == s.bytes && s'.dirtyRead == s.dirtyRead && s'.dirtyDel == s.dirtyDel
  }

  lemma {:induction false} LiveRowsMembers(rows: seq<Slot>, r: Row)
    ensures r in LiveRows(rows) <==> Some(r) in rows
  {
    if rows != [] {
      var n := |rows| - 1;
      LiveRowsMembers(rows[..n], r);
      assert rows == rows[..n] + [rows[n]];
    }
  }

  /** Two well-formed shards with the same live rows find the same rows. */
  lemma SameRowsFound(def: TableDef, nIdx: nat, s: Shard, s': Shard, pk: Uuid)
    requires ShardOk(def, nIdx, s) && ShardOk(def, nIdx, s') && forall r: Row :: Some(r) in s.rows ==> Some(r) in s'.rows
    ensures RowAt(s, pk).Some? ==> RowAt(s', pk) == RowAt(s, pk)
  {
    if RowAt(s, pk).Some? {
      assert KeyFound(def, s, pk);
      var i :| 0 <= i < |s'.rows| && s'.rows[i] == RowAt(s, pk);
      assert SlotFound(def, s', i);
    }
  }

  /** Rows move and keys follow: a compaction keeps what every key finds. */
  lemma CompactionKeepsRow(def: TableDef, nIdx: nat, s: Shard, s': Shard, pk: Uuid)
    requires Compacted(def, nIdx, s, s')
    ensures RowAt(s', pk) == RowAt(s, pk)
  {
    forall r: Row ensures Some(r) in s'.rows <==> Some(r) in s.rows {
      LiveRowsMembers(s.rows, r);
      if r in LiveRows(s.rows) {
        var i :| 0 <= i < |LiveRows(s.rows)| && LiveRows(s.rows)[i] == r;
        assert s'.rows[i] == Some(r);
      }
    }
    SameRowsFound(def, nIdx, s, s', pk);
    SameRowsFound(def, nIdx, s', s, pk);
  }

  /** `compactShardLocked`: the live rows move up, in order, and every key follows its row.
      No dead slot is left, and nothing a reader or a tally can see has changed. */
  method CompactShardLocked(def: TableDef, ghost nIdx: nat, s: Shard) returns (s': Shard)
    requires ShardOk(def, nIdx, s)
    ensures ShardOk(def, nIdx, s') && forall k :: RowAt(s', k) == RowAt(s, k)
    ensures s'.rows == AllLive(LiveRows(s.rows)) && LiveRows(s'.rows) == LiveRows(s.rows)
    ensures |s'.rows| == s'.live == s.live && Compacted(def, nIdx, s, s')
  {
    var newRows: seq<Slot>, newPk: map<Uuid, nat> := [], map[];
    assert s.rows[..0] == [];
    assert Rebuilt(def, nIdx, s, 0, newRows, newPk) by {
      forall k ensures MovedKey(def, s, 0, newRows, newPk, k) {}
      forall i ensures MovedSlot(def, newRows, newPk, i) {}
    }
    for j := 0 to |s.rows|
      invariant Rebuilt(def, nIdx, s, j, newRows, newPk)
    {
      if s.rows[j].None? {
        DeadSlotStep(def, nIdx, s, j, newRows, newPk);
        continue;
      }
      LiveSlotStep(def, nIdx, s, j, newRows, newPk);
      var id := |newRows|;
      newRows := newRows + [s.rows[j]];
      newPk := newPk[RowPk(def, s.rows[j].value) := id];
    }
    s' := Shard(newRows, newPk, s.live, s.bytes, s.dirtyRead, s.dirtyDel);
    RebuiltIsShard(def, nIdx, s, s');
  }

  lemma RebuiltIsShard(def: TableDef, nIdx: nat, s: Shard, s': Shard)
    requires ShardOk(def, nIdx, s) && Rebuilt(def, nIdx, s, |s.rows|, s'.rows, s'.pk)
    requires s'.live == s.live && s'.bytes == s.bytes
    ensures ShardOk(def, nIdx, s') && (forall k :: RowAt(s', k) == RowAt(s, k))
    ensures s'.rows == AllLive(LiveRows(s.rows)) && LiveRows(s'.rows) == LiveRows(s.rows) && |s'.rows| == s.live
  {
    assert s.rows[..|s.rows|] == s.rows;
    LiveRowsOfAllLive(LiveRows(s.rows));
    forall k ensures KeyFound(def, s', k) && RowAt(s', k) == RowAt(s, k) {
      assert MovedKey(def, s, |s.rows|, s'.rows, s'.pk, k) && KeyFound(def, s, k);
    }
    forall i ensures SlotFound(def, s', i) { assert MovedSlot(def, s'.rows, s'.pk, i); }
  }

  /** `sweepCompact` over one table: every dense shard is rebuilt, and the table stores
      what it stored. */
  method SweepCompact(t: Table)
    requires t.Valid()
    modifies t`shards
    ensures t.Valid() && t.Rows() == old(t.Rows()) && BytesOf(t.shards) == BytesOf(old(t.shards)) && t.DirtyMarks() == old(t.DirtyMarks())
    ensures |t.shards| == old(|t.shards|) && forall i :: 0 <= i < |t.shards| ==>
              var was := old(t.shards[i]);
              if |was.rows| > 2 * was.live && |was.rows| >= 64 then |t.shards[i].rows| == t.shards[i].live else t.shards[i] == was
  {
    for i := 0 to |t.shards|
      invariant t.Valid() && t.Rows() == old(t.Rows()) && BytesOf(t.shards) == BytesOf(old(t.shards)) && |t.shards| == old(|t.shards|)
      invariant t.DirtyMarks() == old(t.DirtyMarks())
      invariant forall k :: 0 <= k < i ==>
                  if ShardDense(old(t.shards[k])) then |t.shards[k].rows| == t.shards[k].live else t.shards[k] == old(t.shards[k])
      invariant forall k :: i <= k < |t.shards| ==> t.shards[k] == old(t.shards[k])
    {
      assert ShardFits(t.lay, t.shards, i);
      if ShardDense(t.shards[i]) {
        var s := CompactShardLocked(t.lay.def, t.lay.nIdx, t.shards[i]);
        ShardKeeps(t.lay, t.shards, i, s);
        BytesChange(t.shards, i, s);
        CompactKeepsMarks(t.shards, i, s, t.readDirty);
        t.shards := t.shards[i := s];
      }
    }
  }

  lemma CompactKeepsMarks(ss: seq<Shard>, i: nat, s: Shard, count: int)
    requires i < |ss| && s.dirtyRead == ss[i].dirtyRead && s.dirtyDel == ss[i].dirtyDel
    ensures MarksOf(ss[i := s], count) == MarksOf(ss, count)
  {
    assert MarksOf(ss[i := s], count).read == MarksOf(ss, count).read;
    assert MarksOf(ss[i := s], count).del == MarksOf(ss, count).del;
  }

  // ---- the batched scan ----

  /** The table as the scan meets it, tick by tick. */
  type Timeline = nat -> seq<Shard>

  /** Well formed at every tick, whatever writes and compactions come in between. */
  ghost predicate Sound(lay: Layout, env: Timeline, n: nat) {
    forall c :: SoundAt(lay, env, n, c)
  }

  ghost predicate SoundAt(lay: Layout, env: Timeline, n: nat, c: nat) {
    |env(c)| == n && ShardsOk(lay, env(c))
  }

  /** The row under a key at a tick. */
  function RowIn(lay: Layout, env: Timeline, c: nat, pk: Uuid): Option<Row> {
    if env(c) == [] then None else Lookup(lay, env(c), pk)
  }

  /** A row the scan delivers: read under `pk` at tick `at`. */
  datatype Delivered = Delivered(pk: Uuid, row: Row, at: nat)

  ghost predicate KeptAt(lay: Layout, env: Timeline, keep: Row -> bool, pk: Uuid, c: nat) {
    RowIn(lay, env, c, pk).Some? && keep(RowIn(lay, env, c, pk).value)
  }

  /** The row is there, and passes, whenever the scan looks. */
  ghost predicate AlwaysKept(lay: Layout, env: Timeline, keep: Row -> bool, pk: Uuid) {
    forall c :: KeptAt(lay, env, keep, pk, c)
  }

  ghost predicate Yields(out: seq<Delivered>, pk: Uuid) {
    exists i :: 0 <= i < |out| && out[i].pk == pk
  }

  ghost predicate OncePerKey(out: seq<Delivered>) {
    forall i, j :: 0 <= i < j < |out| ==> out[i].pk != out[j].pk
  }

  /** What was delivered was live when listed, was read there and passed. */
  ghost predicate Faithful(lay: Layout, env: Timeline, keep: Row -> bool, d: Delivered) {
    && RowIn(lay, env, d.at, d.pk) == Some(d.row) && keep(d.row)
    && exists c :: 0 <= c < d.at && RowIn(lay, env, c, d.pk).Some?
  }

  ghost predicate AllFaithful(lay: Layout, env: Timeline, keep: Row -> bool, out: seq<Delivered>) {
    forall i :: 0 <= i < |out| ==> Faithful(lay, env, keep, out[i])
  }

  ghost predicate DrawnFrom(out: seq<Delivered>, pks: seq<Uuid>) {
    forall i :: 0 <= i < |out| ==> out[i].pk in pks
  }

  ghost predicate Complete(lay: Layout, env: Timeline, keep: Row -> bool, pks: seq<Uuid>, out: seq<Delivered>) {
    forall i :: 0 <= i < |pks| ==> AlwaysKept(lay, env, keep, pks[i]) ==> Yields(out, pks[i])
  }

  /** The scan stands right after the first `k` keys. */
  ghost predicate Scanned(lay: Layout, env: Timeline, keep: Row -> bool, pks: seq<Uuid>, k: nat, out: seq<Delivered>)
    requires k <= |pks|
  {
    OncePerKey(out) && AllFaithful(lay, env, keep, out) && DrawnFrom(out, pks[..k]) && Complete(lay, env, keep, pks[..k], out)
  }

  /** What the scan promises of its whole result. */
  ghost predicate ScanResult(lay: Layout, env: Timeline, keep: Row -> bool, out: seq<Delivered>) {
    && OncePerKey(out) && AllFaithful(lay, env, keep, out)
    && forall pk {:trigger AlwaysKept(lay, env, keep, pk)} :: AlwaysKept(lay, env, keep, pk) ==> Yields(out, pk)
  }

  /** The keys listed so far are those of the first `n` shards, each as it was listed. */
  ghost predicate ListedBelow(lay: Layout, env: Timeline, keep: Row -> bool, shards: nat, n: nat, listed: seq<Uuid>)
    requires shards > 0
  {
    && Distinct(listed) && (forall pk {:trigger pk in listed} :: pk in listed ==> ShardIdx(lay, shards, pk) < n)
    && forall pk {:trigger AlwaysKept(lay, env, keep, pk)} :: AlwaysKept(lay, env, keep, pk) && ShardIdx(lay, shards, pk) < n ==> pk in listed
  }

  /** `scanShardsBatched`: shard by shard the keys are listed once; each chunk resolves its
      keys in the shard as it then is, keeping the rows `keep` accepts. */
  method ScanShardsBatched(lay: Layout, env: Timeline, shards: nat, chunk: nat, keep: Row -> bool) returns (out: seq<Delivered>)
    requires shards > 0 && chunk > 0 && Sound(lay, env, shards)
    ensures ScanResult(lay, env, keep, out)
  {
    out := [];
    var c := 0;
    ghost var listed: seq<Uuid> := [];
    for i := 0 to shards
      invariant ListedBelow(lay, env, keep, shards, i, listed)
      invariant Scanned(lay, env, keep, listed, |listed|, out)
    {
      assert SoundAt(lay, env, shards, c) && ShardFits(lay, env(c), i);
      var pks := CollectLive(lay.def, lay.nIdx, env(c)[i]);
      ListShard(lay, env, keep, shards, i, c, listed, pks);
      out, c := ScanShardBatched(lay, env, shards, i, c, chunk, keep, pks, listed, out);
      listed := listed + pks;
    }
    assert listed[..|listed|] == listed;
  }

  /** Another shard's keys are new, and complete. */
  lemma ListShard(lay: Layout, env: Timeline, keep: Row -> bool, shards: nat, i: nat, c: nat, listed: seq<Uuid>, pks: seq<Uuid>)
    requires i < shards && SoundAt(lay, env, shards, c) && ListedBelow(lay, env, keep, shards, i, listed)
    requires Distinct(pks) && forall pk {:trigger pk in pks} :: pk in pks <==> pk in env(c)[i].pk
    ensures ListedBelow(lay, env, keep, shards, i + 1, listed + pks)
    ensures forall pk {:trigger pk in pks} :: pk in pks ==> ShardIdx(lay, shards, pk) == i && RowIn(lay, env, c, pk).Some?
  {
    assert ShardFits(lay, env(c), i);
    forall pk | pk in pks ensures ShardIdx(lay, shards, pk) == i && RowIn(lay, env, c, pk).Some? {
      assert KeyFound(lay.def, env(c)[i], pk) && RowAt(env(c)[i], pk).Some?;
    }
    forall pk | AlwaysKept(lay, env, keep, pk) && ShardIdx(lay, shards, pk) < i + 1 ensures pk in listed + pks {
      assert KeptAt(lay, env, keep, pk, c);
    }
    forall a, b | 0 <= a < b < |listed + pks| ensures (listed + pks)[a] != (listed + pks)[b] {
      if a < |listed| <= b {
        assert listed[a] in listed && pks[b - |listed|] in pks;
      }
    }
  }

  /** One shard: its keys in chunks, each resolved at the next tick. */
  method ScanShardBatched(lay: Layout, env: Timeline, shards: nat, i: nat, from: nat, chunk: nat, keep: Row -> bool, pks: seq<Uuid>,
                          ghost listed: seq<Uuid>, out0: seq<Delivered>) returns (out: seq<Delivered>, c: nat)
    requires i < shards && chunk > 0 && Sound(lay, env, shards) && Distinct(listed + pks)
    requires forall pk {:trigger pk in pks} :: pk in pks ==> ShardIdx(lay, shards, pk) == i && RowIn(lay, env, from, pk).Some?
    requires Scanned(lay, env, keep, listed, |listed|, out0)
    ensures Scanned(lay, env, keep, listed + pks, |listed + pks|, out)
  {
    out, c := out0, from + 1;
    var start := 0;
    assert (listed + pks)[..|listed|] == listed[..|listed|];
    while start < |pks|
      invariant 0 <= start <= |pks| && from < c
      invariant Scanned(lay, env, keep, listed + pks, |listed| + start, out)
    {
      var end := if start + chunk > |pks| then |pks| else start + chunk;
      assert SoundAt(lay, env, shards, c);
      out := ResolveChunk(lay, env, i, from, c, keep, pks, start, end, listed, out);
      start, c := end, c + 1;
    }
  }

  method CollectLive(def: TableDef, ghost nIdx: nat, s: Shard) returns (pks: seq<Uuid>)
    requires ShardOk(def, nIdx, s)
    ensures Distinct(pks) && forall pk :: pk in pks <==> pk in s.pk
  {
    pks := [];
    for j := 0 to |s.rows|
      invariant pks == ShardKeys(def, s.rows[..j], (r: Row) => true)
    {
      assert SlotFound(def, s, j);
      assert s.rows[..j + 1][..j] == s.rows[..j] && s.rows[..j + 1][j] == s.rows[j];
      if s.rows[j].Some? { pks := pks + [RowPk(def, s.rows[j].value)]; }
    }
    ShardKeysAre(def, nIdx, s, |s.rows|, (r: Row) => true);
    forall pk ensures pk in pks <==> pk in s.pk { assert KeyFound(def, s, pk); }
  }

  /** One chunk, resolved under one lock of shard `i`. */
  method ResolveChunk(lay: Layout, env: Timeline, i: nat, ghost from: nat, c: nat, keep: Row -> bool, pks: seq<Uuid>, start: nat, end: nat,
                      ghost listed: seq<Uuid>, out0: seq<Delivered>) returns (out: seq<Delivered>)
    requires start <= end <= |pks| && Distinct(listed + pks) && i < |env(c)| && from < c
    requires forall pk {:trigger pk in pks} :: pk in pks ==> ShardIdx(lay, |env(c)|, pk) == i && RowIn(lay, env, from, pk).Some?
    requires Scanned(lay, env, keep, listed + pks, |listed| + start, out0)
    ensures Scanned(lay, env, keep, listed + pks, |listed| + end, out)
  {
    out := out0;
    for k := start to end
      invariant Scanned(lay, env, keep, listed + pks, |listed| + k, out)
    {
      assert pks[k] in pks && (listed + pks)[|listed| + k] == pks[k];
      ResolveStep(lay, env, c, keep, listed + pks, |listed| + k, out);
      out := Resolved(env(c)[i], c, keep, pks[k], out);
    }
  }

  /** One key looked up again: appended when its row is there and kept. */
  function Resolved(s: Shard, c: nat, keep: Row -> bool, pk: Uuid, out: seq<Delivered>): seq<Delivered> {
    var r := RowAt(s, pk);
    if r.Some? && keep(r.value) then out + [Delivered(pk, r.value, c)] else out
  }

  lemma ResolveStep(lay: Layout, env: Timeline, c: nat, keep: Row -> bool, pks: seq<Uuid>, k: nat, out: seq<Delivered>)
    requires k < |pks| && Distinct(pks) && env(c) != [] && exists b :: 0 <= b < c && RowIn(lay, env, b, pks[k]).Some?
    requires Scanned(lay, env, keep, pks, k, out)
    ensures Scanned(lay, env, keep, pks, k + 1, Resolved(env(c)[ShardIdx(lay, |env(c)|, pks[k])], c, keep, pks[k], out))
  {
    var done, pk := pks[..k], pks[k];
    assert pks[..k + 1] == done + [pk] && pk !in done;
    var r := RowIn(lay, env, c, pk);
    assert AlwaysKept(lay, env, keep, pk) ==> KeptAt(lay, env, keep, pk, c);
    if r.Some? && keep(r.value) {
      var d := Delivered(pk, r.value, c);
      assert Faithful(lay, env, keep, d);
      AppendDelivered(lay, env, keep, done, out, d);
    } else {
      SkipKey(lay, env, keep, done, out, pk);
    }
  }

  lemma AppendDelivered(lay: Layout, env: Timeline, keep: Row -> bool, done: seq<Uuid>, out: seq<Delivered>, d: Delivered)
    requires OncePerKey(out) && AllFaithful(lay, env, keep, out) && DrawnFrom(out, done) && Complete(lay, env, keep, done, out)
    requires d.pk !in done && Faithful(lay, env, keep, d)
    ensures OncePerKey(out + [d]) && AllFaithful(lay, env, keep, out + [d]) && DrawnFrom(out + [d], done + [d.pk])
    ensures Complete(lay, env, keep, done + [d.pk], out + [d])
  {
    var now, out' := done + [d.pk], out + [d];
    forall i | 0 <= i < |now| && AlwaysKept(lay, env, keep, now[i]) ensures Yields(out', now[i]) {
      if i < |done| {
        assert Yields(out, done[i]);
        var j :| 0 <= j < |out| && out[j].pk == done[i];
        assert out'[j].pk == now[i];
      } else {
        assert out'[|out|].pk == now[i];
      }
    }
  }

  lemma SkipKey(lay: Layout, env: Timeline, keep: Row -> bool, done: seq<Uuid>, out: seq<Delivered>, pk: Uuid)
    requires DrawnFrom(out, done) && Complete(lay, env, keep, done, out) && !AlwaysKept(lay, env, keep, pk)
    ensures DrawnFrom(out, done + [pk]) && Complete(lay, env, keep, done + [pk], out)
  {
    var now := done + [pk];
    forall i | 0 <= i < |out| ensures out[i].pk in now { assert out[i].pk in done; }
    forall i | 0 <= i < |now| && AlwaysKept(lay, env, keep, now[i]) ensures Yields(out, now[i]) {
      assert i < |done| ==> now[i] == done[i];
    }
  }

  // ---- scanning while shards are compacted ----

  /** From one tick to the next, some shards are compacted and the others left alone. */
  ghost predicate CompactsAt(lay: Layout, env: Timeline, c: nat) {
    |env(c + 1)| == |env(c)| && forall i :: 0 <= i < |env(c)| ==>
      env(c + 1)[i] == env(c)[i] || Compacted(lay.def, lay.nIdx, env(c)[i], env(c + 1)[i])
  }

  ghost predicate OnlyCompacts(lay: Layout, env: Timeline) {
    forall c {:trigger CompactsAt(lay, env, c)} :: CompactsAt(lay, env, c)
  }

  lemma CompactionKeepsShard(lay: Layout, env: Timeline, c: nat, i: nat)
    requires ShardsOk(lay, env(c)) && CompactsAt(lay, env, c) && i < |env(c)|
    ensures ShardFits(lay, env(c + 1), i) && forall pk :: RowAt(env(c + 1)[i], pk) == RowAt(env(c)[i], pk)
  {
    assert ShardFits(lay, env(c), i);
    if env(c + 1)[i] != env(c)[i] {
      forall pk ensures RowAt(env(c + 1)[i], pk) == RowAt(env(c)[i], pk) {
        CompactionKeepsRow(lay.def, lay.nIdx, env(c)[i], env(c + 1)[i], pk);
      }
      var s' := env(c + 1)[i];
      forall pk | RowAt(s', pk).Some? ensures ShardIdx(lay, |env(c + 1)|, pk) == i {
        assert RowAt(env(c)[i], pk).Some?;
      }
    }
  }

  /** So however often shards are compacted, every key finds the row it found at first. */
  lemma {:induction false} CompactionsKeepRows(lay: Layout, env: Timeline, c: nat)
    requires ShardsOk(lay, env(0)) && OnlyCompacts(lay, env)
    ensures SoundAt(lay, env, |env(0)|, c) && forall pk :: RowIn(lay, env, c, pk) == RowIn(lay, env, 0, pk)
  {
    if c > 0 {
      CompactionsKeepRows(lay, env, c - 1);
      assert CompactsAt(lay, env, c - 1);
      forall i | 0 <= i < |env(c - 1)|
        ensures ShardFits(lay, env(c), i) && forall pk :: RowAt(env(c)[i], pk) == RowAt(env(c - 1)[i], pk)
      {
        CompactionKeepsShard(lay, env, c - 1, i);
      }
      forall pk ensures RowIn(lay, env, c, pk) == RowIn(lay, env, 0, pk) {
        assert RowIn(lay, env, c - 1, pk) == RowIn(lay, env, 0, pk);
      }
    }
  }

  /** A scan delivers this row. */
  ghost predicate Delivers(out: seq<Delivered>, pk: Uuid, row: Row) {
    exists i :: 0 <= i < |out| && out[i].pk == pk && out[i].row == row
  }

  /** Compactions are invisible to a scan: whatever is renumbered between its chunks, it
      delivers exactly the rows that pass of the table it started on, each once. */
  lemma CompactionIsInvisible(lay: Layout, env: Timeline, keep: Row -> bool, out: seq<Delivered>)
    requires ShardsOk(lay, env(0)) && OnlyCompacts(lay, env) && ScanResult(lay, env, keep, out)
    ensures Sound(lay, env, |env(0)|) && OncePerKey(out)
    ensures forall pk, row :: Delivers(out, pk, row) <==>
              pk in Contents(lay, env(0)) && Contents(lay, env(0))[pk] == row && keep(row)
  {
    forall c ensures SoundAt(lay, env, |env(0)|, c) { CompactionsKeepRows(lay, env, c); }
    forall pk, row ensures Delivers(out, pk, row) <==>
              pk in Contents(lay, env(0)) && Contents(lay, env(0))[pk] == row && keep(row)
    {
      ContentsAt(lay, env(0), pk);
      DeliveredIsStored(lay, env, keep, out, pk, row);
    }
  }

  lemma DeliveredIsStored(lay: Layout, env: Timeline, keep: Row -> bool, out: seq<Delivered>, pk: Uuid, row: Row)
    requires ShardsOk(lay, env(0)) && OnlyCompacts(lay, env) && ScanResult(lay, env, keep, out)
    ensures Delivers(out, pk, row) <==> RowIn(lay, env, 0, pk) == Some(row) && keep(row)
  {
    forall i | 0 <= i < |out| && out[i].pk == pk ensures RowIn(lay, env, 0, pk) == Some(out[i].row) && keep(out[i].row) {
      assert Faithful(lay, env, keep, out[i]);
      CompactionsKeepRows(lay, env, out[i].at);
    }
    if RowIn(lay, env, 0, pk) == Some(row) && keep(row) {
      forall c ensures KeptAt(lay, env, keep, pk, c) { CompactionsKeepRows(lay, env, c); }
      assert AlwaysKept(lay, env, keep, pk) && Yields(out, pk);
    }
  }
}
