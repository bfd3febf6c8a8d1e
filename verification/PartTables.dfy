/** A partitioned table: rows routed by partition value, a table-wide directory of row
    locations, and compaction that renumbers both in step (partition_store.go,
    store_compact.go). Such tables have no secondary index. */
module PartTables {
  import opened Wrappers
  import opened Values
  import opened Codec
  import opened Records
  import opened Interpreters
  import opened LiveLog
  import opened Shards
  import opened PartShards
  import opened Tables

  /** `rowLocation`. */
  datatype Loc = Loc(shard: nat, rowID: nat)

  function Route(home: Uuid -> nat, n: nat, part: Uuid): (i: nat)
    requires n > 0
    ensures i < n
  {
    home(part) % n
  }

  // ---- the invariant, on the shards and the directory ----

  ghost predicate ShardHolds(d: PartDef, home: Uuid -> nat, ss: seq<PShard>, i: nat) {
    i < |ss| ==> PShardOk(d, 0, ss[i]) && AllRouted(d, home, |ss|, ss[i], i)
  }

  /** Every live row of the shard belongs to a partition routed to it. */
  ghost predicate AllRouted(d: PartDef, home: Uuid -> nat, n: nat, s: PShard, i: nat)
    requires ValidPartDef(d) && n > 0
  {
    forall j: nat {:trigger Routed(d, home, n, s, i, j)} :: Routed(d, home, n, s, i, j)
  }

  ghost predicate Routed(d: PartDef, home: Uuid -> nat, n: nat, s: PShard, i: nat, j: nat)
    requires ValidPartDef(d) && n > 0
  {
    LiveAt(s.rows, j) ==> RowOf(d.def, s.rows[j].value) && Route(home, n, RowPart(d, s.rows[j].value)) == i
  }

  predicate At(ss: seq<PShard>, loc: Loc) {
    loc.shard < |ss| && LiveAt(ss[loc.shard].rows, loc.rowID)
  }

  /** The directory's entry for a key points at its row. */
  ghost predicate EntryOk(d: PartDef, ss: seq<PShard>, dir: map<Uuid, Loc>, pk: Uuid)
    requires ValidPartDef(d)
  {
    pk in dir ==> At(ss, dir[pk]) && RowOf(d.def, RowAtLoc(ss, dir[pk])) && RowPk(d.def, RowAtLoc(ss, dir[pk])) == pk
  }

  function RowAtLoc(ss: seq<PShard>, loc: Loc): Row
    requires At(ss, loc)
  {
    ss[loc.shard].rows[loc.rowID].value
  }

  /** Every live row has its entry. */
  ghost predicate SlotEntered(d: PartDef, ss: seq<PShard>, dir: map<Uuid, Loc>, i: nat, j: nat)
    requires ValidPartDef(d)
  {
    At(ss, Loc(i, j)) && RowOf(d.def, RowAtLoc(ss, Loc(i, j))) ==>
      var pk := RowPk(d.def, RowAtLoc(ss, Loc(i, j))); pk in dir && dir[pk] == Loc(i, j)
  }

  ghost predicate DirOk(d: PartDef, ss: seq<PShard>, dir: map<Uuid, Loc>)
    requires ValidPartDef(d)
  {
    && (forall pk {:trigger EntryOk(d, ss, dir, pk)} :: EntryOk(d, ss, dir, pk))
    && forall i: nat, j: nat {:trigger SlotEntered(d, ss, dir, i, j)} :: SlotEntered(d, ss, dir, i, j)
  }

  ghost predicate PartsOk(d: PartDef, home: Uuid -> nat, ss: seq<PShard>, dir: map<Uuid, Loc>) {
    && |ss| > 0 && ValidPartDef(d)
    && (forall i: nat {:trigger ShardHolds(d, home, ss, i)} :: ShardHolds(d, home, ss, i))
    && DirOk(d, ss, dir)
  }

  /** The table's contents, through the directory. */
  function DirRows(ss: seq<PShard>, dir: map<Uuid, Loc>): map<Uuid, Row> {
    map pk | pk in dir && At(ss, dir[pk]) :: RowAtLoc(ss, dir[pk])
  }

  function BytesIn(ss: seq<PShard>): int {
    if ss == [] then 0 else BytesIn(ss[..|ss| - 1]) + ss[|ss| - 1].bytes
  }

  lemma {:induction false} BytesInChange(ss: seq<PShard>, i: nat, s: PShard)
    requires i < |ss|
    ensures BytesIn(ss[i := s]) == BytesIn(ss) - ss[i].bytes + s.bytes
    decreases |ss|
  {
    var n := |ss| - 1;
    if i == n {
      assert ss[i := s][..n] == ss[..n];
    } else {
      assert ss[i := s][..n] == ss[..n][i := s];
      BytesInChange(ss[..n], i, s);
    }
  }

  /** Replacing one shard by a good one keeps the others good. */
  lemma ShardFitsStill(d: PartDef, home: Uuid -> nat, ss: seq<PShard>, dir: map<Uuid, Loc>, i: nat, s: PShard)
    requires PartsOk(d, home, ss, dir) && i < |ss| && PShardOk(d, 0, s) && AllRouted(d, home, |ss|, s, i)
    ensures forall k: nat {:trigger ShardHolds(d, home, ss[i := s], k)} :: ShardHolds(d, home, ss[i := s], k)
  {
    var ss' := ss[i := s];
    forall k: nat ensures ShardHolds(d, home, ss', k) { assert ShardHolds(d, home, ss, k); }
  }

  // ---- insert, overwrite, delete ----

  /** Slot `j` now holds `row`, and every other slot is as it was. */
  ghost predicate WritesSlot(before: PShard, after: PShard, j: nat, row: Row) {
    && LiveAt(after.rows, j) && after.rows[j].value == row
    && forall k: nat {:trigger SameSlot(before, after, k)} :: k != j ==> SameSlot(before, after, k)
  }

  predicate SameSlot(before: PShard, after: PShard, k: nat) {
    (LiveAt(after.rows, k) <==> LiveAt(before.rows, k)) && (LiveAt(before.rows, k) ==> after.rows[k] == before.rows[k])
  }

  /** A key other than the written row's keeps its entry and its row. */
  lemma OtherEntryKeeps(d: PartDef, ss: seq<PShard>, dir: map<Uuid, Loc>, i: nat, j: nat, row: Row, s: PShard, k: Uuid)
    requires ValidPartDef(d) && EntryOk(d, ss, dir, k) && i < |ss| && WritesSlot(ss[i], s, j, row) && k in dir && dir[k] != Loc(i, j)
    ensures At(ss, dir[k]) && At(ss[i := s], dir[k]) && RowAtLoc(ss[i := s], dir[k]) == RowAtLoc(ss, dir[k])
  {
    assert dir[k].shard == i ==> SameSlot(ss[i], s, dir[k].rowID);
  }

  lemma OtherSlotKeeps(d: PartDef, ss: seq<PShard>, dir: map<Uuid, Loc>, i: nat, j: nat, row: Row, s: PShard, dir': map<Uuid, Loc>, a: nat, b: nat)
    requires ValidPartDef(d) && SlotEntered(d, ss, dir, a, b) && i < |ss| && WritesSlot(ss[i], s, j, row) && RowOf(d.def, row)
    requires dir' == dir[RowPk(d.def, row) := Loc(i, j)] && (RowPk(d.def, row) in dir ==> dir[RowPk(d.def, row)] == Loc(i, j))
    ensures SlotEntered(d, ss[i := s], dir', a, b)
  {
    assert a == i && b != j ==> SameSlot(ss[i], s, b);
  }

  lemma WriteKeepsEntry(d: PartDef, ss: seq<PShard>, dir: map<Uuid, Loc>, i: nat, j: nat, row: Row, s: PShard, k: Uuid)
    requires ValidPartDef(d) && DirOk(d, ss, dir) && i < |ss| && RowOf(d.def, row) && WritesSlot(ss[i], s, j, row)
    requires RowPk(d.def, row) in dir ==> dir[RowPk(d.def, row)] == Loc(i, j)
    requires LiveAt(ss[i].rows, j) ==> RowPk(d.def, row) in dir
    ensures var pk := RowPk(d.def, row); var ss', dir' := ss[i := s], dir[pk := Loc(i, j)];
            && EntryOk(d, ss', dir', k)
            && (k in dir && k != pk ==> At(ss, dir[k]) && At(ss', dir'[k]) && RowAtLoc(ss', dir'[k]) == RowAtLoc(ss, dir[k]))
  {
    var pk := RowPk(d.def, row);
    assert EntryOk(d, ss, dir, k) && EntryOk(d, ss, dir, pk);
    if k in dir && k != pk { OtherEntryKeeps(d, ss, dir, i, j, row, s, k); }
  }

  /** The directory after a row was written into slot `j` of shard `i` and entered there. */
  lemma WriteKeepsDir(d: PartDef, ss: seq<PShard>, dir: map<Uuid, Loc>, i: nat, j: nat, row: Row, s: PShard)
    requires ValidPartDef(d) && DirOk(d, ss, dir) && i < |ss| && RowOf(d.def, row) && WritesSlot(ss[i], s, j, row)
    requires RowPk(d.def, row) in dir ==> dir[RowPk(d.def, row)] == Loc(i, j)
    requires LiveAt(ss[i].rows, j) ==> RowPk(d.def, row) in dir
    ensures var dir' := dir[RowPk(d.def, row) := Loc(i, j)];
            DirOk(d, ss[i := s], dir') && DirRows(ss[i := s], dir') == DirRows(ss, dir)[RowPk(d.def, row) := row]
  {
    var pk := RowPk(d.def, row);
    var ss', dir' := ss[i := s], dir[pk := Loc(i, j)];
    assert At(ss', dir'[pk]) && RowAtLoc(ss', dir'[pk]) == row;
    forall k ensures EntryOk(d, ss', dir', k) { WriteKeepsEntry(d, ss, dir, i, j, row, s, k); }
    forall a: nat, b: nat ensures SlotEntered(d, ss', dir', a, b) {
      assert SlotEntered(d, ss, dir, a, b);
      OtherSlotKeeps(d, ss, dir, i, j, row, s, dir', a, b);
    }
    forall k | k in dir && k != pk ensures At(ss, dir[k]) && At(ss', dir'[k]) && RowAtLoc(ss', dir'[k]) == RowAtLoc(ss, dir[k]) {
      WriteKeepsEntry(d, ss, dir, i, j, row, s, k);
    }
  }

  lemma InsertKeeps(d: PartDef, home: Uuid -> nat, ss: seq<PShard>, dir: map<Uuid, Loc>, row: Row)
    requires PartsOk(d, home, ss, dir) && RowOf(d.def, row) && RowPk(d.def, row) !in dir
    ensures var p := RowPart(d, row); var i := Route(home, |ss|, p);
            var s := Appended(ss[i], p, row, RowCost(row, 0));
            var dir' := dir[RowPk(d.def, row) := Loc(i, |ss[i].rows|)];
            && PartsOk(d, home, ss[i := s], dir')
            && DirRows(ss[i := s], dir') == DirRows(ss, dir)[RowPk(d.def, row) := row]
            && BytesIn(ss[i := s]) == BytesIn(ss) + RowCost(row, 0)
  {
    var p := RowPart(d, row);
    var i := Route(home, |ss|, p);
    var s := Appended(ss[i], p, row, RowCost(row, 0));
    assert ShardHolds(d, home, ss, i);
    AppendKeeps(d, 0, ss[i], row);
    forall j: nat ensures Routed(d, home, |ss|, s, i, j) { assert Routed(d, home, |ss|, ss[i], i, j); }
    ShardFitsStill(d, home, ss, dir, i, s);
    forall k: nat | k != |ss[i].rows| ensures SameSlot(ss[i], s, k) {}
    WriteKeepsDir(d, ss, dir, i, |ss[i].rows|, row, s);
    BytesInChange(ss, i, s);
  }

  lemma OverwriteKeeps(d: PartDef, home: Uuid -> nat, ss: seq<PShard>, dir: map<Uuid, Loc>, pk: Uuid, row: Row)
    requires PartsOk(d, home, ss, dir) && pk in dir && RowOf(d.def, row) && RowPk(d.def, row) == pk
    requires At(ss, dir[pk]) && RowOf(d.def, RowAtLoc(ss, dir[pk])) && RowPart(d, row) == RowPart(d, RowAtLoc(ss, dir[pk]))
    ensures var loc := dir[pk]; var old_ := RowAtLoc(ss, loc);
            var s := ss[loc.shard];
            var s' := PShard(s.rows[loc.rowID := Some(row)], s.tails, s.tailsDead, s.live, s.bytes + RowCost(row, 0) - RowCost(old_, 0));
            && PartsOk(d, home, ss[loc.shard := s'], dir)
            && DirRows(ss[loc.shard := s'], dir) == DirRows(ss, dir)[pk := row]
            && BytesIn(ss[loc.shard := s']) == BytesIn(ss) + RowCost(row, 0) - RowCost(old_, 0)
  {
    var loc := dir[pk];
    var i, j, s := loc.shard, loc.rowID, ss[loc.shard];
    var s' := PShard(s.rows[j := Some(row)], s.tails, s.tailsDead, s.live, s.bytes + RowCost(row, 0) - RowCost(RowAtLoc(ss, loc), 0));
    assert ShardHolds(d, home, ss, i);
    RewriteKeeps(d, s, j, row, s');
    forall k: nat ensures Routed(d, home, |ss|, s', i, k) { assert Routed(d, home, |ss|, s, i, k); }
    ShardFitsStill(d, home, ss, dir, i, s');
    forall k: nat | k != j ensures SameSlot(s, s', k) {}
    WriteKeepsDir(d, ss, dir, i, j, row, s');
    assert dir[pk := Loc(i, j)] == dir;
    BytesInChange(ss, i, s');
  }

  /** A row rewritten in its slot, in the same partition. */
  lemma RewriteKeeps(d: PartDef, s: PShard, j: nat, row: Row, s': PShard)
    requires PShardOk(d, 0, s) && LiveAt(s.rows, j) && RowOf(d.def, row) && RowOf(d.def, s.rows[j].value)
    requires RowPart(d, row) == RowPart(d, s.rows[j].value)
    requires s'.rows == s.rows[j := Some(row)] && s'.tails == s.tails && s'.tailsDead == s.tailsDead && s'.live == s.live
    requires s'.bytes == s.bytes + RowCost(row, 0) - RowCost(s.rows[j].value, 0)
    ensures PShardOk(d, 0, s')
  {
    TallyUpdate(s.rows, j, Some(row), 0);
    forall q ensures TailOk(d, s', q) {
      assert TailOk(d, s, q);
      DeadInSame(s.rows, s'.rows, Tail(s, q));
    }
    forall k ensures RowListed(d, s', k) { assert RowListed(d, s, k); }
  }

  /** The directory after the row under `pk` was tombstoned and its entry removed. */
  lemma RemoveKeepsDir(d: PartDef, ss: seq<PShard>, dir: map<Uuid, Loc>, pk: Uuid, s': PShard)
    requires ValidPartDef(d) && DirOk(d, ss, dir) && pk in dir && At(ss, dir[pk])
    requires s'.rows == ss[dir[pk].shard].rows[dir[pk].rowID := None]
    ensures var ss' := ss[dir[pk].shard := s'];
            DirOk(d, ss', dir - {pk}) && DirRows(ss', dir - {pk}) == DirRows(ss, dir) - {pk}
  {
    var ss', dir' := ss[dir[pk].shard := s'], dir - {pk};
    forall k ensures EntryOk(d, ss', dir', k) && (k in dir' ==> At(ss', dir[k]) && RowAtLoc(ss', dir[k]) == RowAtLoc(ss, dir[k])) {
      assert EntryOk(d, ss, dir, k) && EntryOk(d, ss, dir, pk);
    }
    forall a: nat, b: nat ensures SlotEntered(d, ss', dir', a, b) {
      assert SlotEntered(d, ss, dir, a, b) && EntryOk(d, ss, dir, pk);
    }
    forall k ensures k in DirRows(ss', dir') <==> k in DirRows(ss, dir) && k != pk { assert EntryOk(d, ss, dir, k); }
  }

  lemma RemoveKeeps(d: PartDef, home: Uuid -> nat, ss: seq<PShard>, dir: map<Uuid, Loc>, pk: Uuid, s': PShard)
    requires PartsOk(d, home, ss, dir) && pk in dir && At(ss, dir[pk])
    requires PShardOk(d, 0, s') && s'.rows == ss[dir[pk].shard].rows[dir[pk].rowID := None]
    requires s'.bytes == ss[dir[pk].shard].bytes - RowCost(RowAtLoc(ss, dir[pk]), 0)
    ensures var ss' := ss[dir[pk].shard := s'];
            && PartsOk(d, home, ss', dir - {pk}) && DirRows(ss', dir - {pk}) == DirRows(ss, dir) - {pk}
            && BytesIn(ss') == BytesIn(ss) - RowCost(RowAtLoc(ss, dir[pk]), 0)
  {
    var i := dir[pk].shard;
    assert ShardHolds(d, home, ss, i);
    forall k: nat ensures Routed(d, home, |ss|, s', i, k) { assert Routed(d, home, |ss|, ss[i], i, k); }
    ShardFitsStill(d, home, ss, dir, i, s');
    RemoveKeepsDir(d, ss, dir, pk, s');
    BytesInChange(ss, i, s');
  }

  // ---- compaction: rows and directory renumbered together ----

  /** What the rebuild of shard `i` has come to after `j` slots. */
  ghost predicate Moved(d: PartDef, ss: seq<PShard>, dir: map<Uuid, Loc>, i: nat, j: nat, rows: seq<Slot>, tails: map<Uuid, seq<nat>>, dir': map<Uuid, Loc>)
    requires ValidPartDef(d) && i < |ss| && j <= |ss[i].rows|
  {
    && rows == AllLive(LiveRows(ss[i].rows[..j]))
    && |rows| == LiveIn(ss[i].rows[..j]) == LiveIn(rows) && CostOf(rows, 0) == CostOf(ss[i].rows[..j], 0)
    && (forall k: nat {:trigger MovedRow(d, dir', i, rows, k)} :: MovedRow(d, dir', i, rows, k))
    && (forall p {:trigger MovedTail(d, rows, tails, p)} :: MovedTail(d, rows, tails, p))
    && forall pk {:trigger MovedEntry(d, ss, dir, i, j, rows, dir', pk)} :: MovedEntry(d, ss, dir, i, j, rows, dir', pk)
  }

  ghost predicate MovedRow(d: PartDef, dir': map<Uuid, Loc>, i: nat, rows: seq<Slot>, k: nat)
    requires ValidPartDef(d)
  {
    k < |rows| ==>
      rows[k].Some? && RowOf(d.def, rows[k].value) && RowPk(d.def, rows[k].value) in dir' && dir'[RowPk(d.def, rows[k].value)] == Loc(i, k)
  }

  ghost predicate MovedTail(d: PartDef, rows: seq<Slot>, tails: map<Uuid, seq<nat>>, p: Uuid)
    requires ValidPartDef(d)
  {
    (if p in tails then tails[p] else []) == PartIds(d, rows, p, |rows|)
  }

  /** A key's entry: moved with its row if the row has been moved, otherwise as it was. */
  ghost predicate MovedEntry(d: PartDef, ss: seq<PShard>, dir: map<Uuid, Loc>, i: nat, j: nat, rows: seq<Slot>, dir': map<Uuid, Loc>, pk: Uuid)
    requires ValidPartDef(d) && i < |ss| && j <= |ss[i].rows|
  {
    && (pk in dir' <==> pk in dir)
    && (pk in dir ==>
          if dir[pk].shard == i && dir[pk].rowID < j
          then dir'[pk].shard == i && dir'[pk].rowID < |rows| && rows[dir'[pk].rowID] == ss[i].rows[dir[pk].rowID]
          else dir'[pk] == dir[pk])
  }

  lemma PartIdsGrow(d: PartDef, rows: seq<Slot>, slot: Slot, p: Uuid, n: nat)
    requires ValidPartDef(d) && n <= |rows|
    ensures PartIds(d, rows + [slot], p, n) == PartIds(d, rows, p, n)
  {
    if n > 0 { PartIdsGrow(d, rows, slot, p, n - 1); }
  }

  lemma MovedDead(d: PartDef, home: Uuid -> nat, ss: seq<PShard>, dir: map<Uuid, Loc>, i: nat, j: nat, rows: seq<Slot>, tails: map<Uuid, seq<nat>>, dir': map<Uuid, Loc>)
    requires PartsOk(d, home, ss, dir) && i < |ss| && j < |ss[i].rows| && Moved(d, ss, dir, i, j, rows, tails, dir') && ss[i].rows[j].None?
    ensures Moved(d, ss, dir, i, j + 1, rows, tails, dir')
  {
    PrefixGrows(ss[i].rows, j, 0);
    assert LiveRows(ss[i].rows[..j]) + [] == LiveRows(ss[i].rows[..j]);
    var n := j + 1;
    forall pk ensures MovedEntry(d, ss, dir, i, n, rows, dir', pk) {
      assert MovedEntry(d, ss, dir, i, j, rows, dir', pk) && EntryOk(d, ss, dir, pk);
    }
  }

  lemma MovedLive(d: PartDef, home: Uuid -> nat, ss: seq<PShard>, dir: map<Uuid, Loc>, i: nat, j: nat, rows: seq<Slot>, tails: map<Uuid, seq<nat>>, dir': map<Uuid, Loc>, tails': map<Uuid, seq<nat>>)
    requires PartsOk(d, home, ss, dir) && i < |ss| && j < |ss[i].rows| && Moved(d, ss, dir, i, j, rows, tails, dir') && ss[i].rows[j].Some?
    requires RowOf(d.def, ss[i].rows[j].value)
    requires var p := RowPart(d, ss[i].rows[j].value); tails' == tails[p := (if p in tails then tails[p] else []) + [|rows|]]
    ensures Moved(d, ss, dir, i, j + 1, rows + [ss[i].rows[j]], tails', dir'[RowPk(d.def, ss[i].rows[j].value) := Loc(i, |rows|)])
  {
    var slot, n := ss[i].rows[j], j + 1;
    var row := slot.value;
    var rows', dir'' := rows + [slot], dir'[RowPk(d.def, row) := Loc(i, |rows|)];
    PrefixGrows(ss[i].rows, j, 0);
    TallyAppend(rows, slot, 0);
    AllLiveSnoc(LiveRows(ss[i].rows[..j]), row);
    LiveAtMost(ss[i].rows[..j]);
    forall p ensures MovedTail(d, rows', tails', p) { TailMoves(d, rows, tails, slot, tails', p); }
    assert SlotEntered(d, ss, dir, i, j);
    forall pk ensures MovedEntry(d, ss, dir, i, n, rows', dir'', pk) {
      assert MovedEntry(d, ss, dir, i, j, rows, dir', pk) && EntryOk(d, ss, dir, pk);
      EntryMoves(d, ss, dir, i, j, rows, dir', pk);
    }
    forall k: nat ensures MovedRow(d, dir'', i, rows', k) {
      assert MovedRow(d, dir', i, rows, k) && MovedEntry(d, ss, dir, i, j, rows, dir', RowPk(d.def, row));
      if k < |rows| { KeysApart(d, ss, dir, i, j, rows, dir', k); }
    }
  }

  lemma TailMoves(d: PartDef, rows: seq<Slot>, tails: map<Uuid, seq<nat>>, slot: Slot, tails': map<Uuid, seq<nat>>, p: Uuid)
    requires ValidPartDef(d) && MovedTail(d, rows, tails, p) && slot.Some? && RowOf(d.def, slot.value)
    requires var q := RowPart(d, slot.value); tails' == tails[q := (if q in tails then tails[q] else []) + [|rows|]]
    ensures MovedTail(d, rows + [slot], tails', p)
  {
    var n, rows' := |rows|, rows + [slot];
    PartIdsGrow(d, rows, slot, p, n);
    assert rows'[n] == slot && |rows'| == n + 1;
    PartIdsLast(d, rows', p, n);
    assert InPart(d, slot, p) <==> RowPart(d, slot.value) == p;
  }

  lemma PartIdsLast(d: PartDef, rows: seq<Slot>, p: Uuid, n: nat)
    requires ValidPartDef(d) && n < |rows|
    ensures PartIds(d, rows, p, n + 1) == if InPart(d, rows[n], p) then PartIds(d, rows, p, n) + [n] else PartIds(d, rows, p, n)
  {
    assert PartIds(d, rows, p, n) + [] == PartIds(d, rows, p, n);
  }

  /** The moved row's own entry points at its new slot; every other entry is as it was. */
  lemma EntryMoves(d: PartDef, ss: seq<PShard>, dir: map<Uuid, Loc>, i: nat, j: nat, rows: seq<Slot>, dir': map<Uuid, Loc>, pk: Uuid)
    requires ValidPartDef(d) && i < |ss| && j < |ss[i].rows| && ss[i].rows[j].Some? && RowOf(d.def, ss[i].rows[j].value)
    requires SlotEntered(d, ss, dir, i, j) && MovedEntry(d, ss, dir, i, j, rows, dir', pk) && EntryOk(d, ss, dir, pk)
    ensures MovedEntry(d, ss, dir, i, j + 1, rows + [ss[i].rows[j]], dir'[RowPk(d.def, ss[i].rows[j].value) := Loc(i, |rows|)], pk)
  {
    if pk in dir && dir[pk] == Loc(i, j) { assert RowPk(d.def, RowAtLoc(ss, dir[pk])) == pk; }
  }

  /** A row moved earlier does not have the key of the row being moved. */
  lemma KeysApart(d: PartDef, ss: seq<PShard>, dir: map<Uuid, Loc>, i: nat, j: nat, rows: seq<Slot>, dir': map<Uuid, Loc>, k: nat)
    requires ValidPartDef(d) && i < |ss| && j < |ss[i].rows| && ss[i].rows[j].Some? && RowOf(d.def, ss[i].rows[j].value)
    requires k < |rows| && MovedRow(d, dir', i, rows, k) && SlotEntered(d, ss, dir, i, j)
    requires MovedEntry(d, ss, dir, i, j, rows, dir', RowPk(d.def, ss[i].rows[j].value))
    requires |rows| <= j
    ensures RowPk(d.def, rows[k].value) != RowPk(d.def, ss[i].rows[j].value)
  {}

  lemma {:induction false} LiveAtMost(rows: seq<Slot>)
    ensures LiveIn(rows) <= |rows|
  {
    if rows != [] { LiveAtMost(rows[..|rows| - 1]); }
  }

  /** Squeezing the dead slots out of an arena leaves every partition's scan sequence. */
  lemma {:induction false} SqueezedPartRows(d: PartDef, rows: seq<Slot>, p: Uuid)
    requires ValidPartDef(d)
    ensures PartRows(d, AllLive(LiveRows(rows)), p) == PartRows(d, rows, p)
  {
    if rows != [] {
      var n := |rows| - 1;
      SqueezedPartRows(d, rows[..n], p);
      if rows[n].Some? {
        AllLiveSnoc(LiveRows(rows[..n]), rows[n].value);
        assert AllLive(LiveRows(rows))[..|LiveRows(rows[..n])|] == AllLive(LiveRows(rows[..n]));
      } else {
        assert LiveRows(rows[..n]) + [] == LiveRows(rows[..n]);
        assert PartRows(d, rows[..n], p) + [] == PartRows(d, rows[..n], p);
      }
    }
  }

  /** The rebuilt shard and directory are as good as the ones they replace. */
  lemma CompactKeeps(d: PartDef, home: Uuid -> nat, ss: seq<PShard>, dir: map<Uuid, Loc>, i: nat, s': PShard, dir': map<Uuid, Loc>)
    requires PartsOk(d, home, ss, dir) && i < |ss|
    requires Moved(d, ss, dir, i, |ss[i].rows|, s'.rows, s'.tails, dir')
    requires s'.tailsDead == map[] && s'.live == ss[i].live && s'.bytes == ss[i].bytes
    ensures PartsOk(d, home, ss[i := s'], dir') && DirRows(ss[i := s'], dir') == DirRows(ss, dir)
    ensures |s'.rows| == s'.live && forall p :: PartRows(d, s'.rows, p) == PartRows(d, ss[i].rows, p)
  {
    assert ss[i].rows[..|ss[i].rows|] == ss[i].rows;
    assert ShardHolds(d, home, ss, i);
    forall p ensures PartRows(d, s'.rows, p) == PartRows(d, ss[i].rows, p) { SqueezedPartRows(d, ss[i].rows, p); }
    CompactedShardOk(d, ss, dir, i, s', dir');
    forall k: nat ensures Routed(d, home, |ss|, s', i, k) {
      assert MovedRow(d, dir', i, s'.rows, k);
      if k < |s'.rows| { CameFrom(d, home, ss, dir, i, s', dir', k); }
    }
    ShardFitsStill(d, home, ss, dir, i, s');
    CompactKeepsDir(d, ss, dir, i, s', dir');
  }

  /** Every row of the rebuilt arena was a live row of the old one. */
  lemma CameFrom(d: PartDef, home: Uuid -> nat, ss: seq<PShard>, dir: map<Uuid, Loc>, i: nat, s': PShard, dir': map<Uuid, Loc>, k: nat)
    requires PartsOk(d, home, ss, dir) && i < |ss| && k < |s'.rows|
    requires Moved(d, ss, dir, i, |ss[i].rows|, s'.rows, s'.tails, dir')
    ensures s'.rows[k].Some? && RowOf(d.def, s'.rows[k].value) && Route(home, |ss|, RowPart(d, s'.rows[k].value)) == i
  {
    assert MovedRow(d, dir', i, s'.rows, k);
    var pk := RowPk(d.def, s'.rows[k].value);
    assert MovedEntry(d, ss, dir, i, |ss[i].rows|, s'.rows, dir', pk) && EntryOk(d, ss, dir, pk);
    assert ShardHolds(d, home, ss, i) && Routed(d, home, |ss|, ss[i], i, dir[pk].rowID);
  }

  lemma CompactedShardOk(d: PartDef, ss: seq<PShard>, dir: map<Uuid, Loc>, i: nat, s': PShard, dir': map<Uuid, Loc>)
    requires ValidPartDef(d) && i < |ss| && PShardOk(d, 0, ss[i])
    requires Moved(d, ss, dir, i, |ss[i].rows|, s'.rows, s'.tails, dir')
    requires s'.tailsDead == map[] && s'.live == ss[i].live && s'.bytes == ss[i].bytes
    ensures PShardOk(d, 0, s') && |s'.rows| == s'.live
  {
    assert ss[i].rows[..|ss[i].rows|] == ss[i].rows;
    forall p ensures TailOk(d, s', p) {
      assert MovedTail(d, s'.rows, s'.tails, p);
      MovedTailOk(d, s', p);
    }
    forall k: nat ensures RowListed(d, s', k) {
      assert MovedRow(d, dir', i, s'.rows, k);
      if k < |s'.rows| {
        assert MovedTail(d, s'.rows, s'.tails, RowPart(d, s'.rows[k].value));
        MovedIsListed(d, s', k);
      }
    }
  }

  lemma MovedIsListed(d: PartDef, s: PShard, k: nat)
    requires ValidPartDef(d) && LiveAt(s.rows, k) && RowOf(d.def, s.rows[k].value)
    requires MovedTail(d, s.rows, s.tails, RowPart(d, s.rows[k].value))
    ensures RowListed(d, s, k)
  {
    PartIdsAre(d, s.rows, RowPart(d, s.rows[k].value), |s.rows|);
  }

  lemma MovedTailOk(d: PartDef, s: PShard, p: Uuid)
    requires ValidPartDef(d) && MovedTail(d, s.rows, s.tails, p) && s.tailsDead == map[]
    ensures TailOk(d, s, p)
  {
    PartIdsRise(d, s.rows, p, |s.rows|);
    PartIdsOwned(d, s.rows, p, |s.rows|);
    AllLiveIds(s.rows, Tail(s, p));
  }

  lemma PartIdsRise(d: PartDef, rows: seq<Slot>, p: Uuid, n: nat)
    requires ValidPartDef(d) && n <= |rows|
    ensures Rising(PartIds(d, rows, p, n))
  {
    PartIdsAre(d, rows, p, n);
  }

  lemma {:induction false} PartIdsOwned(d: PartDef, rows: seq<Slot>, p: Uuid, n: nat)
    requires ValidPartDef(d) && n <= |rows|
    ensures forall k :: 0 <= k < |PartIds(d, rows, p, n)| ==> LiveAt(rows, PartIds(d, rows, p, n)[k])
    ensures Owned(d, rows, PartIds(d, rows, p, n), p)
  {
    if n > 0 { PartIdsOwned(d, rows, p, n - 1); }
  }

  lemma CompactKeepsDir(d: PartDef, ss: seq<PShard>, dir: map<Uuid, Loc>, i: nat, s': PShard, dir': map<Uuid, Loc>)
    requires ValidPartDef(d) && DirOk(d, ss, dir) && i < |ss|
    requires Moved(d, ss, dir, i, |ss[i].rows|, s'.rows, s'.tails, dir')
    ensures DirOk(d, ss[i := s'], dir') && DirRows(ss[i := s'], dir') == DirRows(ss, dir)
  {
    var ss' := ss[i := s'];
    forall pk ensures EntryOk(d, ss', dir', pk) { CompactMovesEntry(d, ss, dir, i, s', dir', pk); }
    forall a: nat, b: nat ensures SlotEntered(d, ss', dir', a, b) { CompactEntersSlot(d, ss, dir, i, s', dir', a, b); }
    forall pk ensures (pk in DirRows(ss', dir') <==> pk in DirRows(ss, dir))
                   && (pk in DirRows(ss, dir) ==> DirRows(ss', dir')[pk] == DirRows(ss, dir)[pk]) {
      CompactMovesEntry(d, ss, dir, i, s', dir', pk);
    }
  }

  /** Every directory entry still points at its row. */
  lemma CompactMovesEntry(d: PartDef, ss: seq<PShard>, dir: map<Uuid, Loc>, i: nat, s': PShard, dir': map<Uuid, Loc>, pk: Uuid)
    requires ValidPartDef(d) && DirOk(d, ss, dir) && i < |ss|
    requires Moved(d, ss, dir, i, |ss[i].rows|, s'.rows, s'.tails, dir')
    ensures EntryOk(d, ss[i := s'], dir', pk) && EntryOk(d, ss, dir, pk)
    ensures pk in dir <==> pk in dir'
    ensures pk in dir ==> At(ss, dir[pk]) && At(ss[i := s'], dir'[pk]) && RowAtLoc(ss[i := s'], dir'[pk]) == RowAtLoc(ss, dir[pk])
  {
    assert EntryOk(d, ss, dir, pk) && MovedEntry(d, ss, dir, i, |ss[i].rows|, s'.rows, dir', pk);
  }

  /** And every live slot has its entry. */
  lemma CompactEntersSlot(d: PartDef, ss: seq<PShard>, dir: map<Uuid, Loc>, i: nat, s': PShard, dir': map<Uuid, Loc>, a: nat, b: nat)
    requires ValidPartDef(d) && DirOk(d, ss, dir) && i < |ss|
    requires Moved(d, ss, dir, i, |ss[i].rows|, s'.rows, s'.tails, dir')
    ensures SlotEntered(d, ss[i := s'], dir', a, b)
  {
    var ss' := ss[i := s'];
    if a == i {
      assert MovedRow(d, dir', i, s'.rows, b);
    } else if At(ss', Loc(a, b)) && RowOf(d.def, RowAtLoc(ss', Loc(a, b))) {
      assert SlotEntered(d, ss, dir, a, b);
      assert MovedEntry(d, ss, dir, i, |ss[i].rows|, s'.rows, dir', RowPk(d.def, RowAtLoc(ss', Loc(a, b))));
    }
  }

  // ---- sequences ----

  /** The row under `pk` sits in one slot of one shard. */
  ghost predicate SitsAt(d: PartDef, ss: seq<PShard>, loc: Loc, pk: Uuid) {
    && At(ss, loc) && HasPk(d.def, RowAtLoc(ss, loc), pk) && OnlyAt(d.def, ss[loc.shard].rows, loc.rowID, pk)
    && forall i :: 0 <= i < |ss| && i != loc.shard ==> OnlyAt(d.def, ss[i].rows, |ss[i].rows|, pk)
  }

  function SequenceOf(d: PartDef, home: Uuid -> nat, ss: seq<PShard>, p: Uuid): seq<Row>
    requires |ss| > 0 && ValidPartDef(d)
  {
    PartRows(d, ss[Route(home, |ss|, p)].rows, p)
  }

  lemma SequencesRewritten(d: PartDef, home: Uuid -> nat, ss: seq<PShard>, loc: Loc, pk: Uuid, row: Row, s': PShard)
    requires ValidPartDef(d) && SitsAt(d, ss, loc, pk) && HasPk(d.def, row, pk) && RowPart(d, row) == RowPart(d, RowAtLoc(ss, loc))
    requires s'.rows == ss[loc.shard].rows[loc.rowID := Some(row)]
    ensures forall p :: SequenceOf(d, home, ss[loc.shard := s'], p) == RewrittenIn(d.def, SequenceOf(d, home, ss, p), pk, row)
  {
    forall p ensures SequenceOf(d, home, ss[loc.shard := s'], p) == RewrittenIn(d.def, SequenceOf(d, home, ss, p), pk, row) {
      var i := Route(home, |ss|, p);
      PartRowsSet(d, ss[i].rows, if i == loc.shard then loc.rowID else |ss[i].rows|, pk, row, p);
    }
  }

  lemma SequencesDropped(d: PartDef, home: Uuid -> nat, ss: seq<PShard>, loc: Loc, pk: Uuid, s': PShard)
    requires ValidPartDef(d) && SitsAt(d, ss, loc, pk) && s'.rows == ss[loc.shard].rows[loc.rowID := None]
    ensures forall p :: SequenceOf(d, home, ss[loc.shard := s'], p) == DroppedFrom(d.def, SequenceOf(d, home, ss, p), pk)
  {
    forall p ensures SequenceOf(d, home, ss[loc.shard := s'], p) == DroppedFrom(d.def, SequenceOf(d, home, ss, p), pk) {
      var i := Route(home, |ss|, p);
      PartRowsDrop(d, ss[i].rows, if i == loc.shard then loc.rowID else |ss[i].rows|, pk, p);
    }
  }

  /** A key's slot is the only one that holds it, in the shard its partition routes to. */
  lemma OneSlot(d: PartDef, home: Uuid -> nat, ss: seq<PShard>, dir: map<Uuid, Loc>, pk: Uuid)
    requires PartsOk(d, home, ss, dir) && pk in dir
    ensures SitsAt(d, ss, dir[pk], pk) && dir[pk].shard == Route(home, |ss|, RowPart(d, RowAtLoc(ss, dir[pk])))
    ensures pk in DirRows(ss, dir) && DirRows(ss, dir)[pk] == RowAtLoc(ss, dir[pk])
  {
    var loc := dir[pk];
    assert EntryOk(d, ss, dir, pk);
    assert ShardHolds(d, home, ss, loc.shard) && Routed(d, home, |ss|, ss[loc.shard], loc.shard, loc.rowID);
    forall i: nat, j: nat | i < |ss| && LiveAt(ss[i].rows, j) && HasPk(d.def, ss[i].rows[j].value, pk) ensures Loc(i, j) == loc {
      assert SlotEntered(d, ss, dir, i, j);
    }
  }

  /** The shard with the row under `loc` rewritten. */
  function Rewritten(ss: seq<PShard>, loc: Loc, row: Row, delta: int): PShard
    requires At(ss, loc)
  {
    var s := ss[loc.shard];
    PShard(s.rows[loc.rowID := Some(row)], s.tails, s.tailsDead, s.live, s.bytes + delta)
  }

  /** Everything a rewrite in place does. */
  lemma RewriteEffect(d: PartDef, home: Uuid -> nat, ss: seq<PShard>, dir: map<Uuid, Loc>, pk: Uuid, row: Row, delta: int)
    requires PartsOk(d, home, ss, dir) && pk in dir && HasPk(d.def, row, pk)
    requires At(ss, dir[pk]) && RowOf(d.def, RowAtLoc(ss, dir[pk])) && RowPart(d, row) == RowPart(d, RowAtLoc(ss, dir[pk]))
    requires delta == RowCost(row, 0) - RowCost(RowAtLoc(ss, dir[pk]), 0)
    ensures var ss' := ss[dir[pk].shard := Rewritten(ss, dir[pk], row, delta)];
            && PartsOk(d, home, ss', dir) && DirRows(ss', dir) == DirRows(ss, dir)[pk := row] && BytesIn(ss') == BytesIn(ss) + delta
            && forall p :: SequenceOf(d, home, ss', p) == RewrittenIn(d.def, SequenceOf(d, home, ss, p), pk, row)
  {
    OneSlot(d, home, ss, dir, pk);
    OverwriteKeeps(d, home, ss, dir, pk, row);
    SequencesRewritten(d, home, ss, dir[pk], pk, row, Rewritten(ss, dir[pk], row, delta));
  }

  // ---- the table ----

  class PartTable {
    const d: PartDef
    const id: nat
    const home: Uuid -> nat
    const budget: Budget
    const journal: Journal
    var shards: seq<PShard>
    var dir: map<Uuid, Loc>

    ghost predicate Valid()
      reads this
    {
      PartsOk(d, home, shards, dir)
    }

    constructor (d: PartDef, id: nat, home: Uuid -> nat, n: nat, budget: Budget, journal: Journal)
      requires n > 0 && ValidPartDef(d)
      ensures Valid() && Rows() == map[]
      ensures this.d == d && this.id == id && this.home == home && this.budget == budget && this.journal == journal
    {
      this.d, this.id, this.home, this.budget, this.journal := d, id, home, budget, journal;
      shards, dir := seq(n, i => EMPTY_PART), map[];
      new;
      forall i: nat ensures ShardHolds(d, home, shards, i) {
        if i < n {
          forall p ensures TailOk(d, shards[i], p) {}
          forall j: nat ensures RowListed(d, shards[i], j) && Routed(d, home, n, shards[i], i, j) {}
        }
      }
      forall pk ensures EntryOk(d, shards, dir, pk) {}
      forall i: nat, j: nat ensures SlotEntered(d, shards, dir, i, j) {}
    }

    /** What the table stores. */
    function Rows(): map<Uuid, Row>
      reads this
    {
      DirRows(shards, dir)
    }

    /** A partition's scan sequence. */
    function Sequence(p: Uuid): seq<Row>
      reads this
      requires |shards| > 0 && ValidPartDef(d)
    {
      SequenceOf(d, home, shards, p)
    }

    twostate predicate Untouched()
      reads this, budget, journal
    {
      shards == old(shards) && dir == old(dir) && budget.total == old(budget.total) && journal.log == old(journal.log)
    }

    twostate predicate Balanced()
      reads this, budget
    {
      budget.total - old(budget.total) == if budget.max != 0 then BytesIn(shards) - BytesIn(old(shards)) else 0
    }

    twostate predicate Took(act: Act)
      reads this, journal
    {
      var did := LiveAct(MemTable(d.def, old(Rows())), act);
      && did.Some? && did.value.0.rows == Rows()
      && journal.log == old(journal.log) + if journal.live then [Single(Mutation(id, did.value.1))] else []
    }

    /** No other shard has changed. */
    twostate predicate OnlyShard(i: nat)
      reads this
    {
      |shards| == old(|shards|) && forall j :: 0 <= j < |shards| && j != i ==> shards[j] == old(shards[j])
    }

    twostate predicate TookGroup(acts: seq<Act>)
      reads this, journal
    {
      var did := LiveGroup(MemTable(d.def, old(Rows())), acts);
      && did.Some? && did.value.0.rows == Rows()
      && journal.log == old(journal.log) + if journal.live && acts != [] then [Txn(OnTable(id, did.value.1))] else []
    }

    lemma EntryAt(pk: Uuid)
      requires Valid()
      ensures pk in dir <==> pk in Rows()
      ensures pk in dir ==> At(shards, dir[pk]) && RowOf(d.def, Rows()[pk]) && RowPk(d.def, Rows()[pk]) == pk && Rows()[pk] == RowAtLoc(shards, dir[pk])
    {
      assert EntryOk(d, shards, dir, pk);
    }

    /** `insertPartitioned`: the row joins the end of its partition's sequence; every other
        partition's is unchanged. */
    method Insert_(row: Row, works: bool) returns (out: Outcome)
      requires Valid() && RowOf(d.def, row)
      modifies this`shards, this`dir, budget, journal
      ensures Valid() && Balanced()
      ensures out in {Done, Duplicate, NoCapacity, WalFailed}
      ensures out == Duplicate <==> RowPk(d.def, row) in old(Rows())
      ensures out == NoCapacity <==> out != Duplicate && budget.max != 0 && old(budget.total) + RowCost(row, 0) > budget.max
      ensures out == WalFailed <==> out !in {Duplicate, NoCapacity} && journal.live && !works
      ensures if out == Done then Took(PutRow(row)) else Untouched()
      ensures out == Done ==> forall p :: Sequence(p) == old(Sequence(p)) + if p == RowPart(d, row) then [row] else []
    {
      var pk, part := RowPk(d.def, row), RowPart(d, row);
      EntryAt(pk);
      var i := Route(home, |shards|, part);
      if pk in dir { return Duplicate; }
      var cost := RowCost(row, 0);
      var ok := budget.Reserve(cost);
      if !ok { return NoCapacity; }
      ok := journal.Write(Single(Mutation(id, Insert(row))), works);
      if !ok {
        budget.Release(cost);
        return WalFailed;
      }
      AppendRow(i, row, cost);
      return Done;
    }

    /** The row at the end of its shard's arena and of its partition's list. */
    method AppendRow(i: nat, row: Row, cost: int)
      requires Valid() && RowOf(d.def, row) && RowPk(d.def, row) !in dir && cost == RowCost(row, 0) && i == Route(home, |shards|, RowPart(d, row))
      modifies this`shards, this`dir
      ensures Valid() && Rows() == old(Rows())[RowPk(d.def, row) := row] && BytesIn(shards) == old(BytesIn(shards)) + cost && OnlyShard(i)
      ensures forall p :: Sequence(p) == if p == RowPart(d, row) then old(Sequence(p)) + [row] else old(Sequence(p))
    {
      InsertKeeps(d, home, shards, dir, row);
      var part, rowID := RowPart(d, row), |shards[i].rows|;
      shards, dir := shards[i := Appended(shards[i], part, row, cost)], dir[RowPk(d.def, row) := Loc(i, rowID)];
      forall p ensures Sequence(p) == if p == part then old(Sequence(p)) + [row] else old(Sequence(p)) {
        PartRowsAfterInsert(d, old(shards[i].rows), row, p);
        assert old(Sequence(p)) + [] == old(Sequence(p));
      }
    }

    /** `updateByPKJournaledPartitioned`; the partition column is immutable. */
    method UpdateByPk(pk: Uuid, ords: seq<nat>, compute: Row -> Option<Row>, works: bool) returns (out: Outcome)
      requires Valid() && ords != [] && SizedOnce(d.def, ords) && d.ord !in ords && ComputeFits(d.def, ords, compute)
      modifies this`shards, budget, journal
      ensures Valid() && Balanced()
      ensures out in {Done, NoRow, BadSet, WalFailed}
      ensures out == NoRow <==> pk !in old(Rows())
      ensures out == BadSet <==> pk in old(Rows()) && compute(old(Rows())[pk]) == None
      ensures out == WalFailed <==> pk in old(Rows()) && compute(old(Rows())[pk]).Some? && journal.live && !works
      ensures if out == Done then Took(SetRow(pk, ords, compute(old(Rows())[pk]).value)) else Untouched()
      ensures out == Done ==> pk in Rows() && forall p :: Sequence(p) == RewrittenIn(d.def, old(Sequence(p)), pk, Rows()[pk])
    {
      EntryAt(pk);
      if pk !in dir { return NoRow; }
      var r := RowAtLoc(shards, dir[pk]);
      var computed := compute(r);
      if computed.None? { return BadSet; }
      out := UpdateLogged(pk, r, ords, computed.value, works);
    }

    /** Changed in place, journaled, and put back cell by cell when the journal fails. */
    method UpdateLogged(pk: Uuid, r: Row, ords: seq<nat>, vals: Row, works: bool) returns (out: Outcome)
      requires Valid() && ords != [] && SizedOnce(d.def, ords) && d.ord !in ords && pk in Rows() && Rows()[pk] == r
      requires RowOf(d.def, r) && RowPk(d.def, r) == pk && SetFitsTable(d.def, ords, vals)
      modifies this`shards, budget, journal
      ensures Valid() && Balanced()
      ensures out == if journal.live && !works then WalFailed else Done
      ensures if out == Done then Took(SetRow(pk, ords, vals)) else Untouched()
      ensures out == Done ==> pk in Rows() && forall p :: Sequence(p) == RewrittenIn(d.def, old(Sequence(p)), pk, Rows()[pk])
    {
      JournalReplays(d.def, r, ords, vals);
      AssignedElsewhere(r, ords, vals, d.ord);
      var nr, saved := AssignSaving(r, ords, vals);
      var ok := journal.Write(Single(Mutation(id, Update(Id(pk), JournalSets(nr, ords)))), works);
      if !ok {
        var back := Revert(r, nr, ords, vals, saved);
        assert back == r;
        return WalFailed;
      }
      var delta := SavedTally(d.def, r, ords, vals, saved, 0);
      Overwrite(pk, nr, delta);
      return Done;
    }

    method Overwrite(pk: Uuid, row: Row, delta: int)
      requires Valid() && pk in Rows() && RowOf(d.def, row) && RowPk(d.def, row) == pk
      requires RowOf(d.def, Rows()[pk]) && RowPart(d, row) == RowPart(d, Rows()[pk]) && delta == RowCost(row, 0) - RowCost(Rows()[pk], 0)
      modifies this`shards, budget
      ensures Valid() && Balanced() && Rows() == old(Rows())[pk := row]
      ensures forall p :: Sequence(p) == RewrittenIn(d.def, old(Sequence(p)), pk, row)
    {
      ReplaceRow(pk, row, delta);
      budget.Adjust(delta);
    }

    /** The row in its slot: its place in its partition's sequence is kept. */
    method ReplaceRow(pk: Uuid, row: Row, delta: int)
      requires Valid() && pk in Rows() && RowOf(d.def, row) && RowPk(d.def, row) == pk
      requires RowOf(d.def, Rows()[pk]) && RowPart(d, row) == RowPart(d, Rows()[pk]) && delta == RowCost(row, 0) - RowCost(Rows()[pk], 0)
      modifies this`shards
      ensures Valid() && Rows() == old(Rows())[pk := row] && BytesIn(shards) == old(BytesIn(shards)) + delta
      ensures OnlyShard(Route(home, |shards|, RowPart(d, row)))
      ensures forall p :: Sequence(p) == RewrittenIn(d.def, old(Sequence(p)), pk, row)
    {
      EntryAt(pk);
      OneSlot(d, home, shards, dir, pk);
      RewriteEffect(d, home, shards, dir, pk, row, delta);
      var loc := dir[pk];
      shards := shards[loc.shard := Rewritten(shards, loc, row, delta)];
    }

    /** `deleteByPKJournaledPartitioned`: the row leaves its partition's sequence, whatever
        the prune drops from the list; other partitions keep theirs. */
    method DeleteByPk(pk: Uuid, works: bool) returns (out: Outcome)
      requires Valid()
      modifies this`shards, this`dir, budget, journal
      ensures Valid() && Balanced()
      ensures out in {Done, NoRow, WalFailed}
      ensures out == NoRow <==> pk !in old(Rows())
      ensures out == WalFailed <==> pk in old(Rows()) && journal.live && !works
      ensures if out == Done then Took(DropRow(pk)) else Untouched()
      ensures out == Done ==> forall p :: Sequence(p) == DroppedFrom(d.def, old(Sequence(p)), pk)
    {
      EntryAt(pk);
      if pk !in dir { return NoRow; }
      var ok := journal.Write(Single(Mutation(id, Delete(Id(pk)))), works);
      if !ok { return WalFailed; }
      Tombstone(pk);
      return Done;
    }

    method Tombstone(pk: Uuid)
      requires Valid() && pk in dir
      modifies this`shards, this`dir, budget
      ensures Valid() && Balanced() && Rows() == old(Rows()) - {pk}
      ensures forall p :: Sequence(p) == DroppedFrom(d.def, old(Sequence(p)), pk)
    {
      EntryAt(pk);
      var cost := RowCost(RowAtLoc(shards, dir[pk]), 0);
      RemoveRow(pk, cost);
      budget.Release(cost);
    }

    /** The row leaves its slot, the directory and its partition's sequence. */
    method RemoveRow(pk: Uuid, cost: nat)
      requires Valid() && pk in Rows() && cost == RowCost(Rows()[pk], 0)
      modifies this`shards, this`dir
      ensures Valid() && Rows() == old(Rows()) - {pk} && BytesIn(shards) == old(BytesIn(shards)) - cost
      ensures RowOf(d.def, old(Rows())[pk]) && OnlyShard(Route(home, |shards|, RowPart(d, old(Rows())[pk])))
      ensures forall p :: Sequence(p) == DroppedFrom(d.def, old(Sequence(p)), pk)
    {
      EntryAt(pk);
      OneSlot(d, home, shards, dir, pk);
      var loc := dir[pk];
      assert ShardHolds(d, home, shards, loc.shard);
      var s := DeleteRow(d, 0, shards[loc.shard], loc.rowID, cost);
      RemoveKeeps(d, home, shards, dir, pk, s);
      SequencesDropped(d, home, shards, loc, pk, s);
      shards, dir := shards[loc.shard := s], dir - {pk};
    }

    /** `compactShardLocked` on a partitioned table: rows, lists and directory entries are
        renumbered together; contents and every partition's sequence are unchanged, and no
        dead slot is left. */
    method CompactShard(i: nat)
      requires Valid() && i < |shards|
      modifies this`shards, this`dir
      ensures Valid() && Rows() == old(Rows()) && |shards| == old(|shards|)
      ensures forall p :: Sequence(p) == old(Sequence(p))
      ensures |shards[i].rows| == shards[i].live && BytesIn(shards) == BytesIn(old(shards))
    {
      var rows := shards[i].rows;
      var newRows: seq<Slot>, tails: map<Uuid, seq<nat>>, dir' := [], map[], dir;
      assert rows[..0] == [];
      assert Moved(d, shards, dir, i, 0, newRows, tails, dir') by {
        forall k: nat ensures MovedRow(d, dir', i, newRows, k) {}
        forall p ensures MovedTail(d, newRows, tails, p) {}
        forall pk ensures MovedEntry(d, shards, dir, i, 0, newRows, dir', pk) {}
      }
      newRows, tails, dir' := MoveAll(i, newRows, tails, dir');
      var s := PShard(newRows, tails, map[], shards[i].live, shards[i].bytes);
      CompactKeeps(d, home, shards, dir, i, s, dir');
      BytesInChange(shards, i, s);
      shards, dir := shards[i := s], dir';
    }

    method MoveAll(i: nat, rows0: seq<Slot>, tails0: map<Uuid, seq<nat>>, dir0: map<Uuid, Loc>)
      returns (rows: seq<Slot>, tails: map<Uuid, seq<nat>>, dir': map<Uuid, Loc>)
      requires Valid() && i < |shards| && Moved(d, shards, dir, i, 0, rows0, tails0, dir0)
      ensures Moved(d, shards, dir, i, |shards[i].rows|, rows, tails, dir')
    {
      rows, tails, dir' := rows0, tails0, dir0;
      assert ShardHolds(d, home, shards, i);
      for j := 0 to |shards[i].rows|
        invariant Moved(d, shards, dir, i, j, rows, tails, dir')
      {
        var slot := shards[i].rows[j];
        if slot.None? {
          MovedDead(d, home, shards, dir, i, j, rows, tails, dir');
          continue;
        }
        assert RowListed(d, shards[i], j);
        var part := RowPart(d, slot.value);
        var tails' := tails[part := (if part in tails then tails[part] else []) + [|rows|]];
        MovedLive(d, home, shards, dir, i, j, rows, tails, dir', tails');
        dir' := dir'[RowPk(d.def, slot.value) := Loc(i, |rows|)];
        rows, tails := rows + [slot], tails';
      }
    }

    /** `scanPartition` on the table. */
    method Scan(p: Uuid, quitAt: int) returns (out: seq<Row>)
      requires Valid() && quitAt != 0
      ensures out == if 0 < quitAt <= |Sequence(p)| then Sequence(p)[..quitAt] else Sequence(p)
    {
      var i := Route(home, |shards|, p);
      assert ShardHolds(d, home, shards, i);
      out := ScanPartition(d, 0, shards[i], p, quitAt);
    }
  }
}
