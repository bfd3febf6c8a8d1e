/** One shard of a table: its row arena, primary key map and running tallies
    (store.go, stats.go, store_write.go, store_compact.go). */
module Shards {
  import opened Wrappers
  import opened Sequences
  import opened Values
  import opened Codec
  import opened Interpreters
  import opened LiveLog

  // ---- the byte tally ----

  const VALUE_BYTES: nat := 32
  const ROW_FIXED_OVERHEAD: nat := 64
  const PER_INDEX_ROW_OVERHEAD: nat := 48

  /** Bytes of backing a cell points at. */
  function Backing(v: Value): nat {
    if v.Str? then |v.s| else if v.Blob? then |v.b| else 0
  }

  function CellsCost(row: Row): nat {
    if row == [] then 0 else VALUE_BYTES + Backing(row[0]) + CellsCost(row[1..])
  }

  function RowCost(row: Row, nIdx: nat): nat {
    CellsCost(row) + ROW_FIXED_OVERHEAD + nIdx * PER_INDEX_ROW_OVERHEAD
  }

  function CellDelta(old_: Value, new_: Value): int {
    Backing(new_) - Backing(old_)
  }

  /** Bytes a cell occupies outside its row. */
  predicate Occupies(v: Value, n: nat) {
    match v
    case Str(s) => n == |s|
    case Blob(b) => n == |b|
    case _ => n == 0
  }

  /** What a row costs: 64 bytes, 48 for each index, 32 for each cell, and what its cells
      occupy; changing a cell changes it by the difference. */
  lemma CostIs(row: Row, nIdx: nat, ord: nat, v: Value, was: nat, is_: nat)
    requires ord < |row| && Occupies(row[ord], was) && Occupies(v, is_)
    ensures (forall i :: 0 <= i < |row| ==> Occupies(row[i], 0)) ==> RowCost(row, nIdx) == 64 + 48 * nIdx + 32 * |row|
    ensures RowCost(row[ord := v], nIdx) == RowCost(row, nIdx) - was + is_
  {
    if forall i :: 0 <= i < |row| ==> Occupies(row[i], 0) { BareCost(row); }
    CellsCostUpdate(row, ord, v);
  }

  lemma {:induction false} BareCost(row: Row)
    requires forall i :: 0 <= i < |row| ==> Occupies(row[i], 0)
    ensures CellsCost(row) == 32 * |row|
  {
    if row != [] {
      forall i | 0 <= i < |row[1..]| ensures Occupies(row[1..][i], 0) { assert Occupies(row[i + 1], 0); }
      BareCost(row[1..]);
    }
  }

  lemma {:induction false} CellsCostUpdate(row: Row, ord: nat, v: Value)
    requires ord < |row|
    ensures CellsCost(row[ord := v]) == CellsCost(row) + CellDelta(row[ord], v)
  {
    if ord == 0 {
      assert row[ord := v][1..] == row[1..];
    } else {
      assert row[ord := v][1..] == row[1..][ord - 1 := v];
      CellsCostUpdate(row[1..], ord - 1, v);
    }
  }

  /** `delta` of an update that journals: each column's delta against the row as it was
      before any assignment. */
  function SavedDelta(row: Row, ords: seq<nat>, vals: Row): int
    requires |ords| == |vals| && forall i :: 0 <= i < |ords| ==> ords[i] < |row|
  {
    if ords == [] then 0 else CellDelta(row[ords[0]], vals[0]) + SavedDelta(row, ords[1..], vals[1..])
  }

  lemma {:induction false} SavedDeltaElsewhere(row: Row, ord: nat, v: Value, ords: seq<nat>, vals: Row)
    requires |ords| == |vals| && ord < |row| && ord !in ords && forall i :: 0 <= i < |ords| ==> ords[i] < |row|
    ensures SavedDelta(row[ord := v], ords, vals) == SavedDelta(row, ords, vals)
  {
    if ords != [] {
      SavedDeltaElsewhere(row, ord, v, ords[1..], vals[1..]);
    }
  }

  /** With pairwise distinct SET columns the journaled delta is the row's true change. */
  lemma {:induction false} DistinctSetsAreExact(row: Row, ords: seq<nat>, vals: Row, nIdx: nat)
    requires |ords| == |vals| && Distinct(ords) && forall i :: 0 <= i < |ords| ==> ords[i] < |row|
    ensures RowCost(Assigned(row, ords, vals), nIdx) - RowCost(row, nIdx) == SavedDelta(row, ords, vals)
    decreases |ords|
  {
    if ords != [] {
      assert ords[0] !in ords[1..];
      CellsCostUpdate(row, ords[0], vals[0]);
      DistinctSetsAreExact(row[ords[0] := vals[0]], ords[1..], vals[1..], nIdx);
      SavedDeltaElsewhere(row, ords[0], vals[0], ords[1..], vals[1..]);
    }
  }

  /** The sum the unjournaled update runs up: each delta against the row as it stands. */
  function RunningDelta(row: Row, ords: seq<nat>, vals: Row): int
    requires |ords| == |vals| && forall i :: 0 <= i < |ords| ==> ords[i] < |row|
    decreases |ords|
  {
    if ords == [] then 0
    else CellDelta(row[ords[0]], vals[0]) + RunningDelta(row[ords[0] := vals[0]], ords[1..], vals[1..])
  }

  /** Repeated columns or not, the unjournaled delta is exact. */
  lemma {:induction false} RunningDeltaIsExact(row: Row, ords: seq<nat>, vals: Row, nIdx: nat)
    requires |ords| == |vals| && forall i :: 0 <= i < |ords| ==> ords[i] < |row|
    ensures RowCost(Assigned(row, ords, vals), nIdx) - RowCost(row, nIdx) == RunningDelta(row, ords, vals)
    decreases |ords|
  {
    if ords != [] {
      CellsCostUpdate(row, ords[0], vals[0]);
      RunningDeltaIsExact(row[ords[0] := vals[0]], ords[1..], vals[1..], nIdx);
    }
  }

  /** The deltas of assignments a later one to the same column overwrites. */
  function OverwrittenDelta(row: Row, ords: seq<nat>, vals: Row): int
    requires |ords| == |vals| && forall i :: 0 <= i < |ords| ==> ords[i] < |row|
  {
    if ords == [] then 0
    else (if ords[0] in ords[1..] then CellDelta(row[ords[0]], vals[0]) else 0) + OverwrittenDelta(row, ords[1..], vals[1..])
  }

  /** One cell changed beforehand moves the surviving deltas by that change, once, if the
      column is assigned at all. */
  lemma {:induction false} SurvivingDelta(row: Row, ord: nat, v: Value, ords: seq<nat>, vals: Row)
    requires |ords| == |vals| && ord < |row| && forall i :: 0 <= i < |ords| ==> ords[i] < |row|
    ensures SavedDelta(row[ord := v], ords, vals) - OverwrittenDelta(row[ord := v], ords, vals)
         == SavedDelta(row, ords, vals) - OverwrittenDelta(row, ords, vals) - if ord in ords then CellDelta(row[ord], v) else 0
  {
    if ords != [] {
      SurvivingDelta(row, ord, v, ords[1..], vals[1..]);
      assert ord in ords <==> ord == ords[0] || ord in ords[1..];
    }
  }

  /** The journaled tally drifts from the row's true change by exactly the overwritten
      assignments' deltas. */
  lemma {:induction false} DriftIsOverwritten(row: Row, ords: seq<nat>, vals: Row, nIdx: nat)
    requires |ords| == |vals| && forall i :: 0 <= i < |ords| ==> ords[i] < |row|
    ensures SavedDelta(row, ords, vals) - (RowCost(Assigned(row, ords, vals), nIdx) - RowCost(row, nIdx)) == OverwrittenDelta(row, ords, vals)
    decreases |ords|
  {
    if ords != [] {
      CellsCostUpdate(row, ords[0], vals[0]);
      DriftIsOverwritten(row[ords[0] := vals[0]], ords[1..], vals[1..], nIdx);
      SurvivingDelta(row, ords[0], vals[0], ords[1..], vals[1..]);
    }
  }

  /** The journaled tally is right for this row and these values. */
  ghost predicate TallyExact(row: Row, ords: seq<nat>, vals: Row, nIdx: nat)
    requires |ords| == |vals| && forall i :: 0 <= i < |ords| ==> ords[i] < |row|
  {
    SavedDelta(row, ords, vals) == RowCost(Assigned(row, ords, vals), nIdx) - RowCost(row, nIdx)
  }

  /** The column's cells point at backing of their own: STRING and BYTES. */
  predicate Sized(def: TableDef, ord: nat)
    requires ord < |def.columns|
  {
    def.columns[ord].typ.TypeString? || def.columns[ord].typ.TypeBytes?
  }

  predicate Settable(def: TableDef, ords: seq<nat>) {
    forall i :: 0 <= i < |ords| ==> ords[i] < |def.columns| && ords[i] != PkOrd(def.columns)
  }

  /** No such column is set twice. */
  predicate SizedOnce(def: TableDef, ords: seq<nat>) {
    forall i, j :: 0 <= i < j < |ords| && ords[i] == ords[j] && ords[i] < |def.columns| ==> !Sized(def, ords[i])
  }

  lemma SizedOnceTail(def: TableDef, ords: seq<nat>)
    requires Settable(def, ords) && ords != []
    ensures SizedOnce(def, ords) <==> SizedOnce(def, ords[1..]) && (ords[0] in ords[1..] ==> !Sized(def, ords[0]))
  {
    if SizedOnce(def, ords) {
      forall i, j | 0 <= i < j < |ords[1..]| && ords[1..][i] == ords[1..][j] ensures !Sized(def, ords[1..][i]) {
        assert ords[i + 1] == ords[j + 1];
      }
    } else {
      var i, j :| 0 <= i < j < |ords| && ords[i] == ords[j] && Sized(def, ords[i]);
      if i > 0 { assert ords[1..][i - 1] == ords[1..][j - 1]; } else { assert ords[1..][j - 1] == ords[0]; }
    }
  }

  /** A cell of any other column costs the same whatever it holds. */
  lemma UnsizedHasNoBacking(def: TableDef, ord: nat, v: Value)
    requires ValidDef(def) && ord < |def.columns| && !Sized(def, ord) && ValidValue(def.columns[ord], v)
    ensures Backing(v) == 0
  {
    assert !def.columns[ord].typ.TypeOther?;
  }

  lemma {:induction false} NothingOverwritten(def: TableDef, row: Row, ords: seq<nat>, vals: Row)
    requires ValidDef(def) && RowOf(def, row) && SetFitsTable(def, ords, vals) && SizedOnce(def, ords)
    ensures OverwrittenDelta(row, ords, vals) == 0
  {
    if ords != [] {
      SizedOnceTail(def, ords);
      NothingOverwritten(def, row, ords[1..], vals[1..]);
      if ords[0] in ords[1..] {
        UnsizedHasNoBacking(def, ords[0], vals[0]);
        UnsizedHasNoBacking(def, ords[0], row[ords[0]]);
      }
    }
  }

  /** If no STRING or BYTES column is set twice the journaled tally is exact. */
  lemma SizedOnceIsExact(def: TableDef, row: Row, ords: seq<nat>, vals: Row, nIdx: nat)
    requires ValidDef(def) && RowOf(def, row) && SetFitsTable(def, ords, vals) && SizedOnce(def, ords)
    ensures TallyExact(row, ords, vals, nIdx)
  {
    NothingOverwritten(def, row, ords, vals);
    DriftIsOverwritten(row, ords, vals, nIdx);
  }

  function ColumnKind(c: Column): Kind {
    if KindOfType(c.typ).Some? then KindOfType(c.typ).value else KindNull
  }

  /** A row of zero values. */
  function BlankRow(def: TableDef): (r: Row)
    requires ValidDef(def)
    ensures RowOf(def, r)
  {
    seq(|def.columns|, i requires 0 <= i < |def.columns| => Default(ColumnKind(def.columns[i])))
  }

  /** One byte for a STRING or BYTES column, a zero value for any other. */
  function OneByte(def: TableDef, ord: nat): (v: Value)
    requires ValidDef(def) && ord < |def.columns|
    ensures ValidValue(def.columns[ord], v) && Backing(v) == if Sized(def, ord) then 1 else 0
  {
    var c := def.columns[ord];
    if c.typ.TypeString? then Str([65]) else if c.typ.TypeBytes? then Blob([65]) else Default(ColumnKind(c))
  }

  function OneBytes(def: TableDef, ords: seq<nat>): (vals: Row)
    requires ValidDef(def) && Settable(def, ords)
    ensures SetFitsTable(def, ords, vals)
  {
    seq(|ords|, i requires 0 <= i < |ords| => OneByte(def, ords[i]))
  }

  /** Over that row every overwritten byte counts. */
  lemma {:induction false} EachOverwriteCounts(def: TableDef, ords: seq<nat>)
    requires ValidDef(def) && Settable(def, ords)
    ensures var drift := OverwrittenDelta(BlankRow(def), ords, OneBytes(def, ords));
            drift >= 0 && (drift == 0 <==> SizedOnce(def, ords))
  {
    if ords != [] {
      SizedOnceTail(def, ords);
      EachOverwriteCounts(def, ords[1..]);
      FirstOverwrite(def, ords);
    }
  }

  lemma FirstOverwrite(def: TableDef, ords: seq<nat>)
    requires ValidDef(def) && Settable(def, ords) && ords != []
    ensures OverwrittenDelta(BlankRow(def), ords, OneBytes(def, ords)) ==
              OverwrittenDelta(BlankRow(def), ords[1..], OneBytes(def, ords[1..])) + if ords[0] in ords[1..] && Sized(def, ords[0]) then 1 else 0
  {
    assert OneBytes(def, ords)[1..] == OneBytes(def, ords[1..]);
    assert CellDelta(BlankRow(def)[ords[0]], OneBytes(def, ords)[0]) == if Sized(def, ords[0]) then 1 else 0;
  }

  /** On every row of a table and all values that fit it the journaled tally is exact if and
      only if no STRING or BYTES column is set twice. */
  lemma TallyExactIffSizedOnce(def: TableDef, ords: seq<nat>, nIdx: nat)
    requires ValidDef(def) && Settable(def, ords)
    ensures (forall row: Row, vals: Row :: RowOf(def, row) && SetFitsTable(def, ords, vals) ==> TallyExact(row, ords, vals, nIdx))
            <==> SizedOnce(def, ords)
  {
    if SizedOnce(def, ords) {
      forall row: Row, vals: Row | RowOf(def, row) && SetFitsTable(def, ords, vals) ensures TallyExact(row, ords, vals, nIdx) {
        SizedOnceIsExact(def, row, ords, vals, nIdx);
      }
    } else {
      DriftIsOverwritten(BlankRow(def), ords, OneBytes(def, ords), nIdx);
      EachOverwriteCounts(def, ords);
      assert !TallyExact(BlankRow(def), ords, OneBytes(def, ords), nIdx);
    }
  }

  // ---- the shard ----

  type Slot = Option<Row>

  /** `rows` is the arena (None is a tombstone), `pk` maps a live key to its slot. */
  datatype Shard = Shard(rows: seq<Slot>, pk: map<Uuid, nat>, live: nat, bytes: int, dirtyRead: seq<Uuid>, dirtyDel: seq<Uuid>)

  const EMPTY: Shard := Shard([], map[], 0, 0, [], [])

  function LiveIn(rows: seq<Slot>): nat {
    if rows == [] then 0 else LiveIn(rows[..|rows| - 1]) + if rows[|rows| - 1].Some? then 1 else 0
  }

  function CostOf(rows: seq<Slot>, nIdx: nat): nat {
    if rows == [] then 0
    else CostOf(rows[..|rows| - 1], nIdx) + if rows[|rows| - 1].Some? then RowCost(rows[|rows| - 1].value, nIdx) else 0
  }

  /** Every mapped key finds its row. */
  ghost predicate KeyFound(def: TableDef, s: Shard, pk: Uuid)
    requires ValidDef(def)
  {
    pk in s.pk ==>
      s.pk[pk] < |s.rows| && s.rows[s.pk[pk]].Some? && RowOf(def, s.rows[s.pk[pk]].value) && RowPk(def, s.rows[s.pk[pk]].value) == pk
  }

  /** Every live row is found by its key. */
  ghost predicate SlotFound(def: TableDef, s: Shard, i: nat)
    requires ValidDef(def)
  {
    i < |s.rows| && s.rows[i].Some? ==>
      RowOf(def, s.rows[i].value) && RowPk(def, s.rows[i].value) in s.pk && s.pk[RowPk(def, s.rows[i].value)] == i
  }

  ghost predicate ShardOk(def: TableDef, nIdx: nat, s: Shard) {
    && ValidDef(def)
    && (forall pk {:trigger KeyFound(def, s, pk)} :: KeyFound(def, s, pk))
    && (forall i {:trigger SlotFound(def, s, i)} :: SlotFound(def, s, i))
    && s.live == LiveIn(s.rows) && s.bytes == CostOf(s.rows, nIdx)
  }

  /** The row under a key. */
  function RowAt(s: Shard, pk: Uuid): Option<Row> {
    if pk in s.pk && s.pk[pk] < |s.rows| then s.rows[s.pk[pk]] else None
  }

  lemma {:induction false} TallyUpdate(rows: seq<Slot>, i: nat, slot: Slot, nIdx: nat)
    requires i < |rows|
    ensures LiveIn(rows[i := slot]) == LiveIn(rows) - (if rows[i].Some? then 1 else 0) + (if slot.Some? then 1 else 0)
    ensures CostOf(rows[i := slot], nIdx)
         == CostOf(rows, nIdx) - (if rows[i].Some? then RowCost(rows[i].value, nIdx) else 0)
            + (if slot.Some? then RowCost(slot.value, nIdx) else 0)
    decreases |rows|
  {
    var n := |rows| - 1;
    if i == n {
      assert rows[i := slot][..n] == rows[..n];
    } else {
      assert rows[i := slot][..n] == rows[..n][i := slot];
      TallyUpdate(rows[..n], i, slot, nIdx);
    }
  }

  lemma TallyAppend(rows: seq<Slot>, slot: Slot, nIdx: nat)
    ensures LiveIn(rows + [slot]) == LiveIn(rows) + if slot.Some? then 1 else 0
    ensures CostOf(rows + [slot], nIdx) == CostOf(rows, nIdx) + if slot.Some? then RowCost(slot.value, nIdx) else 0
  {
    assert (rows + [slot])[..|rows|] == rows;
  }

  // ---- what the store does to a shard ----

  /** `addRowLocked` and the key's commit. */
  function AddRow(s: Shard, pk: Uuid, row: Row, cost: int): Shard {
    Shard(s.rows + [Some(row)], s.pk[pk := |s.rows|], s.live + 1, s.bytes + cost, s.dirtyRead, s.dirtyDel)
  }

  /** A row overwritten in its slot. */
  function PutAt(s: Shard, i: nat, row: Row, delta: int): Shard
    requires i < |s.rows|
  {
    Shard(s.rows[i := Some(row)], s.pk, s.live, s.bytes + delta, s.dirtyRead, s.dirtyDel)
  }

  /** `tombstoneLocked` and the key's removal. */
  function RemoveAt(s: Shard, i: nat, pk: Uuid, cost: int): Shard
    requires i < |s.rows| && s.live > 0
  {
    Shard(s.rows[i := None], s.pk - {pk}, s.live - 1, s.bytes - cost, s.dirtyRead, s.dirtyDel)
  }

  function MarkRead(s: Shard, pk: Uuid): Shard {
    Shard(s.rows, s.pk, s.live, s.bytes, s.dirtyRead + [pk], s.dirtyDel)
  }

  function MarkDel(s: Shard, pk: Uuid): Shard {
    Shard(s.rows, s.pk, s.live, s.bytes, s.dirtyRead, s.dirtyDel + [pk])
  }

  lemma AddRowKeeps(def: TableDef, nIdx: nat, s: Shard, row: Row)
    requires ShardOk(def, nIdx, s) && RowOf(def, row) && RowPk(def, row) !in s.pk
    ensures var pk := RowPk(def, row); var s' := AddRow(s, pk, row, RowCost(row, nIdx));
            && ShardOk(def, nIdx, s') && RowAt(s', pk) == Some(row)
            && forall k :: k != pk ==> RowAt(s', k) == RowAt(s, k)
  {
    var pk := RowPk(def, row);
    var s' := AddRow(s, pk, row, RowCost(row, nIdx));
    TallyAppend(s.rows, Some(row), nIdx);
    forall k ensures KeyFound(def, s', k) && (k != pk ==> RowAt(s', k) == RowAt(s, k)) { assert KeyFound(def, s, k); }
    forall i ensures SlotFound(def, s', i) { assert SlotFound(def, s, i); }
  }

  lemma PutAtKeeps(def: TableDef, nIdx: nat, s: Shard, pk: Uuid, row: Row)
    requires ShardOk(def, nIdx, s) && pk in s.pk && RowOf(def, row) && RowPk(def, row) == pk
    ensures s.pk[pk] < |s.rows| && s.rows[s.pk[pk]].Some?
    ensures var s' := PutAt(s, s.pk[pk], row, RowCost(row, nIdx) - RowCost(s.rows[s.pk[pk]].value, nIdx));
            && ShardOk(def, nIdx, s') && RowAt(s', pk) == Some(row)
            && forall k :: k != pk ==> RowAt(s', k) == RowAt(s, k)
  {
    assert KeyFound(def, s, pk);
    var i := s.pk[pk];
    var s' := PutAt(s, i, row, RowCost(row, nIdx) - RowCost(s.rows[i].value, nIdx));
    TallyUpdate(s.rows, i, Some(row), nIdx);
    forall k ensures KeyFound(def, s', k) && (k != pk ==> RowAt(s', k) == RowAt(s, k)) {
      assert KeyFound(def, s, k) && (k in s.pk ==> SlotFound(def, s, s.pk[k]));
    }
    forall j ensures SlotFound(def, s', j) { assert SlotFound(def, s, j); }
  }

  lemma RemoveAtKeeps(def: TableDef, nIdx: nat, s: Shard, pk: Uuid)
    requires ShardOk(def, nIdx, s) && pk in s.pk
    ensures s.pk[pk] < |s.rows| && s.rows[s.pk[pk]].Some? && s.live > 0
    ensures var s' := RemoveAt(s, s.pk[pk], pk, RowCost(s.rows[s.pk[pk]].value, nIdx));
            && ShardOk(def, nIdx, s') && RowAt(s', pk) == None
            && forall k :: k != pk ==> RowAt(s', k) == RowAt(s, k)
  {
    assert KeyFound(def, s, pk);
    var i := s.pk[pk];
    TallyUpdate(s.rows, i, None, nIdx);
    assert s.live > 0;
    var s' := RemoveAt(s, i, pk, RowCost(s.rows[i].value, nIdx));
    forall k ensures KeyFound(def, s', k) && (k != pk ==> RowAt(s', k) == RowAt(s, k)) {
      assert KeyFound(def, s, k) && (k in s.pk ==> SlotFound(def, s, s.pk[k])) && SlotFound(def, s, i);
    }
    forall j ensures SlotFound(def, s', j) { assert SlotFound(def, s, j); }
  }

  lemma MarksKeep(def: TableDef, nIdx: nat, s: Shard, pk: Uuid)
    requires ShardOk(def, nIdx, s)
    ensures ShardOk(def, nIdx, MarkRead(s, pk)) && ShardOk(def, nIdx, MarkDel(s, pk))
    ensures forall k :: RowAt(MarkRead(s, pk), k) == RowAt(s, k) == RowAt(MarkDel(s, pk), k)
  {
    forall k ensures KeyFound(def, MarkRead(s, pk), k) && KeyFound(def, MarkDel(s, pk), k) { assert KeyFound(def, s, k); }
    forall i ensures SlotFound(def, MarkRead(s, pk), i) && SlotFound(def, MarkDel(s, pk), i) { assert SlotFound(def, s, i); }
  }

  // ---- compaction ----

  const COMPACT_MIN_SLOTS: nat := 64

  /** `shardDense`: more dead slots than live rows, in an arena worth rebuilding. */
  predicate ShardDense(s: Shard) {
    |s.rows| - s.live > s.live && |s.rows| >= COMPACT_MIN_SLOTS
  }

  /** The live rows of an arena, in insert order. */
  function LiveRows(rows: seq<Slot>): seq<Row> {
    if rows == [] then []
    else LiveRows(rows[..|rows| - 1]) + if rows[|rows| - 1].Some? then [rows[|rows| - 1].value] else []
  }

  function AllLive(rs: seq<Row>): seq<Slot> {
    seq(|rs|, i requires 0 <= i < |rs| => Some(rs[i]))
  }

  lemma PrefixGrows(rows: seq<Slot>, j: nat, nIdx: nat)
    requires j < |rows|
    ensures LiveRows(rows[..j + 1]) == LiveRows(rows[..j]) + if rows[j].Some? then [rows[j].value] else []
    ensures LiveIn(rows[..j + 1]) == LiveIn(rows[..j]) + if rows[j].Some? then 1 else 0
    ensures CostOf(rows[..j + 1], nIdx) == CostOf(rows[..j], nIdx) + if rows[j].Some? then RowCost(rows[j].value, nIdx) else 0
  {
    assert rows[..j + 1] == rows[..j] + [rows[j]] && rows[..j + 1][..j] == rows[..j];
  }

  lemma AllLiveSnoc(rs: seq<Row>, r: Row)
    ensures AllLive(rs + [r]) == AllLive(rs) + [Some(r)]
  {}
}
