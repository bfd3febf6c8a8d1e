/** The table object as the overlay protocol meets it: the same rows, dirty lists and
    counter. Every live statement is one of the protocol's writes, so what the protocol
    keeps holds of the table's own shards (store_write.go, txn.go). */
module WriteMarks {
  import opened ByteStrings
  import opened Values
  import opened Codec
  import opened Records
  import opened Interpreters
  import opened LiveLog
  import opened Shards
  import opened TableSpec
  import opened TableScans
  import opened Tables
  import O = IndexOverlay

  // ---- the machine a table's writes belong to ----

  /** A statement a table took is the durability machine's: the same rows, the same record. */
  twostate lemma TookIsLive(t: Table, m: Memory, slots: nat, kept: set<Bytes>, act: Act)
    requires t.Valid() && old(t.Valid()) && t.id in m.byId && m.byId[t.id] == MemTable(t.lay.def, old(t.Rows()))
    requires t.Took(act)
    ensures var did := Live(m, slots, kept, One(t.id, act));
            && did.Some? && did.value.0 == m.(byId := m.byId[t.id := MemTable(t.lay.def, t.Rows())])
            && t.journal.log == old(t.journal.log) + if t.journal.live then [did.value.1] else []
  {}

  twostate lemma TookGroupIsLive(t: Table, m: Memory, slots: nat, kept: set<Bytes>, acts: seq<Act>)
    requires t.Valid() && old(t.Valid()) && t.id in m.byId && m.byId[t.id] == MemTable(t.lay.def, old(t.Rows()))
    requires t.TookGroup(acts) && acts != []
    ensures var did := Live(m, slots, kept, Group(t.id, acts));
            && did.Some? && did.value.0 == m.(byId := m.byId[t.id := MemTable(t.lay.def, t.Rows())])
            && t.journal.log == old(t.journal.log) + if t.journal.live then [did.value.1] else []
  {}

  // ---- the overlay a table's shards stand for ----

  /** The overlay's table is this one: as many shards, the same routing, and indexes over
      the columns the layout lists. */
  ghost predicate SameTable(lay: Layout, n: nat, ot: O.Table) {
    && n > 0 && O.ValidTable(ot) && ot.shards == n && ot.width == |lay.def.columns| && lay.nIdx == |ot.indexes| > 0
    && (forall pk :: ot.route(pk) == ShardIdx(lay, n, pk))
    && forall c {:trigger c in lay.indexed} {:trigger IndexColumn(ot, c)} :: c in lay.indexed <==> IndexColumn(ot, c)
  }

  ghost predicate IndexColumn(ot: O.Table, c: nat) {
    exists k, i :: 0 <= k < |ot.indexes| && 0 <= i < |ot.indexes[k].ords| && ot.indexes[k].ords[i] == c
  }

  /** An update touches an index when one of its columns is in one. */
  lemma TouchesAgree(lay: Layout, n: nat, ot: O.Table, ords: seq<nat>)
    requires SameTable(lay, n, ot)
    ensures Touches(lay, ords) <==> O.Touches(ot, ords)
  {
    if Touches(lay, ords) {
      var i :| 0 <= i < |ords| && ords[i] in lay.indexed;
      assert IndexColumn(ot, ords[i]);
      var k, j :| 0 <= k < |ot.indexes| && 0 <= j < |ot.indexes[k].ords| && ot.indexes[k].ords[j] == ords[i];
      assert ot.indexes[k].ords[j] in ords;
    }
    if O.Touches(ot, ords) {
      var k, j :| 0 <= k < |ot.indexes| && 0 <= j < |ot.indexes[k].ords| && ot.indexes[k].ords[j] in ords;
      assert IndexColumn(ot, ot.indexes[k].ords[j]);
    }
  }

  ghost predicate StandsFor(lay: Layout, rows: map<Uuid, Row>, m: Marks, ot: O.Table, s: O.State) {
    && SameTable(lay, |m.read|, ot) && O.Shaped(ot, s)
    && s.rows == rows && s.dirtyRead == m.read && s.dirtyDel == m.del && s.readCount == m.count
  }

  /** The protocol's write for a live act. */
  function StepOf(def: TableDef, act: Act): O.Step
    requires ValidDef(def) && (act.PutRow? ==> RowOf(def, act.row))
  {
    match act
    case PutRow(row) => O.Insert(RowPk(def, row), row)
    case SetRow(pk, ords, vals) => O.Update(pk, ords, vals)
    case DropRow(pk) => O.Delete(pk)
  }

  ghost predicate RowsFit(def: TableDef, acts: seq<Act>) {
    forall i :: 0 <= i < |acts| && acts[i].PutRow? ==> RowOf(def, acts[i].row)
  }

  function StepsOf(def: TableDef, acts: seq<Act>): seq<O.Step>
    requires ValidDef(def) && RowsFit(def, acts)
  {
    seq(|acts|, i requires 0 <= i < |acts| => StepOf(def, acts[i]))
  }

  /** SET from the front and SET from the back leave the same row. */
  lemma {:induction false} AssignedSnoc(row: Row, ords: seq<nat>, vals: Row, o: nat, v: Value)
    requires |ords| == |vals| && o < |row| && forall i :: 0 <= i < |ords| ==> ords[i] < |row|
    ensures Assigned(row, ords + [o], vals + [v]) == Assigned(row, ords, vals)[o := v]
    decreases |ords|
  {
    if ords == [] {
      assert (ords + [o])[1..] == [] && (vals + [v])[1..] == [];
    } else {
      assert (ords + [o])[1..] == ords[1..] + [o] && (vals + [v])[1..] == vals[1..] + [v];
      AssignedSnoc(row[ords[0] := vals[0]], ords[1..], vals[1..], o, v);
    }
  }

  lemma {:induction false} WithCellsIsAssigned(row: Row, ords: seq<nat>, vals: Row)
    requires |ords| == |vals| && O.Fits(ords, row)
    ensures O.WithCells(row, ords, vals) == Assigned(row, ords, vals)
    decreases |ords|
  {
    if ords != [] {
      var n := |ords| - 1;
      assert O.Fits(ords[..n], row) by { assert forall i :: i in ords[..n] ==> i in ords; }
      WithCellsIsAssigned(row, ords[..n], vals[..n]);
      AssignedSnoc(row, ords[..n], vals[..n], ords[n], vals[n]);
      assert ords[..n] + [ords[n]] == ords && vals[..n] + [vals[n]] == vals;
    }
  }

  /** One live act moves the overlay as its write does. */
  lemma ActMoves(lay: Layout, rows: map<Uuid, Row>, m: Marks, act: Act, ot: O.Table, s: O.State)
    requires ValidDef(lay.def) && TableOk(MemTable(lay.def, rows)) && StandsFor(lay, rows, m, ot, s)
    requires LiveAct(MemTable(lay.def, rows), act).Some?
    ensures act.PutRow? ==> RowOf(lay.def, act.row)
    ensures StandsFor(lay, LiveAct(MemTable(lay.def, rows), act).value.0.rows, MarkAct(lay, m, act), ot, O.Do(ot, s, StepOf(lay.def, act)))
  {
    if act.SetRow? {
      TouchesAgree(lay, |m.read|, ot, act.ords);
      WithCellsIsAssigned(rows[act.pk], act.ords, act.vals);
    }
  }

  lemma {:induction false} MarkActsCons(lay: Layout, m: Marks, acts: seq<Act>)
    requires ValidDef(lay.def) && acts != []
    ensures MarkActs(lay, m, acts) == MarkActs(lay, MarkAct(lay, m, acts[0]), acts[1..])
    decreases |acts|
  {
    var n := |acts| - 1;
    if n > 0 {
      MarkActsCons(lay, m, acts[..n]);
      assert acts[..n][1..] == acts[1..][..n - 1];
    } else {
      assert acts[..0] == [] && acts[1..] == [];
    }
  }

  /** A group of them moves it as the run of their writes does. */
  lemma {:induction false} ActsMove(lay: Layout, rows: map<Uuid, Row>, m: Marks, acts: seq<Act>, ot: O.Table, s: O.State)
    requires ValidDef(lay.def) && TableOk(MemTable(lay.def, rows)) && StandsFor(lay, rows, m, ot, s)
    requires LiveGroup(MemTable(lay.def, rows), acts).Some?
    ensures RowsFit(lay.def, acts)
    ensures StandsFor(lay, LiveGroup(MemTable(lay.def, rows), acts).value.0.rows, MarkActs(lay, m, acts), ot, O.Run(ot, s, StepsOf(lay.def, acts)))
    decreases |acts|
  {
    if acts != [] {
      var (t', op) := LiveAct(MemTable(lay.def, rows), acts[0]).value;
      ActMoves(lay, rows, m, acts[0], ot, s);
      ActReplays(MemTable(lay.def, rows), acts[0]);
      var s' := O.Do(ot, s, StepOf(lay.def, acts[0]));
      ActsMove(lay, t'.rows, MarkAct(lay, m, acts[0]), acts[1..], ot, s');
      forall i | 0 <= i < |acts| && acts[i].PutRow? ensures RowOf(lay.def, acts[i].row) {
        if i > 0 { assert acts[1..][i - 1] == acts[i]; }
      }
      assert StepsOf(lay.def, acts)[1..] == StepsOf(lay.def, acts[1..]);
      MarkActsCons(lay, m, acts);
    }
  }

  /** The overlay that a table's shards stand for. */
  ghost predicate Overlays(t: Table, ot: O.Table, s: O.State)
    requires t.Valid()
    reads t
  {
    StandsFor(t.lay, t.Rows(), t.DirtyMarks(), ot, s)
  }

  /** A new table stands for an overlay with nothing in it. */
  lemma NewTableOverlays(lay: Layout, n: nat, ot: O.Table)
    requires SameTable(lay, n, ot)
    ensures StandsFor(lay, map[], Marks(seq(n, _ => []), seq(n, _ => []), 0), ot, O.Rebuilt(ot, map[]))
    ensures O.Inv(ot, O.Rebuilt(ot, map[]))
  {
    O.RebuiltInv(ot, map[]);
  }

  /** The table's rows and marks are those that the acts, in turn, leave, under one record:
      an envelope, or the bare mutation of a lone act. */
  twostate predicate Wrote(t: Table, acts: seq<Act>)
    requires t.Valid() && old(t.Valid())
    reads t, t.journal
  {
    var did := LiveGroup(MemTable(t.lay.def, old(t.Rows())), acts);
    && did.Some? && did.value.0.rows == t.Rows() && t.DirtyMarks() == MarkActs(t.lay, old(t.DirtyMarks()), acts)
    && RecordOf(t.id, t.journal.live, old(t.journal.log), acts, did.value.1, t.journal.log)
  }

  ghost predicate RecordOf(id: nat, live: bool, before: seq<Record>, acts: seq<Act>, ops: seq<Op>, after: seq<Record>) {
    if !live || acts == [] then after == before
    else after == before + [Txn(OnTable(id, ops))] || (|ops| == 1 && after == before + [Single(Mutation(id, ops[0]))])
  }

  /** One act is a group of one. */
  lemma OneWrites(lay: Layout, rows: map<Uuid, Row>, marks: Marks, act: Act)
    requires ValidDef(lay.def) && LiveAct(MemTable(lay.def, rows), act).Some?
    ensures LiveGroup(MemTable(lay.def, rows), [act]).Some?
    ensures LiveGroup(MemTable(lay.def, rows), [act]).value.0 == LiveAct(MemTable(lay.def, rows), act).value.0
    ensures LiveGroup(MemTable(lay.def, rows), [act]).value.1 == [LiveAct(MemTable(lay.def, rows), act).value.1]
    ensures MarkActs(lay, marks, [act]) == MarkAct(lay, marks, act)
  {
    assert [act][1..] == [] && [act][..0] == [];
    assert LiveGroup(LiveAct(MemTable(lay.def, rows), act).value.0, []).Some?;
  }

  twostate lemma UntouchedWrote(t: Table)
    requires t.Valid() && old(t.Valid()) && t.shards == old(t.shards) && t.readDirty == old(t.readDirty) && t.journal.log == old(t.journal.log)
    ensures Wrote(t, [])
  {}

  /** A write moves the overlay its table stands for as the run of the protocol's writes
      does, and so keeps the protocol's invariant. */
  twostate lemma WritesMoveOverlay(t: Table, acts: seq<Act>, ot: O.Table, s: O.State)
    requires t.Valid() && old(t.Valid()) && old(Overlays(t, ot, s)) && Wrote(t, acts)
    ensures RowsFit(t.lay.def, acts) && Overlays(t, ot, O.Run(ot, s, StepsOf(t.lay.def, acts)))
    ensures O.Inv(ot, s) ==> O.Inv(ot, O.Run(ot, s, StepsOf(t.lay.def, acts)))
  {
    ContentsTyped(t.lay, old(t.shards));
    ActsMove(t.lay, old(t.Rows()), old(t.DirtyMarks()), acts, ot, s);
    if O.Inv(ot, s) { O.RunKeepsInv(ot, s, StepsOf(t.lay.def, acts)); }
  }

  /** For a lone statement, the one step. */
  twostate lemma TookMovesOverlay(t: Table, act: Act, ot: O.Table, s: O.State)
    requires t.Valid() && old(t.Valid()) && old(Overlays(t, ot, s)) && t.Took(act)
    ensures (act.PutRow? ==> RowOf(t.lay.def, act.row)) && Overlays(t, ot, O.Do(ot, s, StepOf(t.lay.def, act)))
  {
    ContentsTyped(t.lay, old(t.shards));
    ActMoves(t.lay, old(t.Rows()), old(t.DirtyMarks()), act, ot, s);
  }

  /** So an indexed read selects, with no merge in between, what a scan of the table's rows
      selects. */
  lemma IndexedReadSeesRows(t: Table, ot: O.Table, s: O.State, acc: seq<O.Access>, where: Row -> bool)
    requires t.Valid() && Overlays(t, ot, s) && O.Inv(ot, s) && O.ValidAccess(ot, acc) && O.Implied(ot, acc, where)
    ensures O.Selected(ot, s, acc, where) == Matching(t.Rows(), where)
  {
    O.InvSelects(ot, s, acc, where);
  }

  // ---- the merge's last steps, on the table ----

  function Tail(s: Shard, cut: O.Cut): Shard
    requires cut.read <= |s.dirtyRead| && cut.del <= |s.dirtyDel|
  {
    Shard(s.rows, s.pk, s.live, s.bytes, s.dirtyRead[cut.read..], s.dirtyDel[cut.del..])
  }

  lemma TailKeeps(lay: Layout, ss: seq<Shard>, i: nat, cut: O.Cut, count: int)
    requires ShardsOk(lay, ss) && i < |ss| && cut.read <= |ss[i].dirtyRead| && cut.del <= |ss[i].dirtyDel|
    ensures var ss' := ss[i := Tail(ss[i], cut)];
            && ShardsOk(lay, ss') && Contents(lay, ss') == Contents(lay, ss)
            && MarksOf(ss', count).read == MarksOf(ss, count).read[i := ss[i].dirtyRead[cut.read..]]
            && MarksOf(ss', count).del == MarksOf(ss, count).del[i := ss[i].dirtyDel[cut.del..]]
  {
    var s, s' := ss[i], Tail(ss[i], cut);
    assert ShardFits(lay, ss, i);
    forall k ensures RowAt(s', k) == RowAt(s, k) && KeyFound(lay.def, s', k) { assert KeyFound(lay.def, s, k); }
    forall j ensures SlotFound(lay.def, s', j) { assert SlotFound(lay.def, s, j); }
    ShardKeeps(lay, ss, i, s');
  }

  /** The merge forgets the marks it has folded in: those past its snapshot stay. */
  method DropMarks(t: Table, i: nat, cut: O.Cut, ghost ot: O.Table, ghost s: O.State)
    requires t.Valid() && Overlays(t, ot, s) && O.Inv(ot, s)
    requires s.merger.Dropping? && i in s.merger.drops && s.merger.drops[i] == cut
    modifies t`shards
    ensures t.Valid() && t.Rows() == old(t.Rows()) && Overlays(t, ot, O.Do(ot, s, O.Drop(i)))
  {
    assert O.CutOf(s.merger, i) == cut;
    assert t.shards[i].dirtyRead == t.DirtyMarks().read[i] && t.shards[i].dirtyDel == t.DirtyMarks().del[i];
    TailKeeps(t.lay, t.shards, i, cut, t.readDirty);
    t.shards := t.shards[i := Tail(t.shards[i], cut)];
  }

  /** Its counter follows in a step of its own. */
  method SettleCount(t: Table, nr: nat, ghost ot: O.Table, ghost s: O.State)
    requires t.Valid() && Overlays(t, ot, s) && s.merger.Owing? && s.merger.cut.read == nr
    modifies t`readDirty
    ensures t.Valid() && t.Rows() == old(t.Rows()) && Overlays(t, ot, O.Do(ot, s, O.Settle))
  {
    t.readDirty := t.readDirty - nr;
  }
}
