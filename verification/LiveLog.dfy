/** What the live write paths journal, and that replay undoes nothing of it: every
    record they can produce follows from the memory it was produced on
    (store_write.go, txn.go, catalog.go, exec_write.go). */
module LiveLog {
  import opened Wrappers
  import opened ByteStrings
  import opened Values
  import opened Codec
  import opened Records
  import opened Interpreters

  /** One row's effect, as execution resolved it. */
  datatype Act =
    | PutRow(row: Row)
    | SetRow(pk: Uuid, ords: seq<nat>, vals: Row)
    | DropRow(pk: Uuid)

  datatype Request =
    | One(id: nat, act: Act)
    | Group(id: nat, acts: seq<Act>)
    | MakeTable(def: TableDef)
    | RemoveTable(name: Bytes)

  // ---- updates: the row is changed in place, its touched cells are journaled ----

  /** The SET assignments applied in statement order; a repeated column keeps the last. */
  function Assigned(row: Row, ords: seq<nat>, vals: Row): (r: Row)
    requires |ords| == |vals| && forall i :: 0 <= i < |ords| ==> ords[i] < |row|
    ensures |r| == |row|
    decreases |ords|
  {
    if ords == [] then row else Assigned(row[ords[0] := vals[0]], ords[1..], vals[1..])
  }

  lemma {:induction false} AssignedElsewhere(row: Row, ords: seq<nat>, vals: Row, i: nat)
    requires |ords| == |vals| && forall k :: 0 <= k < |ords| ==> ords[k] < |row|
    requires i < |row| && i !in ords
    ensures Assigned(row, ords, vals)[i] == row[i]
    decreases |ords|
  {
    if ords != [] {
      AssignedElsewhere(row[ords[0] := vals[0]], ords[1..], vals[1..], i);
    }
  }

  lemma {:induction false} AssignedFits(def: TableDef, row: Row, ords: seq<nat>, vals: Row)
    requires RowOf(def, row) && SetFitsTable(def, ords, vals)
    ensures |ords| == |vals| && (forall k :: 0 <= k < |ords| ==> ords[k] < |row|)
    ensures RowOf(def, Assigned(row, ords, vals))
    decreases |ords|
  {
    if ords != [] {
      var row' := row[ords[0] := vals[0]];
      forall i | 0 <= i < |row'| ensures ValidValue(def.columns[i], row'[i]) {}
      AssignedFits(def, row', ords[1..], vals[1..]);
    }
  }

  /** Each assignment names a column other than the primary key and fits it. */
  predicate SetFitsTable(def: TableDef, ords: seq<nat>, vals: Row) {
    && |ords| == |vals|
    && forall i :: 0 <= i < |ords| ==>
         ords[i] < |def.columns| && ords[i] != PkOrd(def.columns) && ValidValue(def.columns[ords[i]], vals[i])
  }

  /** `encodeUpdateMutation` reads each journaled cell from the updated row. */
  function JournalSets(row: Row, ords: seq<nat>): seq<Assign>
    requires forall i :: 0 <= i < |ords| ==> ords[i] < |row|
  {
    seq(|ords|, i requires 0 <= i < |ords| => Assign(ords[i], row[ords[i]]))
  }

  lemma {:induction false} JournalRestores(row: Row, target: Row, ords: seq<nat>)
    requires |row| == |target| && forall i :: 0 <= i < |ords| ==> ords[i] < |row|
    requires forall i :: 0 <= i < |row| && i !in ords ==> row[i] == target[i]
    ensures SetCells(row, JournalSets(target, ords)) == target
    decreases |ords|
  {
    if ords == [] {
      assert row == target;
    } else {
      var row' := row[ords[0] := target[ords[0]]];
      assert JournalSets(target, ords)[1..] == JournalSets(target, ords[1..]);
      forall i | 0 <= i < |row'| && i !in ords[1..] ensures row'[i] == target[i] {
        assert i == ords[0] || i !in ords;
      }
      JournalRestores(row', target, ords[1..]);
    }
  }

  /** Replaying an update's journal on the old row gives the updated row, repeated SET
      columns included. */
  lemma JournalReplays(def: TableDef, row: Row, ords: seq<nat>, vals: Row)
    requires ValidDef(def) && RowOf(def, row) && SetFitsTable(def, ords, vals)
    ensures |ords| == |vals| && forall k :: 0 <= k < |ords| ==> ords[k] < |row|
    ensures var row' := Assigned(row, ords, vals);
            && SetCells(row, JournalSets(row', ords)) == row'
            && SetsValid(def.columns, JournalSets(row', ords))
            && RowOf(def, row') && RowPk(def, row') == RowPk(def, row)
  {
    AssignedFits(def, row, ords, vals);
    var row' := Assigned(row, ords, vals);
    forall i | 0 <= i < |row| && i !in ords ensures row[i] == row'[i] {
      AssignedElsewhere(row, ords, vals, i);
    }
    JournalRestores(row, row', ords);
    AssignedElsewhere(row, ords, vals, PkOrd(def.columns));
  }

  // ---- live statements ----

  /** One row's effect on a table, with the mutation journaled for it; None when the
      statement is refused (duplicate key, cell that does not fit) or touches no row. */
  function LiveAct(t: MemTable, act: Act): Option<(MemTable, Op)> {
    if !ValidDef(t.def) then None
    else
      match act
      case PutRow(row) =>
        if !RowOf(t.def, row) || RowPk(t.def, row) in t.rows then None
        else Some((MemTable(t.def, t.rows[RowPk(t.def, row) := row]), Insert(row)))
      case SetRow(pk, ords, vals) =>
        if pk !in t.rows || ords == [] || |t.rows[pk]| != |t.def.columns| || !SetFitsTable(t.def, ords, vals) then None
        else
          var row := Assigned(t.rows[pk], ords, vals);
          Some((MemTable(t.def, t.rows[pk := row]), Update(Id(pk), JournalSets(row, ords))))
      case DropRow(pk) =>
        if pk !in t.rows then None else Some((MemTable(t.def, t.rows - {pk}), Delete(Id(pk))))
  }

  /** An atomic group: each effect sees the ones before it; any refusal refuses all. */
  function LiveGroup(t: MemTable, acts: seq<Act>): (r: Option<(MemTable, seq<Op>)>)
    ensures r.Some? ==> r.value.0.def == t.def
    decreases |acts|
  {
    if acts == [] then Some((t, []))
    else
      match LiveAct(t, acts[0])
      case None => None
      case Some((t', op)) =>
        match LiveGroup(t', acts[1..])
        case None => None
        case Some((t'', ops)) => Some((t'', [op] + ops))
  }

  function OnTable(id: nat, ops: seq<Op>): seq<Mutation> {
    seq(|ops|, i requires 0 <= i < |ops| => Mutation(id, ops[i]))
  }

  /** The companion's own tables, in any letter case. */
  predicate Reserved(name: Bytes) {
    |name| >= 4 && name[0] == 95 && (name[1] == 104 || name[1] == 72) && (name[2] == 122 || name[2] == 90) && name[3] == 95
  }

  function LowerCase(c: Byte): Byte {
    if 'A' as int <= c <= 'Z' as int then c + 32 else c
  }

  /** Names beginning with "_hz_". */
  lemma ReservedIs(name: Bytes)
    ensures Reserved(name) <==>
              |name| >= 4 && forall i :: 0 <= i < 4 ==> LowerCase(name[i]) == "_hz_"[i] as int
  {}

  /** A live statement: the new memory and the record journaled before it is applied.
      `slots` is the next unused table id; bootstrap tables are not dropped. */
  function Live(m: Memory, slots: nat, kept: set<Bytes>, req: Request): Option<(Memory, Record)> {
    match req
    case One(id, act) =>
      if id !in m.byId then None
      else
        (match LiveAct(m.byId[id], act)
         case None => None
         case Some((t, op)) => Some((m.(byId := m.byId[id := t]), Single(Mutation(id, op)))))
    case Group(id, acts) =>
      if id !in m.byId || acts == [] then None
      else
        (match LiveGroup(m.byId[id], acts)
         case None => None
         case Some((t, ops)) => Some((m.(byId := m.byId[id := t]), Txn(OnTable(id, ops)))))
    case MakeTable(def) =>
      if def.name in m.byName || Reserved(def.name) || slots > 0xFFFF || !ValidDef(def) then None
      else Some((WithTable(m, slots, def), CreateTable(slots, def)))
    case RemoveTable(name) =>
      if name !in m.byName || name in kept then None else Some((WithoutTable(m, name), DropTable(name)))
  }

  ghost predicate SlotsFree(m: Memory, slots: nat) {
    forall id :: id in m.byId ==> id < slots
  }

  // ---- what a live statement does, on rows ----

  /** `row'` is `row` with each assigned column at its last value. */
  ghost predicate Overwrites(row: Row, ords: seq<nat>, vals: Row, row': Row) {
    && |row'| == |row| && |ords| == |vals|
    && (forall o :: 0 <= o < |row| && o !in ords ==> row'[o] == row[o])
    && forall i {:trigger ords[i]} :: 0 <= i < |ords| && ords[i] !in ords[i + 1..] ==> ords[i] < |row| && row'[ords[i]] == vals[i]
  }

  lemma {:induction false} AssignedOverwrites(row: Row, ords: seq<nat>, vals: Row)
    requires |ords| == |vals| && forall i :: 0 <= i < |ords| ==> ords[i] < |row|
    ensures Overwrites(row, ords, vals, Assigned(row, ords, vals))
    decreases |ords|
  {
    var row' := Assigned(row, ords, vals);
    forall o | 0 <= o < |row| && o !in ords ensures row'[o] == row[o] { AssignedElsewhere(row, ords, vals, o); }
    if ords != [] {
      AssignedOverwrites(row[ords[0] := vals[0]], ords[1..], vals[1..]);
      forall i | 0 <= i < |ords| && ords[i] !in ords[i + 1..] ensures row'[ords[i]] == vals[i] {
        assert ords[1..][i..] == ords[i + 1..];
        if i == 0 {
          AssignedElsewhere(row[ords[0] := vals[0]], ords[1..], vals[1..], ords[0]);
        } else {
          assert ords[1..][i - 1] == ords[i];
        }
      }
    }
  }

  /** That says everything about the row. */
  lemma {:induction false} OverwritesUnique(row: Row, ords: seq<nat>, vals: Row, a: Row, b: Row)
    requires Overwrites(row, ords, vals, a) && Overwrites(row, ords, vals, b)
    ensures a == b
  {
    forall o | 0 <= o < |row| ensures a[o] == b[o] {
      if o in ords { var i := LastOf(ords, o); }
    }
  }

  lemma LastOf(ords: seq<nat>, o: nat) returns (i: nat)
    requires o in ords
    ensures i < |ords| && ords[i] == o && o !in ords[i + 1..]
  {
    i :| 0 <= i < |ords| && ords[i] == o;
    while o in ords[i + 1..]
      invariant i < |ords| && ords[i] == o
      decreases |ords| - i
    {
      var k :| 0 <= k < |ords[i + 1..]| && ords[i + 1..][k] == o;
      i := i + 1 + k;
    }
  }

  /** `rows'` differs from `rows` under one key only, where it holds `row`. */
  ghost predicate DiffersAt(rows: map<Uuid, Row>, pk: Uuid, row: Option<Row>, rows': map<Uuid, Row>) {
    && (pk in rows' <==> row.Some?) && (row.Some? ==> rows'[pk] == row.value)
    && forall k {:trigger k in rows'} {:trigger k in rows} :: k != pk ==> (k in rows' <==> k in rows) && (k in rows ==> rows'[k] == rows[k])
  }

  /** One row's effect: what it asks of the rows, the rows it leaves, and its journal entry. */
  ghost predicate Effect(def: TableDef, rows: map<Uuid, Row>, act: Act, rows': map<Uuid, Row>, op: Op)
    requires ValidDef(def)
  {
    match act
    case PutRow(row) =>
      && RowOf(def, row) && RowPk(def, row) !in rows
      && DiffersAt(rows, RowPk(def, row), Some(row), rows') && op == Insert(row)
    case SetRow(pk, ords, vals) =>
      && pk in rows && ords != [] && SetFitsTable(def, ords, vals) && |rows[pk]| == |def.columns|
      && pk in rows' && DiffersAt(rows, pk, Some(rows'[pk]), rows') && Overwrites(rows[pk], ords, vals, rows'[pk])
      && op.Update? && op.pk == Id(pk) && |op.sets| == |ords|
      && forall i :: 0 <= i < |ords| ==> ords[i] < |rows'[pk]| && op.sets[i] == Assign(ords[i], rows'[pk][ords[i]])
    case DropRow(pk) =>
      pk in rows && DiffersAt(rows, pk, None, rows') && op == Delete(Id(pk))
  }

  /** A live act has exactly that effect, and is refused when nothing can have it. */
  lemma LiveActDoes(t: MemTable, act: Act, rows': map<Uuid, Row>, op: Op)
    requires ValidDef(t.def)
    ensures LiveAct(t, act) == Some((MemTable(t.def, rows'), op)) <==> Effect(t.def, t.rows, act, rows', op)
  {
    match act
    case PutRow(row) => assert Effect(t.def, t.rows, act, rows', op) ==> rows' == t.rows[RowPk(t.def, row) := row];
    case SetRow(pk, ords, vals) => SetRowDoes(t, pk, ords, vals, rows', op);
    case DropRow(pk) => assert Effect(t.def, t.rows, act, rows', op) ==> rows' == t.rows - {pk};
  }

  lemma SetRowDoes(t: MemTable, pk: Uuid, ords: seq<nat>, vals: Row, rows': map<Uuid, Row>, op: Op)
    requires ValidDef(t.def)
    ensures LiveAct(t, SetRow(pk, ords, vals)) == Some((MemTable(t.def, rows'), op)) <==> Effect(t.def, t.rows, SetRow(pk, ords, vals), rows', op)
  {
    if pk in t.rows && ords != [] && |t.rows[pk]| == |t.def.columns| && SetFitsTable(t.def, ords, vals) {
      var row := Assigned(t.rows[pk], ords, vals);
      AssignedOverwrites(t.rows[pk], ords, vals);
      if Effect(t.def, t.rows, SetRow(pk, ords, vals), rows', op) {
        OverwritesUnique(t.rows[pk], ords, vals, row, rows'[pk]);
        assert rows' == t.rows[pk := row];
        assert op.sets == JournalSets(row, ords);
      }
    }
  }

  /** A group's effects one after another: `states` are the rows before, between and after. */
  ghost predicate Chain(def: TableDef, acts: seq<Act>, states: seq<map<Uuid, Row>>, ops: seq<Op>)
    requires ValidDef(def)
  {
    && |states| == |acts| + 1 && |ops| == |acts|
    && forall i {:trigger Link(def, acts, states, ops, i)} :: 0 <= i < |acts| ==> Link(def, acts, states, ops, i)
  }

  ghost predicate Link(def: TableDef, acts: seq<Act>, states: seq<map<Uuid, Row>>, ops: seq<Op>, i: nat)
    requires ValidDef(def)
  {
    i < |acts| && i < |ops| && i + 1 < |states| && Effect(def, states[i], acts[i], states[i + 1], ops[i])
  }

  ghost predicate Chained(def: TableDef, rows: map<Uuid, Row>, acts: seq<Act>, rows': map<Uuid, Row>, ops: seq<Op>)
    requires ValidDef(def)
  {
    exists states :: Chain(def, acts, states, ops) && states[0] == rows && states[|acts|] == rows'
  }

  /** A live group leaves the last of such a chain, and is refused when there is none. */
  lemma LiveGroupDoes(t: MemTable, acts: seq<Act>, rows': map<Uuid, Row>, ops: seq<Op>)
    requires ValidDef(t.def)
    ensures LiveGroup(t, acts) == Some((MemTable(t.def, rows'), ops)) <==> Chained(t.def, t.rows, acts, rows', ops)
  {
    if LiveGroup(t, acts) == Some((MemTable(t.def, rows'), ops)) { var states := GroupHasChain(t, acts, rows', ops); }
    if Chained(t.def, t.rows, acts, rows', ops) {
      var states :| Chain(t.def, acts, states, ops) && states[0] == t.rows && states[|acts|] == rows';
      ChainIsGroup(t, acts, states, ops);
    }
  }

  lemma {:induction false} GroupHasChain(t: MemTable, acts: seq<Act>, rows': map<Uuid, Row>, ops: seq<Op>) returns (states: seq<map<Uuid, Row>>)
    requires ValidDef(t.def) && LiveGroup(t, acts) == Some((MemTable(t.def, rows'), ops))
    ensures Chain(t.def, acts, states, ops) && states[0] == t.rows && states[|acts|] == rows'
    decreases |acts|
  {
    if acts == [] {
      states := [t.rows];
    } else {
      var (mid, op) := LiveAct(t, acts[0]).value;
      LiveActDoes(t, acts[0], mid.rows, op);
      var rest := GroupHasChain(mid, acts[1..], rows', ops[1..]);
      states := [t.rows] + rest;
      forall i | 0 <= i < |acts| ensures Link(t.def, acts, states, ops, i) {
        if i > 0 { assert Link(t.def, acts[1..], rest, ops[1..], i - 1); }
      }
    }
  }

  lemma {:induction false} ChainIsGroup(t: MemTable, acts: seq<Act>, states: seq<map<Uuid, Row>>, ops: seq<Op>)
    requires ValidDef(t.def) && Chain(t.def, acts, states, ops) && states[0] == t.rows
    ensures LiveGroup(t, acts) == Some((MemTable(t.def, states[|acts|]), ops))
    decreases |acts|
  {
    if acts != [] {
      assert Link(t.def, acts, states, ops, 0);
      LiveActDoes(t, acts[0], states[1], ops[0]);
      forall i | 0 <= i < |acts[1..]| ensures Link(t.def, acts[1..], states[1..], ops[1..], i) {
        assert Link(t.def, acts, states, ops, i + 1);
      }
      ChainIsGroup(MemTable(t.def, states[1]), acts[1..], states[1..], ops[1..]);
      assert ops == [ops[0]] + ops[1..];
    }
  }

  /** Table `id` holds these rows, and nothing else of the memory has changed. */
  ghost predicate OnlyRows(m: Memory, id: nat, rows: map<Uuid, Row>, m': Memory) {
    && id in m.byId && id in m'.byId && m'.byId[id].def == m.byId[id].def && m'.byId[id].rows == rows && m'.byName == m.byName
    && forall k {:trigger k in m'.byId} {:trigger k in m.byId} :: k != id ==> (k in m'.byId <==> k in m.byId) && (k in m.byId ==> m'.byId[k] == m.byId[k])
  }

  /** What each request asks of the memory, the memory it leaves and the record it journals. */
  ghost predicate RequestEffect(m: Memory, slots: nat, kept: set<Bytes>, req: Request, m': Memory, rec: Record) {
    match req
    case One(id, act) =>
      && id in m.byId && ValidDef(m.byId[id].def) && id in m'.byId && OnlyRows(m, id, m'.byId[id].rows, m')
      && rec.Single? && rec.m.table == id && Effect(m.byId[id].def, m.byId[id].rows, act, m'.byId[id].rows, rec.m.op)
    case Group(id, acts) =>
      && acts != [] && id in m.byId && ValidDef(m.byId[id].def) && id in m'.byId && OnlyRows(m, id, m'.byId[id].rows, m')
      && rec.Txn? && (forall i :: 0 <= i < |rec.ms| ==> rec.ms[i].table == id)
      && Chained(m.byId[id].def, m.byId[id].rows, acts, m'.byId[id].rows, OpsIn(rec.ms))
    case MakeTable(def) =>
      && def.name !in m.byName && !Reserved(def.name) && slots <= 0xFFFF && ValidDef(def)
      && slots in m'.byId && m'.byId[slots] == MemTable(def, map[]) && def.name in m'.byName && m'.byName[def.name] == slots
      && (forall k :: k != slots ==> (k in m'.byId <==> k in m.byId) && (k in m.byId ==> m'.byId[k] == m.byId[k]))
      && (forall n :: n != def.name ==> (n in m'.byName <==> n in m.byName) && (n in m.byName ==> m'.byName[n] == m.byName[n]))
      && rec == CreateTable(slots, def)
    case RemoveTable(name) =>
      && name in m.byName && name !in kept && name !in m'.byName && m.byName[name] !in m'.byId
      && (forall k :: k != m.byName[name] ==> (k in m'.byId <==> k in m.byId) && (k in m.byId ==> m'.byId[k] == m.byId[k]))
      && (forall n :: n != name ==> (n in m'.byName <==> n in m.byName) && (n in m.byName ==> m'.byName[n] == m.byName[n]))
      && rec == DropTable(name)
  }

  function OpsIn(muts: seq<Mutation>): seq<Op> {
    seq(|muts|, i requires 0 <= i < |muts| => muts[i].op)
  }

  /** A live statement leaves exactly that memory and journals exactly that record, and is
      refused when nothing can have its effect. */
  lemma LiveDoes(m: Memory, slots: nat, kept: set<Bytes>, req: Request, m': Memory, rec: Record)
    requires MemoryOk(m) && SlotsFree(m, slots)
    ensures Live(m, slots, kept, req) == Some((m', rec)) <==> RequestEffect(m, slots, kept, req, m', rec)
  {
    match req
    case One(id, act) => OneDoes(m, slots, kept, id, act, m', rec);
    case Group(id, acts) => GroupDoes(m, slots, kept, id, acts, m', rec);
    case MakeTable(def) =>
      if RequestEffect(m, slots, kept, req, m', rec) {
        assert m'.byId == m.byId[slots := MemTable(def, map[])];
        assert m'.byName == m.byName[def.name := slots];
      }
    case RemoveTable(name) =>
      if RequestEffect(m, slots, kept, req, m', rec) {
        assert m'.byId == m.byId - {m.byName[name]};
        assert m'.byName == m.byName - {name};
      }
  }

  lemma OneDoes(m: Memory, slots: nat, kept: set<Bytes>, id: nat, act: Act, m': Memory, rec: Record)
    requires MemoryOk(m)
    ensures Live(m, slots, kept, One(id, act)) == Some((m', rec)) <==> RequestEffect(m, slots, kept, One(id, act), m', rec)
  {
    if id in m.byId {
      assert TableListed(m, id);
      if LiveAct(m.byId[id], act).Some? {
        var (t', op) := LiveAct(m.byId[id], act).value;
        LiveActDoes(m.byId[id], act, t'.rows, op);
      }
      if RequestEffect(m, slots, kept, One(id, act), m', rec) { EffectIsLive(m, slots, kept, id, act, m', rec); }
    }
  }

  lemma EffectIsLive(m: Memory, slots: nat, kept: set<Bytes>, id: nat, act: Act, m': Memory, rec: Record)
    requires RequestEffect(m, slots, kept, One(id, act), m', rec)
    ensures Live(m, slots, kept, One(id, act)) == Some((m', rec))
  {
    var rows', op := m'.byId[id].rows, rec.m.op;
    assert Effect(m.byId[id].def, m.byId[id].rows, act, rows', op);
    LiveActDoes(m.byId[id], act, rows', op);
    assert m' == m.(byId := m.byId[id := MemTable(m.byId[id].def, rows')]);
    assert rec == Single(Mutation(id, op));
  }

  lemma GroupDoes(m: Memory, slots: nat, kept: set<Bytes>, id: nat, acts: seq<Act>, m': Memory, rec: Record)
    requires MemoryOk(m)
    ensures Live(m, slots, kept, Group(id, acts)) == Some((m', rec)) <==> RequestEffect(m, slots, kept, Group(id, acts), m', rec)
  {
    if id in m.byId && acts != [] {
      assert TableListed(m, id);
      var t := m.byId[id];
      if LiveGroup(t, acts).Some? {
        var (t', ops) := LiveGroup(t, acts).value;
        LiveGroupDoes(t, acts, t'.rows, ops);
        assert OpsIn(OnTable(id, ops)) == ops;
      }
      if RequestEffect(m, slots, kept, Group(id, acts), m', rec) { ChainIsLive(m, slots, kept, id, acts, m', rec); }
    }
  }

  lemma ChainIsLive(m: Memory, slots: nat, kept: set<Bytes>, id: nat, acts: seq<Act>, m': Memory, rec: Record)
    requires RequestEffect(m, slots, kept, Group(id, acts), m', rec)
    ensures Live(m, slots, kept, Group(id, acts)) == Some((m', rec))
  {
    var t, rows', ops := m.byId[id], m'.byId[id].rows, OpsIn(rec.ms);
    LiveGroupDoes(t, acts, rows', ops);
    assert m' == m.(byId := m.byId[id := MemTable(t.def, rows')]);
    assert rec.ms == OnTable(id, ops);
  }

  // ---- every live record replays ----

  lemma ActReplays(t: MemTable, act: Act)
    requires TableOk(t) && LiveAct(t, act).Some?
    ensures var (t', op) := LiveAct(t, act).value;
            Acceptable(t.def, op) && NoConflict(t, op) && ApplyOp(t, op) == Some(t'.rows) && t'.def == t.def && TableOk(t')
  {
    match act
    case PutRow(row) =>
    case SetRow(pk, ords, vals) => JournalReplays(t.def, t.rows[pk], ords, vals);
    case DropRow(pk) =>
  }

  lemma OneReplays(m: Memory, id: nat, act: Act)
    requires MemoryOk(m) && id in m.byId && LiveAct(m.byId[id], act).Some?
    ensures var (t, op) := LiveAct(m.byId[id], act).value;
            MutationFollows(m, Mutation(id, op)) && ApplyMutation(m, Mutation(id, op)) == Some(m.(byId := m.byId[id := t]))
  {
    assert TableListed(m, id);
    ActReplays(m.byId[id], act);
  }

  lemma OneKeepsMemory(m: Memory, id: nat, t: MemTable)
    requires MemoryOk(m) && id in m.byId && TableOk(t) && t.def == m.byId[id].def
    ensures MemoryOk(m.(byId := m.byId[id := t]))
  {
    var m' := m.(byId := m.byId[id := t]);
    forall k ensures TableListed(m', k) { assert TableListed(m, k) && TableListed(m, id); }
    forall name ensures NameListed(m', name) { assert NameListed(m, name); }
  }

  lemma {:induction false} GroupReplays(m: Memory, id: nat, acts: seq<Act>)
    requires MemoryOk(m) && id in m.byId && LiveGroup(m.byId[id], acts).Some?
    ensures var (t, ops) := LiveGroup(m.byId[id], acts).value;
            && AllFollow(m, OnTable(id, ops)) && ApplyAll(m, OnTable(id, ops)) == Some(m.(byId := m.byId[id := t]))
            && TableOk(t)
    decreases |acts|
  {
    assert TableListed(m, id);
    if acts == [] {
      assert m.byId[id := m.byId[id]] == m.byId;
    } else {
      var (t', op) := LiveAct(m.byId[id], acts[0]).value;
      ActReplays(m.byId[id], acts[0]);
      OneReplays(m, id, acts[0]);
      OneKeepsMemory(m, id, t');
      var m' := m.(byId := m.byId[id := t']);
      GroupReplays(m', id, acts[1..]);
      var (t, ops) := LiveGroup(t', acts[1..]).value;
      assert OnTable(id, [op] + ops)[1..] == OnTable(id, ops);
      assert m'.byId[id := t] == m.byId[id := t];
    }
  }

  /** A record any live statement journals follows from the memory it ran on, and replay
      reaches the memory the statement left. */
  lemma LiveReplays(m: Memory, slots: nat, kept: set<Bytes>, req: Request)
    requires MemoryOk(m) && SlotsFree(m, slots) && Live(m, slots, kept, req).Some?
    ensures var (m', r) := Live(m, slots, kept, req).value;
            Follows(m, r) && ApplyRecord(m, r) == Some(m') && MemoryOk(m')
  {
    match req
    case One(id, act) =>
      OneReplays(m, id, act);
      assert TableListed(m, id);
      ActReplays(m.byId[id], act);
      OneKeepsMemory(m, id, LiveAct(m.byId[id], act).value.0);
    case Group(id, acts) =>
      GroupReplays(m, id, acts);
      OneKeepsMemory(m, id, LiveGroup(m.byId[id], acts).value.0);
    case MakeTable(def) => TableMade(m, slots, def);
    case RemoveTable(name) => TableRemoved(m, name);
  }

  lemma LiveTakesSlot(m: Memory, slots: nat, kept: set<Bytes>, req: Request)
    requires SlotsFree(m, slots) && Live(m, slots, kept, req).Some?
    ensures SlotsFree(Live(m, slots, kept, req).value.0, slots + if req.MakeTable? then 1 else 0)
    ensures Live(m, slots, kept, req).value.1.DropTable? ==> Live(m, slots, kept, req).value.1.name !in kept
  {}

  lemma TableMade(m: Memory, id: nat, def: TableDef)
    requires MemoryOk(m) && ValidDef(def) && id !in m.byId && def.name !in m.byName
    ensures MemoryOk(WithTable(m, id, def))
  {
    var m' := WithTable(m, id, def);
    forall k ensures TableListed(m', k) { assert TableListed(m, k); }
    forall name ensures NameListed(m', name) { assert NameListed(m, name); }
  }

  lemma TableRemoved(m: Memory, name: Bytes)
    requires MemoryOk(m)
    ensures MemoryOk(WithoutTable(m, name))
  {
    var m' := WithoutTable(m, name);
    forall k ensures TableListed(m', k) { assert TableListed(m, k) && NameListed(m, name); }
    forall n ensures NameListed(m', n) {
      assert NameListed(m, n) && NameListed(m, name);
    }
  }
}
