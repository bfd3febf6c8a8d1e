/** The two readers of one log record: replay into memory (db_replay.go) and the drain
    into the SQLite mirror (drain.go), with the reload that turns the mirror back into
    memory (recover_sqlite.go). The drain's SQL statements are map operations. */
module Interpreters {
  import opened Wrappers
  import opened ByteStrings
  import opened Values
  import opened Codec
  import opened Records

  // ---- table definitions ----

  function PkOrd(cols: seq<Column>): (i: nat)
    ensures i <= |cols|
    ensures i < |cols| ==> cols[i].pk
  {
    if cols == [] then 0 else if cols[0].pk then 0 else 1 + PkOrd(cols[1..])
  }

  /** What `resolveSchema` demands of the primary key, over declared types: one UUID
      column, present in every row. */
  predicate ValidDef(def: TableDef) {
    var p := PkOrd(def.columns);
    && p < |def.columns| && def.columns[p].typ == TypeUuid && !def.columns[p].nullable
    && (forall i :: 0 <= i < |def.columns| ==> def.columns[i].pk ==> i == p)
    && forall i :: 0 <= i < |def.columns| ==> !def.columns[i].typ.TypeOther?
  }

  predicate RowOf(def: TableDef, row: Row)
  {
    ValidRow(def.columns, row)
  }

  function RowPk(def: TableDef, row: Row): Uuid
    requires ValidDef(def) && RowOf(def, row)
  {
    assert ValidValue(def.columns[PkOrd(def.columns)], row[PkOrd(def.columns)]);
    row[PkOrd(def.columns)].u
  }

  /** Every SET cell names a column and fits it. */
  predicate SetsValid(cols: seq<Column>, sets: seq<Assign>) {
    forall i :: 0 <= i < |sets| ==> sets[i].ord < |cols| && ValidValue(cols[sets[i].ord], sets[i].value)
  }

  function SetCells(row: Row, sets: seq<Assign>): (r: Row)
    requires forall i :: 0 <= i < |sets| ==> sets[i].ord < |row|
    ensures |r| == |row|
    decreases |sets|
  {
    if sets == [] then row else SetCells(row[sets[0].ord := sets[0].value], sets[1..])
  }

  lemma {:induction false} SetCellsKeepsRow(def: TableDef, row: Row, sets: seq<Assign>)
    requires RowOf(def, row) && SetsValid(def.columns, sets)
    ensures RowOf(def, SetCells(row, sets))
    decreases |sets|
  {
    if sets != [] {
      var row' := row[sets[0].ord := sets[0].value];
      forall i | 0 <= i < |row'| ensures ValidValue(def.columns[i], row'[i]) {}
      SetCellsKeepsRow(def, row', sets[1..]);
    }
  }

  // ---- memory: one table ----

  datatype MemTable = MemTable(def: TableDef, rows: map<Uuid, Row>)

  ghost predicate TableOk(t: MemTable) {
    && ValidDef(t.def)
    && forall pk :: pk in t.rows ==> RowOf(t.def, t.rows[pk]) && RowPk(t.def, t.rows[pk]) == pk
  }

  /** `applyMutation` of replay: None is a corrupt record. An insert of a present key
      and an update of an absent one are refused; a delete of an absent one is not. */
  function ApplyOp(t: MemTable, op: Op): Option<map<Uuid, Row>>
    requires ValidDef(t.def)
  {
    match op
    case Insert(row) =>
      if !RowOf(t.def, row) || RowPk(t.def, row) in t.rows then None
      else Some(t.rows[RowPk(t.def, row) := row])
    case Update(pk, sets) =>
      if !SetsValid(t.def.columns, sets) then None
      else
        var u := CoerceToUuid(pk);
        if u.None? || u.value !in t.rows || |t.rows[u.value]| != |t.def.columns| then None
        else
          var row := SetCells(t.rows[u.value], sets);
          if row[PkOrd(t.def.columns)] != Id(u.value) then None else Some(t.rows[u.value := row])
    case Delete(pk) =>
      match CoerceToUuid(pk)
      case None => None
      case Some(u) => Some(t.rows - {u})
  }

  // ---- the mirror: one SQL table ----

  datatype SqlVal = SqlNull | SqlInt(i: Int64) | SqlText(s: Bytes) | SqlBlob(b: Bytes)

  type SqlRow = seq<SqlVal>

  /** `valueToArg`. */
  function ToSql(v: Value): SqlVal {
    match v
    case Null => SqlNull
    case Int(i) => SqlInt(i)
    case Bool(f) => SqlInt(if f then 1 else 0)
    case Str(s) => SqlText(s)
    case Blob(b) => SqlBlob(b)
    case Id(u) => SqlBlob(UuidBytes(u))
  }

  /** `sqliteValToValue`: strict on BOOL and on the width of a UUID. */
  function FromSql(t: ColumnType, x: SqlVal): Option<Value> {
    if x.SqlNull? then Some(Null)
    else
      match t
      case TypeInt => if x.SqlInt? then Some(Int(x.i)) else None
      case TypeBool => if x.SqlInt? && (x.i == 0 || x.i == 1) then Some(Bool(x.i == 1)) else None
      case TypeString => if x.SqlText? then Some(Str(x.s)) else if x.SqlBlob? then Some(Str(x.b)) else None
      case TypeBytes => if x.SqlBlob? then Some(Blob(x.b)) else None
      case TypeUuid => if x.SqlBlob? && |x.b| == 16 then Some(Id(UuidFromBytes(x.b))) else None
      case TypeOther(_) => None
  }

  /** A stored cell is reloaded as itself, through the column's declared type. */
  lemma CellReloads(c: Column, v: Value)
    requires ValidValue(c, v) && !c.typ.TypeOther?
    ensures FromSql(c.typ, ToSql(v)) == Some(v)
  {
    if v.Id? {
      UuidBytesRoundTrip(v.u);
    }
  }

  function RowToSql(row: Row): SqlRow {
    seq(|row|, i requires 0 <= i < |row| => ToSql(row[i]))
  }

  function SqlSet(row: SqlRow, sets: seq<Assign>): (r: SqlRow)
    requires forall i :: 0 <= i < |sets| ==> sets[i].ord < |row|
    ensures |r| == |row|
    decreases |sets|
  {
    if sets == [] then row else SqlSet(row[sets[0].ord := ToSql(sets[0].value)], sets[1..])
  }

  /** The drain's statement for one mutation: INSERT OR REPLACE, UPDATE … WHERE pk = ?,
      DELETE. None is a refused record or a failed statement: an UPDATE without
      assignments is not SQL, and one that moves a key onto another row violates the
      primary key. */
  function SqlOp(def: TableDef, rows: map<Uuid, SqlRow>, op: Op): Option<map<Uuid, SqlRow>>
    requires ValidDef(def)
  {
    match op
    case Insert(row) =>
      if !RowOf(def, row) then None else Some(rows[RowPk(def, row) := RowToSql(row)])
    case Update(pk, sets) =>
      if !SetsValid(def.columns, sets) || sets == [] then None
      else
        var u := CoerceToUuid(pk);
        if u.None? then None
        else if u.value !in rows || |rows[u.value]| != |def.columns| then Some(rows)
        else
          var row := SqlSet(rows[u.value], sets);
          var key := FromSql(TypeUuid, row[PkOrd(def.columns)]);
          if key.None? || !key.value.Id? then None
          else if key.value.u == u.value then Some(rows[u.value := row])
          else if key.value.u in rows then None
          else Some((rows - {u.value})[key.value.u := row])
    case Delete(pk) =>
      match CoerceToUuid(pk)
      case None => None
      case Some(u) => Some(rows - {u})
  }

  // ---- agreement on one table ----

  /** The SQL table holds the memory table, row by row and cell by cell. */
  ghost predicate RowsMirror(rows: map<Uuid, Row>, sql: map<Uuid, SqlRow>) {
    rows.Keys == sql.Keys && forall pk :: pk in rows ==> sql[pk] == RowToSql(rows[pk])
  }

  lemma {:induction false} SetMirrors(row: Row, sets: seq<Assign>)
    requires forall i :: 0 <= i < |sets| ==> sets[i].ord < |row|
    ensures SqlSet(RowToSql(row), sets) == RowToSql(SetCells(row, sets))
    decreases |sets|
  {
    if sets != [] {
      var row' := row[sets[0].ord := sets[0].value];
      assert RowToSql(row)[sets[0].ord := ToSql(sets[0].value)] == RowToSql(row');
      SetMirrors(row', sets[1..]);
    }
  }

  /** The record is one the schema accepts. */
  predicate Acceptable(def: TableDef, op: Op) {
    match op
    case Insert(row) => RowOf(def, row)
    case Update(pk, sets) => SetsValid(def.columns, sets) && CoerceToUuid(pk).Some?
    case Delete(pk) => CoerceToUuid(pk).Some?
  }

  /** The record meets the table as a live statement would have left it: an insert's key
      is new, an update's is present, and it assigns something without moving the key. */
  predicate NoConflict(t: MemTable, op: Op)
    requires ValidDef(t.def) && Acceptable(t.def, op)
  {
    match op
    case Insert(row) => RowPk(t.def, row) !in t.rows
    case Update(pk, sets) =>
      var u := CoerceToUuid(pk).value;
      && sets != [] && u in t.rows && |t.rows[u]| == |t.def.columns|
      && SetCells(t.rows[u], sets)[PkOrd(t.def.columns)] == Id(u)
    case Delete(_) => true
  }

  /** The two readers accept a mutation together exactly when it is well typed and free
      of conflicts, and then they reach the same contents. */
  lemma OpAgreement(t: MemTable, sql: map<Uuid, SqlRow>, op: Op)
    requires TableOk(t) && RowsMirror(t.rows, sql)
    ensures ApplyOp(t, op).Some? && SqlOp(t.def, sql, op).Some?
       <==> Acceptable(t.def, op) && NoConflict(t, op)
    ensures ApplyOp(t, op).Some? && SqlOp(t.def, sql, op).Some? ==>
              && RowsMirror(ApplyOp(t, op).value, SqlOp(t.def, sql, op).value)
              && TableOk(MemTable(t.def, ApplyOp(t, op).value))
  {
    match op
    case Insert(row) =>
    case Delete(pk) =>
    case Update(pk, sets) =>
      if Acceptable(t.def, op) && CoerceToUuid(pk).value in t.rows {
        var u := CoerceToUuid(pk).value;
        var row := t.rows[u];
        SetMirrors(row, sets);
        SetCellsKeepsRow(t.def, row, sets);
        var p := PkOrd(t.def.columns);
        var row' := SetCells(row, sets);
        assert ValidValue(t.def.columns[p], row'[p]);
        CellReloads(t.def.columns[p], row'[p]);
      }
  }

  // ---- memory: the catalog ----

  datatype Memory = Memory(byId: map<nat, MemTable>, byName: map<Bytes, nat>)

  /** Ids and names are two views of one set of tables. */
  ghost predicate MemoryOk(m: Memory) {
    && (forall id {:trigger TableListed(m, id)} :: TableListed(m, id))
    && (forall name {:trigger NameListed(m, name)} :: NameListed(m, name))
  }

  ghost predicate TableListed(m: Memory, id: nat) {
    id in m.byId ==> TableOk(m.byId[id]) && m.byId[id].def.name in m.byName && m.byName[m.byId[id].def.name] == id
  }

  ghost predicate NameListed(m: Memory, name: Bytes) {
    name in m.byName ==> m.byName[name] in m.byId && m.byId[m.byName[name]].def.name == name
  }

  function ApplyMutation(m: Memory, mut: Mutation): Option<Memory>
  {
    if mut.table !in m.byId || !ValidDef(m.byId[mut.table].def) then None
    else
      match ApplyOp(m.byId[mut.table], mut.op)
      case None => None
      case Some(rows) => Some(m.(byId := m.byId[mut.table := MemTable(m.byId[mut.table].def, rows)]))
  }

  function ApplyAll(m: Memory, ms: seq<Mutation>): Option<Memory>
    decreases |ms|
  {
    if ms == [] then Some(m)
    else
      match ApplyMutation(m, ms[0])
      case None => None
      case Some(m') => ApplyAll(m', ms[1..])
  }

  function WithTable(m: Memory, id: nat, def: TableDef): Memory {
    Memory(m.byId[id := MemTable(def, map[])], m.byName[def.name := id])
  }

  function WithoutTable(m: Memory, name: Bytes): Memory {
    if name in m.byName then Memory(m.byId - {m.byName[name]}, m.byName - {name}) else m
  }

  /** `applyReplayRecord`. */
  function ApplyRecord(m: Memory, r: Record): Option<Memory> {
    match r
    case Single(mut) => ApplyMutation(m, mut)
    case Txn(ms) => ApplyAll(m, ms)
    case Checkpoint => Some(m)
    case CreateTable(id, def) => if ValidDef(def) then Some(WithTable(m, id, def)) else None
    case DropTable(name) => Some(WithoutTable(m, name))
  }

  function Replay(m: Memory, rs: seq<Record>): Option<Memory>
    decreases |rs|
  {
    if rs == [] then Some(m)
    else
      match ApplyRecord(m, rs[0])
      case None => None
      case Some(m') => Replay(m', rs[1..])
  }

  // ---- the mirror: registry and tables ----

  /** The companion file: the registered definitions by id, the tables by name. */
  datatype Mirror = Mirror(reg: map<nat, TableDef>, data: map<Bytes, map<Uuid, SqlRow>>)

  /** The drain's view: the process's own registry beside the (transaction's) file. */
  datatype Companion = Companion(tables: map<nat, TableDef>, db: Mirror)

  ghost predicate Named(tables: map<nat, TableDef>, name: Bytes, id: nat) {
    id in tables && tables[id].name == name
  }

  /** The first registered table of that name, in map order. */
  ghost function FindByName(tables: map<nat, TableDef>, name: Bytes): (r: Option<nat>)
    ensures r.Some? ==> Named(tables, name, r.value)
    ensures r.None? ==> forall id :: !Named(tables, name, id)
  {
    if exists id :: Named(tables, name, id) then
      var id :| Named(tables, name, id);
      Some(id)
    else None
  }

  ghost function IdOf(tables: map<nat, TableDef>, name: Bytes): nat {
    var found := FindByName(tables, name);
    if found.Some? then found.value else 0
  }

  /** `applyMutation` of the drain. */
  function DrainMutation(c: Companion, mut: Mutation): Option<Companion> {
    if mut.table !in c.tables || !ValidDef(c.tables[mut.table]) then None
    else
      var def := c.tables[mut.table];
      if def.name !in c.db.data then None
      else
        match SqlOp(def, c.db.data[def.name], mut.op)
        case None => None
        case Some(rows) => Some(c.(db := Mirror(c.db.reg, c.db.data[def.name := rows])))
  }

  function DrainAll(c: Companion, ms: seq<Mutation>): Option<Companion>
    decreases |ms|
  {
    if ms == [] then Some(c)
    else
      match DrainMutation(c, ms[0])
      case None => None
      case Some(c') => DrainAll(c', ms[1..])
  }

  /** `register`: CREATE TABLE IF NOT EXISTS, the registry row, the process registry. */
  function Register(c: Companion, id: nat, def: TableDef): Companion {
    Companion(c.tables[id := def],
              Mirror(c.db.reg[id := def], if def.name in c.db.data then c.db.data else c.db.data[def.name := map[]]))
  }

  /** `dropTable` of the drain: DROP TABLE IF EXISTS, then the registry row of the table
      the process registry knows by that name. */
  ghost function Unregister(c: Companion, name: Bytes): Companion {
    match FindByName(c.tables, name)
    case None => c.(db := Mirror(c.db.reg, c.db.data - {name}))
    case Some(id) => Companion(c.tables - {id}, Mirror(c.db.reg - {id}, c.db.data - {name}))
  }

  /** `applyRecord` of the drain. */
  ghost function DrainRecord(c: Companion, r: Record): Option<Companion> {
    match r
    case Single(mut) => DrainMutation(c, mut)
    case Txn(ms) => DrainAll(c, ms)
    case Checkpoint => Some(c)
    case CreateTable(id, def) => if ValidDef(def) then Some(Register(c, id, def)) else None
    case DropTable(name) => Some(Unregister(c, name))
  }

  ghost function Drain(c: Companion, rs: seq<Record>): Option<Companion>
    decreases |rs|
  {
    if rs == [] then Some(c)
    else
      match DrainRecord(c, rs[0])
      case None => None
      case Some(c') => Drain(c', rs[1..])
  }

  // ---- agreement on whole records and logs ----

  /** The mirror is the memory: same tables under the same ids, same rows, nothing more. */
  ghost predicate Mirrored(m: Memory, c: Companion) {
    && MemoryOk(m)
    && c.tables == c.db.reg
    && c.tables.Keys == m.byId.Keys && c.db.data.Keys == m.byName.Keys
    && forall id {:trigger TableMirrored(m, c, id)} :: TableMirrored(m, c, id)
  }

  ghost predicate TableMirrored(m: Memory, c: Companion, id: nat) {
    id in m.byId ==>
      && id in c.tables && c.tables[id] == m.byId[id].def
      && m.byId[id].def.name in c.db.data && RowsMirror(m.byId[id].rows, c.db.data[m.byId[id].def.name])
  }

  ghost predicate MutationFollows(m: Memory, mut: Mutation) {
    && mut.table in m.byId && ValidDef(m.byId[mut.table].def)
    && Acceptable(m.byId[mut.table].def, mut.op) && NoConflict(m.byId[mut.table], mut.op)
  }

  ghost predicate AllFollow(m: Memory, ms: seq<Mutation>)
    decreases |ms|
  {
    ms != [] ==> MutationFollows(m, ms[0]) && ApplyMutation(m, ms[0]).Some? && AllFollow(ApplyMutation(m, ms[0]).value, ms[1..])
  }

  /** The record is one a live statement could have journaled on this memory. */
  ghost predicate Follows(m: Memory, r: Record) {
    match r
    case Single(mut) => MutationFollows(m, mut)
    case Txn(ms) => AllFollow(m, ms)
    case Checkpoint => true
    case CreateTable(id, def) => ValidDef(def) && id !in m.byId && def.name !in m.byName
    case DropTable(name) => name in m.byName
  }

  ghost predicate LogFollows(m: Memory, rs: seq<Record>)
    decreases |rs|
  {
    rs != [] ==> Follows(m, rs[0]) && ApplyRecord(m, rs[0]).Some? && LogFollows(ApplyRecord(m, rs[0]).value, rs[1..])
  }

  /** One table's rows change on both sides; the rest of the catalog does not. */
  lemma RowsChange(m: Memory, c: Companion, id: nat, rows: map<Uuid, Row>, sql: map<Uuid, SqlRow>)
    requires Mirrored(m, c) && id in m.byId
    requires RowsMirror(rows, sql) && TableOk(MemTable(m.byId[id].def, rows))
    ensures var def := m.byId[id].def;
            Mirrored(m.(byId := m.byId[id := MemTable(def, rows)]), c.(db := Mirror(c.db.reg, c.db.data[def.name := sql])))
  {
    var def := m.byId[id].def;
    var m', c' := m.(byId := m.byId[id := MemTable(def, rows)]), c.(db := Mirror(c.db.reg, c.db.data[def.name := sql]));
    assert TableListed(m, id) && TableMirrored(m, c, id);
    forall k ensures TableListed(m', k) { assert TableListed(m, k); }
    forall name ensures NameListed(m', name) { assert NameListed(m, name); }
    forall k ensures TableMirrored(m', c', k) { assert TableMirrored(m, c, k) && TableListed(m, k); }
  }

  lemma MutationAgrees(m: Memory, c: Companion, mut: Mutation)
    requires Mirrored(m, c) && MutationFollows(m, mut)
    ensures ApplyMutation(m, mut).Some? && DrainMutation(c, mut).Some?
    ensures Mirrored(ApplyMutation(m, mut).value, DrainMutation(c, mut).value)
  {
    var t := m.byId[mut.table];
    assert TableListed(m, mut.table) && TableMirrored(m, c, mut.table);
    var sql := c.db.data[t.def.name];
    OpAgreement(t, sql, mut.op);
    RowsChange(m, c, mut.table, ApplyOp(t, mut.op).value, SqlOp(t.def, sql, mut.op).value);
  }

  lemma {:induction false} GroupAgrees(m: Memory, c: Companion, ms: seq<Mutation>)
    requires Mirrored(m, c) && AllFollow(m, ms)
    ensures ApplyAll(m, ms).Some? && DrainAll(c, ms).Some?
    ensures Mirrored(ApplyAll(m, ms).value, DrainAll(c, ms).value)
    decreases |ms|
  {
    if ms != [] {
      MutationAgrees(m, c, ms[0]);
      GroupAgrees(ApplyMutation(m, ms[0]).value, DrainMutation(c, ms[0]).value, ms[1..]);
    }
  }

  lemma CreateAgrees(m: Memory, c: Companion, id: nat, def: TableDef)
    requires Mirrored(m, c) && ValidDef(def) && id !in m.byId && def.name !in m.byName
    ensures Mirrored(WithTable(m, id, def), Register(c, id, def))
  {
    var m', c' := WithTable(m, id, def), Register(c, id, def);
    forall k ensures TableListed(m', k) { assert TableListed(m, k); }
    forall name ensures NameListed(m', name) { assert NameListed(m, name); }
    forall k ensures TableMirrored(m', c', k) { assert TableMirrored(m, c, k) && TableListed(m, k); }
  }

  /** The registry knows a name exactly when the catalog does, under the same id. */
  lemma FoundByName(m: Memory, c: Companion, name: Bytes)
    requires Mirrored(m, c)
    ensures FindByName(c.tables, name) == if name in m.byName then Some(m.byName[name]) else None
  {
    assert NameListed(m, name);
    if name in m.byName {
      assert TableMirrored(m, c, m.byName[name]) && Named(c.tables, name, m.byName[name]);
    }
    var found := FindByName(c.tables, name);
    if found.Some? {
      assert TableMirrored(m, c, found.value) && TableListed(m, found.value);
    }
  }

  lemma DropAgrees(m: Memory, c: Companion, name: Bytes)
    requires Mirrored(m, c)
    ensures Mirrored(WithoutTable(m, name), Unregister(c, name))
  {
    var m', c' := WithoutTable(m, name), Unregister(c, name);
    FoundByName(m, c, name);
    assert NameListed(m, name);
    forall k ensures TableListed(m', k) { assert TableListed(m, k); }
    forall n ensures NameListed(m', n) {
      assert NameListed(m, n);
      if n in m.byName { assert TableListed(m, m.byName[n]); }
    }
    forall k ensures TableMirrored(m', c', k) { assert TableMirrored(m, c, k) && TableListed(m, k); }
  }

  /** One record that follows from the memory is accepted by both readers, which stay
      mirror images. */
  lemma RecordAgrees(m: Memory, c: Companion, r: Record)
    requires Mirrored(m, c) && Follows(m, r)
    ensures ApplyRecord(m, r).Some? && DrainRecord(c, r).Some?
    ensures Mirrored(ApplyRecord(m, r).value, DrainRecord(c, r).value)
  {
    match r
    case Single(mut) => MutationAgrees(m, c, mut);
    case Txn(ms) => GroupAgrees(m, c, ms);
    case Checkpoint =>
    case CreateTable(id, def) => CreateAgrees(m, c, id, def);
    case DropTable(name) => DropAgrees(m, c, name);
  }

  /** A whole log the live paths produced: replay and drain both take it without error
      and end as mirror images. */
  lemma {:induction false} LogAgrees(m: Memory, c: Companion, rs: seq<Record>)
    requires Mirrored(m, c) && LogFollows(m, rs)
    ensures Replay(m, rs).Some? && Drain(c, rs).Some?
    ensures Mirrored(Replay(m, rs).value, Drain(c, rs).value)
    decreases |rs|
  {
    if rs != [] {
      RecordAgrees(m, c, rs[0]);
      LogAgrees(ApplyRecord(m, rs[0]).value, DrainRecord(c, rs[0]).value, rs[1..]);
    }
  }

  // ---- logs in pieces ----

  lemma {:induction false} ReplayConcat(m: Memory, a: seq<Record>, b: seq<Record>)
    ensures Replay(m, a + b) == match Replay(m, a) case None => None case Some(m') => Replay(m', b)
    decreases |a|
  {
    if a == [] {
      assert a + b == b;
    } else {
      assert (a + b)[1..] == a[1..] + b;
      match ApplyRecord(m, a[0])
      case None =>
      case Some(m') => ReplayConcat(m', a[1..], b);
    }
  }

  lemma {:induction false} DrainConcat(c: Companion, a: seq<Record>, b: seq<Record>)
    ensures Drain(c, a + b) == match Drain(c, a) case None => None case Some(c') => Drain(c', b)
    decreases |a|
  {
    if a == [] {
      assert a + b == b;
    } else {
      assert (a + b)[1..] == a[1..] + b;
      match DrainRecord(c, a[0])
      case None =>
      case Some(c') => DrainConcat(c', a[1..], b);
    }
  }

  lemma {:induction false} FollowsConcat(m: Memory, a: seq<Record>, b: seq<Record>)
    ensures LogFollows(m, a + b) <==> LogFollows(m, a) && Replay(m, a).Some? && LogFollows(Replay(m, a).value, b)
    decreases |a|
  {
    if a == [] {
      assert a + b == b;
    } else {
      assert (a + b)[1..] == a[1..] + b;
      if ApplyRecord(m, a[0]).Some? {
        FollowsConcat(ApplyRecord(m, a[0]).value, a[1..], b);
      }
    }
  }

  // ---- reloading the mirror ----

  /** One stored row back as cells, each checked against its column again. */
  function LoadRow(cols: seq<Column>, sql: SqlRow): Option<Row>
    decreases |cols|
  {
    if |sql| != |cols| then None
    else if cols == [] then Some([])
    else
      match (FromSql(cols[0].typ, sql[0]), LoadRow(cols[1..], sql[1..]))
      case (Some(v), Some(row)) => if ValidValue(cols[0], v) then Some([v] + row) else None
      case _ => None
  }

  lemma {:induction false} RowReloads(cols: seq<Column>, row: Row)
    requires ValidRow(cols, row) && forall i :: 0 <= i < |cols| ==> !cols[i].typ.TypeOther?
    ensures LoadRow(cols, RowToSql(row)) == Some(row)
    decreases |cols|
  {
    if cols != [] {
      CellReloads(cols[0], row[0]);
      assert RowToSql(row)[1..] == RowToSql(row[1..]);
      RowReloads(cols[1..], row[1..]);
      assert row == [row[0]] + row[1..];
    }
  }

  /** Every stored row loads, under the key it is stored by. */
  ghost predicate Loadable(def: TableDef, sql: map<Uuid, SqlRow>) {
    ValidDef(def) && forall pk :: pk in sql ==> LoadsAs(def, sql[pk], pk)
  }

  predicate LoadsAs(def: TableDef, sql: SqlRow, pk: Uuid)
    requires ValidDef(def)
  {
    var row := LoadRow(def.columns, sql);
    row.Some? && RowOf(def, row.value) && RowPk(def, row.value) == pk
  }

  function LoadTable(def: TableDef, sql: map<Uuid, SqlRow>): MemTable {
    MemTable(def, map pk | pk in sql && LoadRow(def.columns, sql[pk]).Some? :: LoadRow(def.columns, sql[pk]).value)
  }

  lemma TableReloads(t: MemTable, sql: map<Uuid, SqlRow>)
    requires TableOk(t) && RowsMirror(t.rows, sql)
    ensures Loadable(t.def, sql) && LoadTable(t.def, sql) == t
  {
    forall pk | pk in sql ensures LoadsAs(t.def, sql[pk], pk) && LoadRow(t.def.columns, sql[pk]) == Some(t.rows[pk]) {
      RowReloads(t.def.columns, t.rows[pk]);
    }
  }

  /** Nothing refuses the reload: the registry rows decode to valid definitions, every
      registered table exists, and every stored row loads. */
  ghost predicate Recoverable(db: Mirror) {
    forall id :: id in db.reg ==> db.reg[id].name in db.data && Loadable(db.reg[id], db.data[db.reg[id].name])
  }

  ghost function TableNames(reg: map<nat, TableDef>): set<Bytes> {
    set id | id in reg :: reg[id].name
  }

  /** `recoverFromSQLite`: the catalog rebuilt from the registry, every row reloaded. */
  ghost function Recover(db: Mirror): Option<Memory> {
    if Recoverable(db) then Some(Memory(LoadTables(db), map name | name in TableNames(db.reg) :: IdOf(db.reg, name))) else None
  }

  ghost function LoadTables(db: Mirror): map<nat, MemTable>
    requires Recoverable(db)
  {
    map id | id in db.reg :: LoadTable(db.reg[id], db.data[db.reg[id].name])
  }

  lemma TablesReload(m: Memory, c: Companion)
    requires Mirrored(m, c)
    ensures Recoverable(c.db) && LoadTables(c.db) == m.byId
  {
    var reg, data := c.db.reg, c.db.data;
    forall id | id in reg
      ensures reg[id].name in data && Loadable(reg[id], data[reg[id].name]) && LoadTable(reg[id], data[reg[id].name]) == m.byId[id]
    {
      assert TableMirrored(m, c, id) && TableListed(m, id);
      TableReloads(m.byId[id], data[reg[id].name]);
    }
  }

  lemma NamesAgree(m: Memory, c: Companion, name: Bytes)
    requires Mirrored(m, c)
    ensures name in TableNames(c.db.reg) <==> name in m.byName
    ensures name in m.byName ==> IdOf(c.db.reg, name) == m.byName[name]
  {
    assert NameListed(m, name);
    FoundByName(m, c, name);
    if name in m.byName {
      assert TableMirrored(m, c, m.byName[name]);
    }
    if name in TableNames(c.db.reg) {
      var id :| id in c.db.reg && c.db.reg[id].name == name;
      assert TableMirrored(m, c, id) && TableListed(m, id);
    }
  }

  lemma SameNames(m: Memory, c: Companion, byName: map<Bytes, nat>)
    requires Mirrored(m, c) && byName == map name | name in TableNames(c.db.reg) :: IdOf(c.db.reg, name)
    ensures byName == m.byName
  {
    forall name ensures (name in byName <==> name in m.byName) && (name in m.byName ==> byName[name] == m.byName[name]) {
      NamesAgree(m, c, name);
    }
  }

  /** Reloading the mirror reproduces the memory it mirrors, cell for cell. */
  lemma MirrorReloads(m: Memory, c: Companion)
    requires Mirrored(m, c)
    ensures Recover(c.db) == Some(m)
  {
    TablesReload(m, c);
    SameNames(m, c, Recover(c.db).value.byName);
  }
}
