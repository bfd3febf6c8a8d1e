/** The durability protocol's loops: the log's buffer and segments, the drain with its
    transaction and process registry, tail replay, the reload of the mirror, and Open
    (wal.go, drain.go, wal_segment.go, recover_sqlite.go, db.go). */
module DurabilityExec {
  import opened Wrappers
  import opened ByteStrings
  import opened Values
  import opened Codec
  import opened Framing
  import opened Records
  import opened Interpreters
  import opened LiveLog
  import opened Durability

  // ---- the log ----

  /** `writeRecord` on the log's state: the new state, the files, and what the caller sees. */
  function WriteWal(crc: Bytes -> Checksum, w: Wal, files: map<nat, Bytes>, e: Envelope, outcome: FlushOutcome): (Wal, map<nat, Bytes>, bool) {
    if w.halted then (w, files, false)
    else
      var w' := Wal(w.buf + Frame(crc, e), w.seg, false);
      if |w'.buf| < FLUSH_MAX_BYTES then (w', files, true) else FlushWal(w', files, outcome)
  }

  /** A write of the protocol is `writeRecord` with the statement's record, and takes
      effect in memory only when it succeeds. */
  lemma WriteIsWriteRecord(cfg: Config, s: State, req: Request, outcome: FlushOutcome)
    requires s.proc.Up? && Live(s.proc.mem, s.proc.slots, Kept(cfg), req).Some?
    requires RecordFits(Live(s.proc.mem, s.proc.slots, Kept(cfg), req).value.1)
    ensures var (mem, rec) := Live(s.proc.mem, s.proc.slots, Kept(cfg), req).value;
            var (w, files, ok) := WriteWal(cfg.crc, s.proc.wal, s.disk.files, EncodeRecord(rec), outcome);
            var s' := DoWrite(cfg, s, req, outcome);
            && s'.Some? && s'.value.proc.Up? && s'.value.proc.wal == w && s'.value.disk == s.disk.(files := files)
            && s'.value.proc.mem == (if ok then mem else s.proc.mem)
  {}

  /** `wal`: the pending buffer, the last sealed number, the sticky error, and the
      segment directory. */
  class Log {
    const crc: Bytes -> Checksum
    var buf: Bytes
    var seg: nat
    var halted: bool
    var recs: nat
    var files: map<nat, Bytes>
    var closed: bool
    var closeOk: bool

    constructor (crc: Bytes -> Checksum, files: map<nat, Bytes>, seg: nat)
      ensures this.crc == crc && State() == Wal([], seg, false) && this.files == files && recs == 0 && !closed
    {
      this.crc, this.files, this.seg := crc, files, seg;
      buf, halted, recs, closed, closeOk := [], false, 0, false, false;
    }

    function State(): Wal
      reads this
    {
      Wal(buf, seg, halted)
    }

    /** Seals the pending buffer into the next segment: the file appears whole or not at
        all, and any failure is sticky. */
    method FlushLocked(outcome: FlushOutcome) returns (ok: bool)
      modifies this`buf, this`seg, this`halted, this`files
      ensures (State(), files, ok) == FlushWal(old(State()), old(files), outcome)
    {
      if halted { return false; }
      if |buf| == 0 { return true; }
      var n := seg + 1;
      if outcome.LostBefore? {
        halted := true;
        return false;
      }
      files := files[n := buf];
      if outcome.LostAfter? {
        halted := true;
        return false;
      }
      seg, buf := n, [];
      return true;
    }

    /** Appends one whole envelope, and seals inline once the buffer is large. */
    method WriteRecord(e: Envelope, outcome: FlushOutcome) returns (ok: bool)
      modifies this`buf, this`seg, this`halted, this`files, this`recs
      ensures (State(), files, ok) == WriteWal(crc, old(State()), old(files), e, outcome)
      ensures recs == old(recs) + if old(halted) then 0 else 1
      ensures !old(halted) && |old(buf)| + |e.payload| + 12 < 1024 * 1024 ==> ok && files == old(files) && buf == old(buf) + Frame(crc, e)
    {
      if halted { return false; }
      var start := |buf|;
      buf := buf + Header(e);
      buf := buf + e.payload;
      assert buf[start..] == Header(e) + e.payload;
      buf := buf + LittleEndian(4, crc(buf[start..]));
      assert buf == old(buf) + Frame(crc, e);
      recs := recs + 1;
      if |buf| >= FLUSH_MAX_BYTES {
        ok := FlushLocked(outcome);
        return;
      }
      return true;
    }

    /** Seals what is left, once; every later write is refused. */
    method Close(outcome: FlushOutcome) returns (ok: bool)
      modifies this
      ensures closed && (!old(closed) ==> halted)
      ensures old(closed) ==> ok == old(closeOk) && State() == old(State()) && files == old(files)
      ensures !old(closed) ==> var (w, fs, done) := FlushWal(old(State()), old(files), outcome); files == fs && ok == done == closeOk
    {
      if !closed {
        closeOk := FlushLocked(outcome);
        closed := true;
        if !halted { halted := true; }
      }
      return closeOk;
    }
  }

  // ---- tail replay ----

  /** `listSegments`: the numbers in the directory, ascending. */
  ghost predicate SegmentList(files: map<nat, Bytes>, segs: seq<nat>) {
    && (forall i, j :: 0 <= i < j < |segs| ==> segs[i] < segs[j])
    && forall n {:trigger n in segs} :: n in segs <==> n in files
  }

  /** One segment's records applied in order; a segment with broken framing ends early,
      anything undecodable refuses. */
  method ReplayFile(crc: Bytes -> Checksum, b: Bytes, m0: Memory) returns (m: Option<Memory>)
    ensures m == ReplayRest(crc, b, m0)
  {
    var pos, mem := 0, m0;
    assert b[0..] == b;
    while true
      invariant pos <= |b|
      invariant ReplayRest(crc, b, m0) == ReplayRest(crc, b[pos..], mem)
      decreases |b| - pos
    {
      var r, next := ReadRecord(crc, b, pos);
      match r
      case Err(BadVersion) => return None;
      case Err(_) => return Some(mem);
      case Ok(e) =>
        assert b[pos..][|e.payload| + 12..] == b[next..];
        ReplayStep(crc, b[pos..], mem, e);
        match DecodeRecord(e) {
          case None => return None;
          case Some(rec) =>
            var applied := ApplyRecord(mem, rec);
            if applied.None? { return None; }
            mem, pos := applied.value, next;
        }
    }
  }

  function ReplayRest(crc: Bytes -> Checksum, b: Bytes, m: Memory): Option<Memory> {
    var got := ReadSegment(crc, b);
    match Replay(m, got.records)
    case None => None
    case Some(m') => if got.fatal then None else Some(m')
  }

  lemma ReplayStep(crc: Bytes -> Checksum, b: Bytes, m: Memory, e: Envelope)
    requires ReadOne(crc, b) == Ok(e)
    ensures DecodeRecord(e).None? ==> ReplayRest(crc, b, m).None?
    ensures DecodeRecord(e).Some? && ApplyRecord(m, DecodeRecord(e).value).None? ==> ReplayRest(crc, b, m).None?
    ensures DecodeRecord(e).Some? && ApplyRecord(m, DecodeRecord(e).value).Some? ==>
              ReplayRest(crc, b, m) == ReplayRest(crc, b[|e.payload| + 12..], ApplyRecord(m, DecodeRecord(e).value).value)
  {
    var (es, end) := Scan(crc, b[|e.payload| + 12..]);
    assert Scan(crc, b).0 == [e] + es && ([e] + es)[1..] == es;
    if DecodeRecord(e).Some? {
      var r, rest := DecodeRecord(e).value, DecodeEnvelopes(es);
      assert ([r] + rest.records)[1..] == rest.records;
    }
  }

  /** `replaySegments`: the tail above the cursor, contiguous and ascending. */
  method ReplaySegments(crc: Bytes -> Checksum, files: map<nat, Bytes>, segs: seq<nat>, cursor: nat, m0: Memory) returns (m: Option<Memory>)
    requires SegmentList(files, segs)
    ensures m == ReplayTail(crc, files, m0, cursor + 1, MaxSeg(files))
  {
    ghost var top := MaxSeg(files);
    LastIsTop(files, segs);
    ghost var goal := ReplayTail(crc, files, m0, cursor + 1, top);
    var expected: nat, mem := cursor + 1, m0;
    for i := 0 to |segs|
      invariant goal == ReplayTail(crc, files, mem, expected, top)
      invariant cursor < expected && Covered(segs, i, expected) && Standing(segs, i, cursor, expected)
    {
      CoveredNext(segs, i, cursor, expected);
      var next := ReplayListed(crc, files, segs, i, cursor, expected, mem, top);
      if next.None? { return None; }
      mem := next.value;
      if segs[i] > cursor { expected := segs[i] + 1; }
    }
    return Some(mem);
  }

  /** One listed segment: skipped behind the cursor, refused over a gap, else replayed. */
  method ReplayListed(crc: Bytes -> Checksum, files: map<nat, Bytes>, segs: seq<nat>, i: nat, cursor: nat, expected: nat, m0: Memory, ghost top: nat)
    returns (m: Option<Memory>)
    requires SegmentList(files, segs) && i < |segs| && segs[i] <= top
    requires segs[i] > cursor ==> expected <= segs[i] && Covered(segs, i, expected)
    ensures if segs[i] <= cursor then m == Some(m0)
            else ReplayTail(crc, files, m0, expected, top) == if m.None? then None else ReplayTail(crc, files, m.value, segs[i] + 1, top)
    ensures segs[i] > cursor && m.Some? ==> segs[i] == expected
  {
    var n := segs[i];
    if n <= cursor { return Some(m0); }
    if n != expected {
      NotListed(files, segs, i, expected);
      TailGap(crc, files, m0, expected, top);
      return None;
    }
    assert n in segs;
    m := ReplayNext(crc, files, m0, n, top);
  }

  /** One number of the tail. */
  method ReplayNext(crc: Bytes -> Checksum, files: map<nat, Bytes>, m0: Memory, n: nat, ghost top: nat) returns (m: Option<Memory>)
    requires n in files && n <= top
    ensures ReplayTail(crc, files, m0, n, top) == if m.None? then None else ReplayTail(crc, files, m.value, n + 1, top)
  {
    m := ReplayFile(crc, files[n], m0);
  }

  lemma TailGap(crc: Bytes -> Checksum, files: map<nat, Bytes>, m: Memory, n: nat, top: nat)
    requires n <= top && n !in files
    ensures ReplayTail(crc, files, m, n, top).None?
  {}

  ghost predicate Covered(segs: seq<nat>, i: nat, expected: nat)
    requires i <= |segs|
  {
    forall j :: 0 <= j < i ==> segs[j] < expected
  }

  /** The number expected next: just above the cursor, or just above the last segment taken. */
  ghost predicate Standing(segs: seq<nat>, i: nat, cursor: nat, expected: nat)
    requires i <= |segs|
  {
    expected == cursor + 1 || (i > 0 && expected == segs[i - 1] + 1)
  }

  /** One segment more: behind the cursor, or at least the number expected. */
  lemma CoveredNext(segs: seq<nat>, i: nat, cursor: nat, expected: nat)
    requires i < |segs| && (forall a, b :: 0 <= a < b < |segs| ==> segs[a] < segs[b])
    requires cursor < expected && Covered(segs, i, expected) && Standing(segs, i, cursor, expected)
    ensures segs[i] > cursor ==> expected <= segs[i] && Covered(segs, i + 1, segs[i] + 1)
    ensures segs[i] <= cursor ==> Covered(segs, i + 1, expected) && expected == cursor + 1
  {}

  lemma LastIsTop(files: map<nat, Bytes>, segs: seq<nat>)
    requires SegmentList(files, segs)
    ensures MaxSeg(files) == if segs == [] then 0 else segs[|segs| - 1]
    ensures forall i :: 0 <= i < |segs| ==> segs[i] in files && segs[i] <= MaxSeg(files)
  {
    forall i | 0 <= i < |segs| ensures segs[i] in files { assert segs[i] in segs; }
    assert segs == [] || segs[0] in segs;
    if files != map[] {
      assert MaxSeg(files) in segs;
      var i :| 0 <= i < |segs| && segs[i] == MaxSeg(files);
    }
  }

  /** The number expected is below the next one listed, and not in the directory. */
  lemma NotListed(files: map<nat, Bytes>, segs: seq<nat>, i: nat, expected: nat)
    requires SegmentList(files, segs) && i < |segs| && segs[i] != expected
    requires Covered(segs, i, expected) && expected <= segs[i]
    ensures expected !in files && expected < segs[i]
  {
    assert expected in files <==> expected in segs;
    forall j | 0 <= j < |segs| ensures segs[j] != expected {
      assert j > i ==> segs[i] < segs[j];
    }
  }

  // ---- reloading the mirror ----

  /** Every stored row's own key cell is the key it is stored under. */
  ghost predicate StoredByKey(def: TableDef, sql: map<Uuid, SqlRow>) {
    ValidDef(def) ==> forall pk :: pk in sql ==> KeyedBy(def, sql[pk], pk)
  }

  predicate KeyedBy(def: TableDef, row: SqlRow, pk: Uuid)
    requires ValidDef(def)
  {
    var r := LoadRow(def.columns, row);
    r.Some? && RowOf(def, r.value) ==> RowPk(def, r.value) == pk
  }

  /** `loadTableRows`: every row read back, checked cell by cell, and inserted. */
  method LoadTableRows(def: TableDef, sql: map<Uuid, SqlRow>) returns (t: Option<MemTable>)
    requires ValidDef(def) && StoredByKey(def, sql)
    ensures t == if Loadable(def, sql) then Some(LoadTable(def, sql)) else None
  {
    var rows: map<Uuid, Row> := map[];
    var left := sql.Keys;
    while left != {}
      invariant left <= sql.Keys && rows.Keys == sql.Keys - left
      invariant forall pk :: pk in rows ==> LoadsAs(def, sql[pk], pk) && rows[pk] == LoadRow(def.columns, sql[pk]).value
      decreases |left|
    {
      var pk :| pk in left;
      var row := LoadRow(def.columns, sql[pk]);
      assert KeyedBy(def, sql[pk], pk);
      if row.None? || !RowOf(def, row.value) {
        assert !LoadsAs(def, sql[pk], pk);
        return None;
      }
      rows := rows[RowPk(def, row.value) := row.value];
      left := left - {pk};
    }
    assert rows == LoadTable(def, sql).rows;
    return Some(MemTable(def, rows));
  }

  ghost predicate NamesUnique(tables: map<nat, TableDef>) {
    forall a, b :: a in tables && b in tables && tables[a].name == tables[b].name ==> a == b
  }

  /** The registry names each table once, and rows are stored under their own keys. */
  ghost predicate Consistent(db: Mirror) {
    NamesUnique(db.reg) && forall id :: id in db.reg && db.reg[id].name in db.data ==> StoredByKey(db.reg[id], db.data[db.reg[id].name])
  }

  /** A mirror image is such a registry. */
  lemma MirroredIsConsistent(m: Memory, c: Companion)
    requires Mirrored(m, c)
    ensures Consistent(c.db)
  {
    forall a, b | a in c.tables && b in c.tables && c.tables[a].name == c.tables[b].name ensures a == b {
      assert TableMirrored(m, c, a) && TableMirrored(m, c, b) && TableListed(m, a) && TableListed(m, b);
    }
    forall id | id in c.db.reg && c.db.reg[id].name in c.db.data ensures StoredByKey(c.db.reg[id], c.db.data[c.db.reg[id].name]) {
      assert TableMirrored(m, c, id) && TableListed(m, id);
      TableReloads(m.byId[id], c.db.data[c.db.reg[id].name]);
    }
  }

  /** `recoverFromSQLite`: the catalog from the registry, then each table's rows. */
  method RecoverFromSqlite(db: Mirror) returns (m: Option<Memory>)
    requires Consistent(db)
    ensures m == Recover(db)
  {
    var mem := Memory(map[], map[]);
    var left := db.reg.Keys;
    while left != {}
      invariant left <= db.reg.Keys && mem.byId.Keys == db.reg.Keys - left
      invariant AllReloaded(db, mem)
      decreases |left|
    {
      var id :| id in left;
      var def := db.reg[id];
      if !ValidDef(def) || def.name !in db.data { return None; }
      var t := LoadTableRows(def, db.data[def.name]);
      if t.None? { return None; }
      MoreReloaded(db, mem, id, t.value);
      mem := Memory(mem.byId[id := t.value], mem.byName[def.name := id]);
      left := left - {id};
    }
    RecoveredIs(db, mem);
    return Some(mem);
  }

  /** Every table so far is reloaded and found by its name. */
  ghost predicate AllReloaded(db: Mirror, mem: Memory) {
    && (forall id {:trigger ReloadedAt(db, mem, id)} :: ReloadedAt(db, mem, id))
    && (forall name {:trigger NameBacked(db, mem, name)} :: NameBacked(db, mem, name))
  }

  ghost predicate ReloadedAt(db: Mirror, mem: Memory, id: nat) {
    id in mem.byId ==> Reloaded(db, id, mem.byId[id]) && db.reg[id].name in mem.byName
  }

  ghost predicate NameBacked(db: Mirror, mem: Memory, name: Bytes) {
    name in mem.byName ==> mem.byName[name] in mem.byId && mem.byName[name] in db.reg && db.reg[mem.byName[name]].name == name
  }

  lemma MoreReloaded(db: Mirror, mem: Memory, id: nat, t: MemTable)
    requires NamesUnique(db.reg) && AllReloaded(db, mem) && Reloaded(db, id, t)
    ensures AllReloaded(db, Memory(mem.byId[id := t], mem.byName[db.reg[id].name := id]))
  {
    var mem' := Memory(mem.byId[id := t], mem.byName[db.reg[id].name := id]);
    forall k ensures ReloadedAt(db, mem', k) { assert ReloadedAt(db, mem, k); }
    forall name ensures NameBacked(db, mem', name) { assert NameBacked(db, mem, name); }
  }

  ghost predicate Reloaded(db: Mirror, id: nat, t: MemTable) {
    && id in db.reg && db.reg[id].name in db.data && Loadable(db.reg[id], db.data[db.reg[id].name])
    && t == LoadTable(db.reg[id], db.data[db.reg[id].name])
  }

  lemma RecoveredIs(db: Mirror, mem: Memory)
    requires NamesUnique(db.reg) && mem.byId.Keys == db.reg.Keys && AllReloaded(db, mem)
    ensures Recover(db) == Some(mem)
  {
    forall id | id in db.reg ensures Reloaded(db, id, mem.byId[id]) { assert ReloadedAt(db, mem, id); }
    assert LoadTables(db) == mem.byId;
    var byName := Recover(db).value.byName;
    forall name ensures (name in byName <==> name in mem.byName) && (name in byName ==> byName[name] == mem.byName[name]) {
      NameRecovered(db, mem, name);
    }
    SameMap(byName, mem.byName);
  }

  lemma SameMap<K, V>(a: map<K, V>, b: map<K, V>)
    requires forall k :: (k in a <==> k in b) && (k in a ==> a[k] == b[k])
    ensures a == b
  {}

  lemma NameRecovered(db: Mirror, mem: Memory, name: Bytes)
    requires NamesUnique(db.reg) && mem.byId.Keys == db.reg.Keys && AllReloaded(db, mem)
    ensures name in TableNames(db.reg) <==> name in mem.byName
    ensures name in mem.byName ==> IdOf(db.reg, name) == mem.byName[name]
  {
    assert NameBacked(db, mem, name);
    if name in TableNames(db.reg) {
      var id :| id in db.reg && db.reg[id].name == name;
      assert ReloadedAt(db, mem, id);
      assert Named(db.reg, name, id);
    }
    if name in mem.byName {
      assert Named(db.reg, name, mem.byName[name]);
      assert Named(db.reg, name, IdOf(db.reg, name));
    }
  }

  // ---- Open ----

  /** `activateMirror`: seeds the bootstrap tables the registry lacks. */
  method ActivateMirror(schema: seq<TableDef>, db0: Mirror) returns (db: Mirror)
    ensures db == SeedUpTo(schema, db0, |schema|)
  {
    db := db0;
    for i := 0 to |schema|
      invariant db == SeedUpTo(schema, db0, i)
    {
      if i !in db.reg {
        db := Register(Companion(db.reg, db), i, schema[i]).db;
      }
    }
  }

  /** `removeDrainedSegments`. */
  method RemoveDrained(d: Disk, segs: seq<nat>) returns (files: map<nat, Bytes>)
    requires SegmentList(d.files, segs)
    ensures files == Undrained(d)
  {
    var files0, cursor := d.files, d.cursor;
    files := files0;
    for i := 0 to |segs|
      invariant forall n :: n in files <==> n in files0 && (n > cursor || forall j :: 0 <= j < i ==> segs[j] != n)
      invariant forall n :: n in files ==> files[n] == files0[n]
    {
      if segs[i] <= cursor { files := files - {segs[i]}; }
    }
    forall n ensures n in files <==> n in files0 && n > cursor {
      if n in files0 && n <= cursor {
        assert n in segs;
        var j :| 0 <= j < |segs| && segs[j] == n;
      }
    }
  }

  /** `sameTableDef` against every bootstrap table already in the registry. */
  method BootDefsMatch(schema: seq<TableDef>, reg: map<nat, TableDef>) returns (ok: bool)
    requires forall i :: 0 <= i < |schema| ==> i in reg
    ensures ok <==> BootPresent(schema, reg)
  {
    for i := 0 to |schema|
      invariant forall j :: 0 <= j < i ==> j in reg && reg[j] == schema[j]
    {
      if reg[i] != schema[i] { return false; }
    }
    return true;
  }

  lemma {:induction false} SeededHas(schema: seq<TableDef>, db: Mirror, n: nat)
    requires n <= |schema|
    ensures forall i :: 0 <= i < n ==> i in SeedUpTo(schema, db, n).reg
  {
    if n > 0 { SeededHas(schema, db, n - 1); }
  }

  /** The tail above the cursor, on top of the base. */
  method ReplayAbove(crc: Bytes -> Checksum, d: Disk, tail: seq<nat>, base: Memory) returns (mem: Option<Memory>)
    requires SegmentList(Undrained(d), tail)
    ensures mem == ReplayOnto(crc, Undrained(d), Some(base), d.cursor + 1, MaxSeg(d.files))
  {
    TailTop(crc, d, base);
    mem := ReplaySegments(crc, Undrained(d), tail, d.cursor, base);
  }

  /** `Open` up to serving: the mirror is seeded and loaded, the drained segments removed,
      the tail replayed, and numbering goes on above both files and cursor. `segs` and
      `tail` list the directory before and after the removal. */
  method OpenDb(cfg: Config, d: Disk, segs: seq<nat>, tail: seq<nat>) returns (r: Option<Opened>)
    requires SegmentList(d.files, segs) && SegmentList(Undrained(d), tail)
    requires Consistent(SeedUpTo(cfg.schema, d.db, |cfg.schema|))
    ensures r == Open(cfg, d)
  {
    var db := ActivateMirror(cfg.schema, d.db);
    SeededHas(cfg.schema, d.db, |cfg.schema|);
    LastIsTop(d.files, segs);
    var seg := if segs == [] then 0 else segs[|segs| - 1];
    var same := BootDefsMatch(cfg.schema, db.reg);
    if !same {
      OpenRefuses(cfg, d, db);
      return None;
    }
    var base := RecoverFromSqlite(db);
    if base.None? {
      OpenRefuses(cfg, d, db);
      return None;
    }
    var files := RemoveDrained(d, segs);
    var mem := ReplayAbove(cfg.crc, d, tail, base.value);
    assert base == Some(base.value);
    OpenIs(cfg, d, db, base, mem);
    if mem.None? { return None; }
    if seg < d.cursor { seg := d.cursor; }
    return Some(Opened(Disk(files, db, d.cursor), mem.value, seg));
  }

  lemma OpenIs(cfg: Config, d: Disk, db: Mirror, base: Option<Memory>, mem: Option<Memory>)
    requires base == Recover(db)
    requires mem == ReplayOnto(cfg.crc, Undrained(d), base, d.cursor + 1, MaxSeg(d.files))
    ensures mem == Replayed(cfg, d, db)
  {}

  /** An Open that finds another schema, or a mirror it cannot load, refuses. */
  lemma OpenRefuses(cfg: Config, d: Disk, db: Mirror)
    requires !BootPresent(cfg.schema, db.reg) || Recover(db).None?
    ensures OpenFrom(cfg, d, db).None?
  {}

  /** Removing drained files does not change what is replayed. */
  lemma TailTop(crc: Bytes -> Checksum, d: Disk, m: Memory)
    ensures ReplayTail(crc, Undrained(d), m, d.cursor + 1, MaxSeg(Undrained(d))) == ReplayOnto(crc, Undrained(d), Some(m), d.cursor + 1, MaxSeg(d.files))
  {
    var top := MaxSeg(d.files);
    if top > d.cursor {
      assert top in Undrained(d);
      assert MaxSeg(Undrained(d)) == top;
    } else {
      forall n ensures n !in Undrained(d) { assert n in d.files ==> n <= top; }
      assert Undrained(d) == map[];
    }
  }
}
