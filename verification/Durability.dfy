/** The durability protocol as a state machine: live writes into a pending buffer,
    flushes into numbered segments, drains into the mirror, crashes at any point, and
    Open (wal.go, wal_segment.go, drain.go, db.go, recover_sqlite.go). */
module Durability {
  import opened Wrappers
  import opened ByteStrings
  import opened Codec
  import opened Framing
  import opened Records
  import opened Interpreters
  import opened LiveLog
  import opened DrainRetry

  const FLUSH_MAX_BYTES: nat := 0x10_0000

  /** The checksum, and the schema every Open is given. */
  datatype Config = Config(crc: Bytes -> Checksum, schema: seq<TableDef>)

  ghost predicate ConfigOk(cfg: Config) {
    && (forall i :: 0 <= i < |cfg.schema| ==> ValidDef(cfg.schema[i]))
    && forall i, j :: 0 <= i < j < |cfg.schema| ==> cfg.schema[i].name != cfg.schema[j].name
  }

  function Kept(cfg: Config): set<Bytes> {
    set def | def in cfg.schema :: def.name
  }

  // ---- segments ----

  function Envelopes(rs: seq<Record>): seq<Envelope> {
    seq(|rs|, i requires 0 <= i < |rs| => EncodeRecord(rs[i]))
  }

  function SegmentBytes(crc: Bytes -> Checksum, rs: seq<Record>): Bytes {
    FrameAll(crc, Envelopes(rs))
  }

  /** The records a reader gets from a file, and whether it must stop the reader: broken
      framing only ends the file early, anything else undecodable is fatal. */
  datatype Reading = Reading(records: seq<Record>, fatal: bool)

  function DecodeEnvelopes(es: seq<Envelope>): Reading {
    if es == [] then Reading([], false)
    else
      match DecodeRecord(es[0])
      case None => Reading([], true)
      case Some(r) =>
        var rest := DecodeEnvelopes(es[1..]);
        Reading([r] + rest.records, rest.fatal)
  }

  function ReadSegment(crc: Bytes -> Checksum, b: Bytes): Reading {
    var (es, end) := Scan(crc, b);
    var got := DecodeEnvelopes(es);
    Reading(got.records, got.fatal || end == BadVersion)
  }

  ghost predicate AllRecordsFit(rs: seq<Record>) {
    forall i :: 0 <= i < |rs| ==> RecordFits(rs[i])
  }

  lemma {:induction false} EnvelopesDecode(rs: seq<Record>)
    requires AllRecordsFit(rs)
    ensures DecodeEnvelopes(Envelopes(rs)) == Reading(rs, false) && AllFrameable(Envelopes(rs))
  {
    if rs != [] {
      RecordRoundTrip(rs[0]);
      assert Envelopes(rs)[1..] == Envelopes(rs[1..]);
      EnvelopesDecode(rs[1..]);
      assert [rs[0]] + rs[1..] == rs;
      forall i | 0 <= i < |rs| ensures Frameable(Envelopes(rs)[i]) {
        if i > 0 { assert Envelopes(rs)[i] == Envelopes(rs[1..])[i - 1]; }
      }
    }
  }

  /** A segment is read back as the records sealed into it. */
  lemma SegmentReads(crc: Bytes -> Checksum, rs: seq<Record>)
    requires AllRecordsFit(rs)
    ensures ReadSegment(crc, SegmentBytes(crc, rs)) == Reading(rs, false)
  {
    EnvelopesDecode(rs);
    FramedIsScanned(crc, Envelopes(rs));
  }

  lemma SegmentGrows(crc: Bytes -> Checksum, rs: seq<Record>, r: Record)
    ensures SegmentBytes(crc, rs + [r]) == SegmentBytes(crc, rs) + Frame(crc, EncodeRecord(r))
  {
    assert Envelopes(rs + [r]) == Envelopes(rs) + [EncodeRecord(r)];
    FrameAllConcat(crc, Envelopes(rs), [EncodeRecord(r)]);
    SingleFrame(crc, EncodeRecord(r));
  }

  lemma SegmentEmpty(crc: Bytes -> Checksum, rs: seq<Record>)
    ensures SegmentBytes(crc, rs) == [] <==> rs == []
  {
    if rs != [] {
      assert |Frame(crc, Envelopes(rs)[0])| > 0;
    }
  }

  // ---- state ----

  /** What survives a crash: sealed files by number, and the mirror with its cursor. */
  datatype Disk = Disk(files: map<nat, Bytes>, db: Mirror, cursor: nat)

  datatype Wal = Wal(buf: Bytes, seg: nat, halted: bool)

  datatype Proc =
    | Down
    | Up(mem: Memory, slots: nat, wal: Wal, tables: map<nat, TableDef>)

  /** Every record journaled so far and not lost: sealed segments 1..n, then the pending
      buffer; `refused` marks a last record whose statement was told it failed. */
  datatype History = History(sealed: seq<seq<Record>>, pending: seq<Record>, refused: bool)

  datatype State = State(disk: Disk, proc: Proc, hist: History)

  /** A flush: sealed; failed before the rename; or renamed but reported as failed. */
  datatype FlushOutcome = Sealed | LostBefore | LostAfter

  datatype Step =
    | Write(req: Request, outcome: FlushOutcome)
    | Flush(outcome: FlushOutcome)
    | DrainCommit
    | DrainRollback(k: nat)
    | RemoveFile(n: nat)
    | Crash
    | Seed(i: nat, registered: bool)
    | Reopen(slots: nat)
    | Close(outcome: FlushOutcome)

  function Flatten(ss: seq<seq<Record>>): seq<Record> {
    if ss == [] then [] else Flatten(ss[..|ss| - 1]) + ss[|ss| - 1]
  }

  function Journaled(h: History): seq<Record> {
    Flatten(h.sealed) + h.pending
  }

  /** The records whose statements were told they took effect. */
  function Acknowledged(h: History): seq<Record> {
    var all := Journaled(h);
    if h.refused && all != [] then all[..|all| - 1] else all
  }

  // ---- the bootstrap schema ----

  function BootMemory(schema: seq<TableDef>, n: nat): Memory
    requires n <= |schema|
  {
    if n == 0 then Memory(map[], map[]) else WithTable(BootMemory(schema, n - 1), n - 1, schema[n - 1])
  }

  function Boot(cfg: Config): Memory {
    BootMemory(cfg.schema, |cfg.schema|)
  }

  /** `activateMirror`: registers the bootstrap tables the mirror does not have. */
  function SeedUpTo(schema: seq<TableDef>, db: Mirror, n: nat): Mirror
    requires n <= |schema|
  {
    if n == 0 then db
    else
      var d := SeedUpTo(schema, db, n - 1);
      if n - 1 in d.reg then d else Register(Companion(d.reg, d), n - 1, schema[n - 1]).db
  }

  function BootDb(cfg: Config): Mirror {
    SeedUpTo(cfg.schema, Mirror(map[], map[]), |cfg.schema|)
  }

  function View(db: Mirror): Companion {
    Companion(db.reg, db)
  }

  ghost predicate BootPresent(schema: seq<TableDef>, reg: map<nat, TableDef>) {
    forall i :: 0 <= i < |schema| ==> i in reg && reg[i] == schema[i]
  }

  // ---- flushing ----

  /** `flushLocked`: the new log state, the files, and whether the caller sees success. */
  function FlushWal(w: Wal, files: map<nat, Bytes>, outcome: FlushOutcome): (Wal, map<nat, Bytes>, bool) {
    if w.halted then (w, files, false)
    else if w.buf == [] then (w, files, true)
    else
      match outcome
      case Sealed => (Wal([], w.seg + 1, false), files[w.seg + 1 := w.buf], true)
      case LostBefore => (Wal(w.buf, w.seg, true), files, false)
      case LostAfter => (Wal(w.buf, w.seg, true), files[w.seg + 1 := w.buf], false)
  }

  function FlushHistory(w: Wal, h: History, outcome: FlushOutcome): History {
    if w.halted || w.buf == [] || outcome == LostBefore then h
    else History(h.sealed + [h.pending], [], h.refused)
  }

  // ---- opening ----

  ghost predicate IsMax(files: map<nat, Bytes>, n: nat) {
    n in files && forall k :: k in files ==> k <= n
  }

  lemma {:induction false} MaxExists(files: map<nat, Bytes>)
    requires files != map[]
    ensures exists n :: IsMax(files, n)
    decreases |files|
  {
    var k :| k in files;
    var rest := files - {k};
    if rest == map[] {
      forall j | j in files ensures j == k { assert j != k ==> j in rest; }
      assert IsMax(files, k);
    } else {
      MaxExists(rest);
      var m: nat :| IsMax(rest, m);
      assert forall j :: j in files ==> j == k || j in rest;
      assert IsMax(files, if k > m then k else m);
    }
  }

  /** `scanMaxSeg`. */
  ghost function MaxSeg(files: map<nat, Bytes>): (n: nat)
    ensures files == map[] ==> n == 0
    ensures files != map[] ==> IsMax(files, n)
  {
    if files == map[] then 0
    else
      MaxExists(files);
      var n: nat :| IsMax(files, n);
      n
  }

  /** `replaySegments` from `n` to the highest file: a missing number aborts; a file with
      broken framing contributes its good prefix. */
  ghost function ReplayTail(crc: Bytes -> Checksum, files: map<nat, Bytes>, m: Memory, n: nat, top: nat): Option<Memory>
    decreases top + 1 - n
  {
    if n > top then Some(m)
    else if n !in files then None
    else
      var got := ReadSegment(crc, files[n]);
      match Replay(m, got.records)
      case None => None
      case Some(m') => if got.fatal then None else ReplayTail(crc, files, m', n + 1, top)
  }

  /** `removeDrainedSegments`. */
  function Undrained(d: Disk): map<nat, Bytes> {
    map n | n in d.files && n > d.cursor :: d.files[n]
  }

  /** What Open makes of the disk: the disk it leaves, the memory it serves, the number
      of the last segment; None when it refuses. */
  datatype Opened = Opened(disk: Disk, mem: Memory, seg: nat)

  ghost function Open(cfg: Config, d: Disk): Option<Opened> {
    OpenFrom(cfg, d, SeedUpTo(cfg.schema, d.db, |cfg.schema|))
  }

  ghost function OpenFrom(cfg: Config, d: Disk, db: Mirror): Option<Opened> {
    OpenSeeded(cfg, d, db, Replayed(cfg, d, db), MaxSeg(d.files))
  }

  /** The tail above the cursor, on top of what the mirror holds. */
  ghost function Replayed(cfg: Config, d: Disk, db: Mirror): Option<Memory> {
    ReplayOnto(cfg.crc, Undrained(d), Recover(db), d.cursor + 1, MaxSeg(d.files))
  }

  ghost function ReplayOnto(crc: Bytes -> Checksum, files: map<nat, Bytes>, base: Option<Memory>, n: nat, top: nat): Option<Memory> {
    match base
    case None => None
    case Some(m) => ReplayTail(crc, files, m, n, top)
  }

  /** Open once the mirror is seeded and the tail replayed: the drained files are gone and
      numbering goes on above both the files and the cursor. */
  ghost function OpenSeeded(cfg: Config, d: Disk, db: Mirror, replayed: Option<Memory>, top: nat): Option<Opened> {
    if replayed.None? || !BootPresent(cfg.schema, db.reg) then None
    else Some(Opened(Disk(Undrained(d), db, d.cursor), replayed.value, if top < d.cursor then d.cursor else top))
  }

  // ---- steps ----

  ghost function DoWrite(cfg: Config, s: State, req: Request, outcome: FlushOutcome): Option<State> {
    if !s.proc.Up? then None
    else
      var w := s.proc.wal;
      match Live(s.proc.mem, s.proc.slots, Kept(cfg), req)
      case None => Some(s)
      case Some((mem, rec)) =>
        if w.halted then Some(s)
        else if !RecordFits(rec) then None
        else
          var w' := Wal(w.buf + Frame(cfg.crc, EncodeRecord(rec)), w.seg, false);
          var h := History(s.hist.sealed, s.hist.pending + [rec], false);
          var slots := s.proc.slots + if req.MakeTable? then 1 else 0;
          if |w'.buf| < FLUSH_MAX_BYTES then Some(State(s.disk, Up(mem, slots, w', s.proc.tables), h))
          else
            var (w'', files, ok) := FlushWal(w', s.disk.files, outcome);
            var h' := FlushHistory(w', h, outcome);
            var disk := Disk(files, s.disk.db, s.disk.cursor);
            if ok then Some(State(disk, Up(mem, slots, w'', s.proc.tables), h'))
            else Some(State(disk, Up(s.proc.mem, s.proc.slots, w'', s.proc.tables), History(h'.sealed, h'.pending, true)))
  }

  ghost function DoFlush(s: State, outcome: FlushOutcome): Option<State> {
    if !s.proc.Up? then None
    else
      var p := s.proc;
      var (w, files, _) := FlushWal(p.wal, s.disk.files, outcome);
      Some(State(Disk(files, s.disk.db, s.disk.cursor), Up(p.mem, p.slots, w, p.tables), FlushHistory(p.wal, s.hist, outcome)))
  }

  /** The records of the next undrained segment, when there is one that can be drained. */
  ghost function NextSegment(cfg: Config, s: State): Option<seq<Record>> {
    var n := s.disk.cursor + 1;
    if !s.proc.Up? || n !in s.disk.files || ReadSegment(cfg.crc, s.disk.files[n]).fatal then None
    else Some(ReadSegment(cfg.crc, s.disk.files[n]).records)
  }

  /** `drainSegment` up to its commit: the segment's records and the cursor, atomically. */
  ghost function DoDrain(cfg: Config, s: State): Option<State> {
    match NextSegment(cfg, s)
    case None => None
    case Some(rs) =>
      match Drain(Companion(s.proc.tables, s.disk.db), rs)
      case None => None
      case Some(c) =>
        Some(State(Disk(s.disk.files, c.db, s.disk.cursor + 1), Up(s.proc.mem, s.proc.slots, s.proc.wal, c.tables), s.hist))
  }

  /** A drain attempt that gets through `k` records and is rolled back, without dropping a
      table of the file or one it leaves registered: exactly the attempts whose retry comes
      out right (`DrainRetry`). */
  ghost function DoRollback(cfg: Config, s: State, k: nat): Option<State> {
    match NextSegment(cfg, s)
    case None => None
    case Some(rs) =>
      if k > |rs| || Drain(View(s.disk.db), rs[..k]).None? || !RetrySafe(View(s.disk.db), rs, k) then None
      else
        match Drain(Companion(s.proc.tables, s.disk.db), rs[..k])
        case None => None
        case Some(c) => Some(State(s.disk, Up(s.proc.mem, s.proc.slots, s.proc.wal, c.tables), s.hist))
  }

  /** Open succeeding, with some table id above all in use as the next. */
  ghost function DoReopen(result: Option<Opened>, h: History, slots: nat): Option<State> {
    match result
    case None => None
    case Some(o) =>
      if SlotsFree(o.mem, slots) then Some(State(o.disk, Up(o.mem, slots, Wal([], o.seg, false), o.disk.db.reg), h)) else None
  }

  /** A drained file is deleted, by the drain or by the next Open. */
  function DoRemove(s: State, n: nat): Option<State> {
    if n in s.disk.files && n <= s.disk.cursor then
      Some(State(Disk(s.disk.files - {n}, s.disk.db, s.disk.cursor), s.proc, s.hist))
    else None
  }

  /** One bootstrap table seeded by an Open that got no further: its SQL table, and
      perhaps its registry row. */
  function DoSeed(cfg: Config, s: State, i: nat, registered: bool): Option<State> {
    if s.proc.Up? || i >= |cfg.schema| || i in s.disk.db.reg then None
    else
      var db := Register(View(s.disk.db), i, cfg.schema[i]).db;
      Some(State(Disk(s.disk.files, if registered then db else Mirror(s.disk.db.reg, db.data), s.disk.cursor), Down, s.hist))
  }

  function DoCrash(s: State): State {
    State(s.disk, Down, History(s.hist.sealed, [], false))
  }

  /** The closing flush, and the end of the process. */
  ghost function DoClose(s: State, outcome: FlushOutcome): Option<State> {
    match DoFlush(s, outcome)
    case None => None
    case Some(s') => Some(DoCrash(s'))
  }

  ghost function Do(cfg: Config, s: State, step: Step): Option<State> {
    match step
    case Write(req, outcome) => DoWrite(cfg, s, req, outcome)
    case Flush(outcome) => DoFlush(s, outcome)
    case DrainCommit => DoDrain(cfg, s)
    case DrainRollback(k) => DoRollback(cfg, s, k)
    case RemoveFile(n) => DoRemove(s, n)
    case Crash => Some(DoCrash(s))
    case Seed(i, registered) => DoSeed(cfg, s, i, registered)
    case Reopen(slots) => if s.proc.Up? then None else DoReopen(Open(cfg, s.disk), s.hist, slots)
    case Close(outcome) => DoClose(s, outcome)
  }

  ghost function Run(cfg: Config, s: State, steps: seq<Step>): Option<State>
    decreases |steps|
  {
    if steps == [] then Some(s)
    else
      match Do(cfg, s, steps[0])
      case None => None
      case Some(s') => Run(cfg, s', steps[1..])
  }

  /** Nothing on disk yet. */
  function Init(): State {
    State(Disk(map[], Mirror(map[], map[]), 0), Down, History([], [], false))
  }

  // ---- the invariant ----

  /** A log the live paths can have produced from the bootstrap catalog. */
  ghost predicate LogOk(cfg: Config, rs: seq<Record>) {
    LogFollows(Boot(cfg), rs) && AllRecordsFit(rs) && KeepsBoot(cfg, rs)
  }

  ghost predicate KeepsBoot(cfg: Config, rs: seq<Record>) {
    forall i :: 0 <= i < |rs| ==> rs[i].DropTable? ==> rs[i].name !in Kept(cfg)
  }

  /** Files are numbered from 1; above the cursor none is missing, and each holds its
      segment. */
  ghost predicate FilesOk(cfg: Config, d: Disk, sealed: seq<seq<Record>>) {
    && d.cursor <= |sealed|
    && (forall n :: n in d.files ==> 1 <= n <= |sealed|)
    && forall n :: d.cursor < n <= |sealed| ==> n in d.files && d.files[n] == SegmentBytes(cfg.crc, sealed[n - 1])
  }

  /** The mirror holds exactly the records of the segments up to the cursor; before the
      first complete Open it may hold only part of the bootstrap schema. */
  ghost predicate MirrorOk(cfg: Config, d: Disk, sealed: seq<seq<Record>>)
    requires d.cursor <= |sealed|
  {
    if BootPresent(cfg.schema, d.db.reg) then Drain(View(BootDb(cfg)), Flatten(sealed[..d.cursor])) == Some(View(d.db))
    else sealed == [] && PartSeeded(cfg.schema, d.db)
  }

  ghost predicate PartSeeded(schema: seq<TableDef>, db: Mirror) {
    && (forall id {:trigger id in db.reg} :: id in db.reg ==> id < |schema| && db.reg[id] == schema[id] && schema[id].name in db.data)
    && forall name {:trigger db.data[name]} :: name in db.data ==> db.data[name] == map[] && BootName(schema, name)
  }

  ghost predicate BootName(schema: seq<TableDef>, name: Bytes) {
    exists i :: 0 <= i < |schema| && schema[i].name == name
  }

  /** The process registry is the file's, but for entries failed attempts left early. */
  ghost predicate RegistryOk(tables: map<nat, TableDef>, d: Disk, sealed: seq<seq<Record>>)
    requires d.cursor <= |sealed|
  {
    if d.cursor < |sealed| then Loose(tables, d.db.reg, sealed[d.cursor], 0) else tables == d.db.reg
  }

  ghost predicate ProcOk(cfg: Config, s: State)
    requires s.proc.Up? && s.disk.cursor <= |s.hist.sealed|
  {
    var w := s.proc.wal;
    && BootPresent(cfg.schema, s.disk.db.reg)
    && Replay(Boot(cfg), Acknowledged(s.hist)) == Some(s.proc.mem)
    && SlotsFree(s.proc.mem, s.proc.slots)
    && (s.hist.refused ==> w.halted)
    && (!w.halted ==> w.buf == SegmentBytes(cfg.crc, s.hist.pending) && w.seg == |s.hist.sealed|)
    && RegistryOk(s.proc.tables, s.disk, s.hist.sealed)
  }

  ghost predicate Inv(cfg: Config, s: State) {
    && LogOk(cfg, Journaled(s.hist))
    && FilesOk(cfg, s.disk, s.hist.sealed)
    && MirrorOk(cfg, s.disk, s.hist.sealed)
    && (s.proc.Up? ==> ProcOk(cfg, s))
    && (s.proc.Down? ==> s.hist.pending == [] && !s.hist.refused)
  }
}
