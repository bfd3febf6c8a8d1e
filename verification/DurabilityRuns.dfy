/** Every run of the durability protocol: each step keeps the invariant, and so
    recovery, the mirror and clean closes are right after any run (wal.go, drain.go,
    db.go). */
module DurabilityRuns {
  import opened Wrappers
  import opened Codec
  import opened Framing
  import opened Records
  import opened Interpreters
  import opened LiveLog
  import opened DrainRetry
  import opened Durability
  import opened DurabilityInv

  // ---- writes ----

  lemma OneRecord(m: Memory, r: Record, m': Memory)
    requires Follows(m, r) && ApplyRecord(m, r) == Some(m')
    ensures LogFollows(m, [r]) && Replay(m, [r]) == Some(m')
  {
    assert [r][0] == r && [r][1..] == [];
    assert Replay(m', [r][1..]) == Some(m');
  }

  lemma LogSnoc(cfg: Config, rs: seq<Record>, m: Memory, r: Record, m': Memory)
    requires LogOk(cfg, rs) && Replay(Boot(cfg), rs) == Some(m)
    requires Follows(m, r) && ApplyRecord(m, r) == Some(m') && RecordFits(r) && (r.DropTable? ==> r.name !in Kept(cfg))
    ensures LogOk(cfg, rs + [r]) && Replay(Boot(cfg), rs + [r]) == Some(m')
  {
    OneRecord(m, r, m');
    LogPieces(cfg, rs, [r]);
    ReplayConcat(Boot(cfg), rs, [r]);
  }

  /** The journaled record extends the log the way replay reads it. */
  lemma WriteExtendsLog(cfg: Config, rs: seq<Record>, m: Memory, slots: nat, req: Request)
    requires ConfigOk(cfg) && LogOk(cfg, rs) && Replay(Boot(cfg), rs) == Some(m) && SlotsFree(m, slots)
    requires Live(m, slots, Kept(cfg), req).Some? && RecordFits(Live(m, slots, Kept(cfg), req).value.1)
    ensures var (m', r) := Live(m, slots, Kept(cfg), req).value;
            && LogOk(cfg, rs + [r]) && Replay(Boot(cfg), rs + [r]) == Some(m')
            && SlotsFree(m', slots + if req.MakeTable? then 1 else 0)
  {
    var kept := Kept(cfg);
    LogIsMirrored(cfg, rs);
    LiveReplays(m, slots, kept, req);
    LiveTakesSlot(m, slots, kept, req);
    LogSnoc(cfg, rs, m, Live(m, slots, kept, req).value.1, Live(m, slots, kept, req).value.0);
  }

  lemma PendingGrows(h: History, r: Record)
    ensures Journaled(History(h.sealed, h.pending + [r], false)) == Journaled(h) + [r]
    ensures Journaled(h) + [r] != [] && (Journaled(h) + [r])[..|Journaled(h) + [r]| - 1] == Journaled(h)
  {
    Regroup(Flatten(h.sealed), h.pending, [r]);
  }

  /** The state a write leaves when nothing had to be flushed. */
  ghost function Buffered(cfg: Config, s: State, req: Request): State
    requires s.proc.Up? && Live(s.proc.mem, s.proc.slots, Kept(cfg), req).Some?
  {
    var (m, r) := Live(s.proc.mem, s.proc.slots, Kept(cfg), req).value;
    State(s.disk, Up(m, s.proc.slots + if req.MakeTable? then 1 else 0,
                     Wal(s.proc.wal.buf + Frame(cfg.crc, EncodeRecord(r)), s.proc.wal.seg, false), s.proc.tables),
          History(s.hist.sealed, s.hist.pending + [r], false))
  }

  lemma BufferingKeepsInv(cfg: Config, s: State, req: Request)
    requires ConfigOk(cfg) && Inv(cfg, s) && s.proc.Up? && !s.proc.wal.halted
    requires Live(s.proc.mem, s.proc.slots, Kept(cfg), req).Some?
    requires RecordFits(Live(s.proc.mem, s.proc.slots, Kept(cfg), req).value.1)
    ensures Inv(cfg, Buffered(cfg, s, req)) && Acknowledged(Buffered(cfg, s, req).hist) == Journaled(Buffered(cfg, s, req).hist)
  {
    var r := Live(s.proc.mem, s.proc.slots, Kept(cfg), req).value.1;
    assert Acknowledged(s.hist) == Journaled(s.hist);
    WriteExtendsLog(cfg, Journaled(s.hist), s.proc.mem, s.proc.slots, req);
    PendingGrows(s.hist, r);
    SegmentGrows(cfg.crc, s.hist.pending, r);
  }

  // ---- flushes ----

  /** Sealing the pending records as the next segment, seen from the disk. */
  lemma SealKeepsDisk(cfg: Config, d: Disk, tables: map<nat, TableDef>, sealed: seq<seq<Record>>, last: seq<Record>)
    requires FilesOk(cfg, d, sealed) && BootPresent(cfg.schema, d.db.reg)
    requires MirrorOk(cfg, d, sealed) && RegistryOk(tables, d, sealed)
    ensures var d' := Disk(d.files[|sealed| + 1 := SegmentBytes(cfg.crc, last)], d.db, d.cursor);
            FilesOk(cfg, d', sealed + [last]) && MirrorOk(cfg, d', sealed + [last]) && RegistryOk(tables, d', sealed + [last])
  {
    var sealed' := sealed + [last];
    assert sealed'[..d.cursor] == sealed[..d.cursor];
    if d.cursor < |sealed| {
      assert sealed'[d.cursor] == sealed[d.cursor];
    }
  }

  lemma SealKeepsLog(h: History)
    ensures var h' := History(h.sealed + [h.pending], [], h.refused);
            Journaled(h') == Journaled(h) && Acknowledged(h') == Acknowledged(h)
  {
    var all := Flatten(h.sealed) + h.pending;
    FlattenSnoc(h.sealed, h.pending);
    assert all + [] == all;
  }

  lemma FlushKeepsInv(cfg: Config, s: State, outcome: FlushOutcome)
    requires ConfigOk(cfg) && Inv(cfg, s) && s.proc.Up?
    ensures Inv(cfg, DoFlush(s, outcome).value)
  {
    var w, h := s.proc.wal, s.hist;
    if !w.halted && w.buf != [] && outcome != LostBefore {
      SealKeepsDisk(cfg, s.disk, s.proc.tables, h.sealed, h.pending);
      SealKeepsLog(h);
    }
  }

  /** The state after a flush that failed inside a write: the statement is told so, and its
      effect on memory is not applied, wherever its record ended up. */
  ghost function AsRefused(s: State, f: State): State
    requires s.proc.Up? && f.proc.Up?
  {
    State(f.disk, Up(s.proc.mem, s.proc.slots, f.proc.wal, s.proc.tables), History(f.hist.sealed, f.hist.pending, true))
  }

  /** The refused record is the last one journaled. */
  lemma RefusedHistory(cfg: Config, s: State, req: Request, outcome: FlushOutcome)
    requires s.proc.Up? && Live(s.proc.mem, s.proc.slots, Kept(cfg), req).Some?
    ensures var f := DoFlush(Buffered(cfg, s, req), outcome).value;
            var r := Live(s.proc.mem, s.proc.slots, Kept(cfg), req).value.1;
            && Journaled(f.hist) == Journaled(s.hist) + [r]
            && Acknowledged(History(f.hist.sealed, f.hist.pending, true)) == Journaled(s.hist)
  {
    var b := Buffered(cfg, s, req);
    SealKeepsLog(b.hist);
    PendingGrows(s.hist, Live(s.proc.mem, s.proc.slots, Kept(cfg), req).value.1);
  }

  lemma RefusedWriteKeepsInv(cfg: Config, s: State, req: Request, outcome: FlushOutcome)
    requires ConfigOk(cfg) && Inv(cfg, s) && s.proc.Up? && !s.proc.wal.halted
    requires Live(s.proc.mem, s.proc.slots, Kept(cfg), req).Some?
    requires RecordFits(Live(s.proc.mem, s.proc.slots, Kept(cfg), req).value.1)
    requires outcome != Sealed && Buffered(cfg, s, req).proc.wal.buf != []
    ensures Inv(cfg, AsRefused(s, DoFlush(Buffered(cfg, s, req), outcome).value))
  {
    var b := Buffered(cfg, s, req);
    BufferingKeepsInv(cfg, s, req);
    FlushKeepsInv(cfg, b, outcome);
    var f := DoFlush(b, outcome).value;
    assert f.disk.db == s.disk.db && f.disk.cursor == s.disk.cursor && f.proc.wal.halted;
    RefusedHistory(cfg, s, req, outcome);
    AfterRefusal(cfg, s, f);
  }

  /** What a failed flush leaves needs only the memory put back. */
  lemma AfterRefusal(cfg: Config, s: State, f: State)
    requires Inv(cfg, s) && Inv(cfg, f) && s.proc.Up? && f.proc.Up? && !s.proc.wal.halted && f.proc.wal.halted
    requires f.proc.tables == s.proc.tables
    requires Acknowledged(History(f.hist.sealed, f.hist.pending, true)) == Journaled(s.hist)
    requires Journaled(f.hist) == Journaled(History(f.hist.sealed, f.hist.pending, true))
    ensures Inv(cfg, AsRefused(s, f))
  {}

  lemma WriteKeepsInv(cfg: Config, s: State, req: Request, outcome: FlushOutcome)
    requires ConfigOk(cfg) && Inv(cfg, s) && DoWrite(cfg, s, req, outcome).Some?
    ensures Inv(cfg, DoWrite(cfg, s, req, outcome).value)
  {
    var p := s.proc;
    if Live(p.mem, p.slots, Kept(cfg), req).Some? && !p.wal.halted {
      BufferingKeepsInv(cfg, s, req);
      var b := Buffered(cfg, s, req);
      if |b.proc.wal.buf| >= FLUSH_MAX_BYTES {
        FlushKeepsInv(cfg, b, outcome);
        if outcome != Sealed {
          RefusedWriteKeepsInv(cfg, s, req, outcome);
        }
      }
    }
  }

  // ---- drains ----

  lemma NextIsSealed(cfg: Config, s: State)
    requires ConfigOk(cfg) && Inv(cfg, s) && s.proc.Up?
    ensures NextSegment(cfg, s) == if s.disk.cursor < |s.hist.sealed| then Some(s.hist.sealed[s.disk.cursor]) else None
  {
    if s.disk.cursor < |s.hist.sealed| {
      AtCursor(cfg, s.disk, s.hist);
      SegmentReads(cfg.crc, s.hist.sealed[s.disk.cursor]);
    }
  }

  /** A sealed segment can always be drained, whatever failed attempts came before. */
  lemma DrainSucceeds(cfg: Config, s: State)
    requires ConfigOk(cfg) && Inv(cfg, s) && s.proc.Up? && s.disk.cursor < |s.hist.sealed|
    ensures DoDrain(cfg, s).Some? && Inv(cfg, DoDrain(cfg, s).value)
  {
    NextIsSealed(cfg, s);
    FindPickValid();
    RegistryDrains(cfg, s.proc.tables, s.disk, s.hist, FindPick());
    CleanDrain(cfg, s.disk, s.hist);
  }

  /** A safe attempt from a loose registry leaves a loose registry. */
  lemma RollbackKeepsRegistry(cfg: Config, d: Disk, h: History, tables: map<nat, TableDef>, k: nat)
    requires ConfigOk(cfg) && LogOk(cfg, Journaled(h)) && d.cursor < |h.sealed|
    requires MirrorOk(cfg, d, h.sealed) && BootPresent(cfg.schema, d.db.reg) && RegistryOk(tables, d, h.sealed)
    requires k <= |h.sealed[d.cursor]| && Drain(View(d.db), h.sealed[d.cursor][..k]).Some? && RetrySafe(View(d.db), h.sealed[d.cursor], k)
    requires Drain(Companion(tables, d.db), h.sealed[d.cursor][..k]).Some?
    ensures RegistryOk(Drain(Companion(tables, d.db), h.sealed[d.cursor][..k]).value.tables, d, h.sealed)
  {
    AtCursor(cfg, d, h);
    var m, rs := Replay(Boot(cfg), Flatten(h.sealed[..d.cursor])).value, h.sealed[d.cursor];
    FindPickValid();
    SafeStaysLoose(m, View(d.db), Companion(tables, d.db), rs, k, FindPick());
    DrainIsBy(Companion(tables, d.db), rs[..k]);
  }

  lemma RollbackKeepsInv(cfg: Config, s: State, k: nat)
    requires ConfigOk(cfg) && Inv(cfg, s) && DoRollback(cfg, s, k).Some?
    ensures Inv(cfg, DoRollback(cfg, s, k).value)
  {
    NextIsSealed(cfg, s);
    RollbackKeepsRegistry(cfg, s.disk, s.hist, s.proc.tables, k);
  }

  // ---- crashes, closes, opens ----

  lemma CrashKeepsInv(cfg: Config, s: State)
    requires ConfigOk(cfg) && Inv(cfg, s)
    ensures Inv(cfg, DoCrash(s))
  {
    SealedLogOk(cfg, s.hist);
    assert Flatten(s.hist.sealed) + [] == Flatten(s.hist.sealed);
  }

  lemma SeedKeepsInv(cfg: Config, s: State, i: nat, registered: bool)
    requires ConfigOk(cfg) && Inv(cfg, s) && DoSeed(cfg, s, i, registered).Some?
    ensures Inv(cfg, DoSeed(cfg, s, i, registered).value)
  {
    var d, d' := s.disk, DoSeed(cfg, s, i, registered).value.disk;
    assert !BootPresent(cfg.schema, d.db.reg);
    SeedOne(cfg.schema, d.db, i);
    if BootPresent(cfg.schema, d'.db.reg) {
      CompleteSeedingIsBoot(cfg, d'.db);
      assert s.hist.sealed[..d.cursor] == [];
    }
  }

  lemma OpenKeepsDisk(cfg: Config, d: Disk, h: History)
    requires ConfigOk(cfg) && LogOk(cfg, Journaled(h)) && FilesOk(cfg, d, h.sealed) && MirrorOk(cfg, d, h.sealed)
    ensures var d' := Disk(Undrained(d), SeedUpTo(cfg.schema, d.db, |cfg.schema|), d.cursor);
            FilesOk(cfg, d', h.sealed) && MirrorOk(cfg, d', h.sealed) && BootPresent(cfg.schema, d'.db.reg)
  {
    SeededMirror(cfg, d, h);
  }

  lemma OpenGives(cfg: Config, d: Disk, h: History) returns (o: Opened)
    requires ConfigOk(cfg) && LogOk(cfg, Journaled(h)) && FilesOk(cfg, d, h.sealed) && MirrorOk(cfg, d, h.sealed)
    ensures Open(cfg, d) == Some(o)
    ensures FilesOk(cfg, o.disk, h.sealed) && MirrorOk(cfg, o.disk, h.sealed) && BootPresent(cfg.schema, o.disk.db.reg)
    ensures Replay(Boot(cfg), Flatten(h.sealed)) == Some(o.mem) && o.seg == |h.sealed|
  {
    OpenRecoversFrom(cfg, d, h);
    OpenKeepsDisk(cfg, d, h);
    o := Open(cfg, d).value;
  }

  lemma ReopenKeepsInv(cfg: Config, s: State, slots: nat)
    requires ConfigOk(cfg) && Inv(cfg, s) && s.proc.Down? && DoReopen(Open(cfg, s.disk), s.hist, slots).Some?
    ensures Inv(cfg, DoReopen(Open(cfg, s.disk), s.hist, slots).value)
  {
    var o := OpenGives(cfg, s.disk, s.hist);
    SegmentEmpty(cfg.crc, []);
    NothingPending(s.hist);
    ReopenIs(s.hist, slots, o);
    OpenedInv(cfg, s.hist, o, slots);
    SameInv(cfg, State(o.disk, Up(o.mem, slots, Wal([], o.seg, false), o.disk.db.reg), s.hist), DoReopen(Open(cfg, s.disk), s.hist, slots).value);
  }

  lemma ReopenIs(h: History, slots: nat, o: Opened)
    requires DoReopen(Some(o), h, slots).Some?
    ensures SlotsFree(o.mem, slots)
    ensures DoReopen(Some(o), h, slots) == Some(State(o.disk, Up(o.mem, slots, Wal([], o.seg, false), o.disk.db.reg), h))
  {}

  lemma SameInv(cfg: Config, a: State, b: State)
    requires Inv(cfg, a) && a == b
    ensures Inv(cfg, b)
  {}

  lemma NothingPending(h: History)
    requires h.pending == [] && !h.refused
    ensures Acknowledged(h) == Flatten(h.sealed)
  {
    assert Flatten(h.sealed) + [] == Flatten(h.sealed);
  }

  lemma OpenedInv(cfg: Config, h: History, o: Opened, slots: nat)
    requires LogOk(cfg, Journaled(h)) && h.pending == [] && !h.refused
    requires FilesOk(cfg, o.disk, h.sealed) && MirrorOk(cfg, o.disk, h.sealed) && BootPresent(cfg.schema, o.disk.db.reg)
    requires Replay(Boot(cfg), Acknowledged(h)) == Some(o.mem) && o.seg == |h.sealed| && SlotsFree(o.mem, slots)
    requires SegmentBytes(cfg.crc, []) == []
    ensures Inv(cfg, State(o.disk, Up(o.mem, slots, Wal([], o.seg, false), o.disk.db.reg), h))
  {}

  // ---- every step, every run ----

  lemma StepKeepsInv(cfg: Config, s: State, step: Step)
    requires ConfigOk(cfg) && Inv(cfg, s) && Do(cfg, s, step).Some?
    ensures Inv(cfg, Do(cfg, s, step).value)
  {
    match step
    case Write(req, outcome) => WriteKeepsInv(cfg, s, req, outcome);
    case Flush(outcome) => FlushKeepsInv(cfg, s, outcome);
    case DrainCommit => DrainKeepsInv(cfg, s);
    case DrainRollback(k) => RollbackKeepsInv(cfg, s, k);
    case RemoveFile(n) => RemoveKeepsInv(cfg, s, n);
    case Crash => CrashKeepsInv(cfg, s);
    case Seed(i, registered) => SeedKeepsInv(cfg, s, i, registered);
    case Reopen(slots) => ReopenKeepsInv(cfg, s, slots);
    case Close(outcome) => CloseKeepsInv(cfg, s, outcome);
  }

  lemma DrainKeepsInv(cfg: Config, s: State)
    requires ConfigOk(cfg) && Inv(cfg, s) && DoDrain(cfg, s).Some?
    ensures Inv(cfg, DoDrain(cfg, s).value)
  {
    NextIsSealed(cfg, s);
    DrainSucceeds(cfg, s);
  }

  lemma CloseKeepsInv(cfg: Config, s: State, outcome: FlushOutcome)
    requires ConfigOk(cfg) && Inv(cfg, s) && DoClose(s, outcome).Some?
    ensures Inv(cfg, DoClose(s, outcome).value)
  {
    FlushKeepsInv(cfg, s, outcome);
    CrashKeepsInv(cfg, DoFlush(s, outcome).value);
  }

  lemma RemoveKeepsInv(cfg: Config, s: State, n: nat)
    requires ConfigOk(cfg) && Inv(cfg, s) && DoRemove(s, n).Some?
    ensures Inv(cfg, DoRemove(s, n).value)
  {
    RemoveKeepsFiles(cfg, s.disk, s.hist.sealed, n);
  }

  lemma RemoveKeepsFiles(cfg: Config, d: Disk, sealed: seq<seq<Record>>, n: nat)
    requires FilesOk(cfg, d, sealed) && n <= d.cursor
    ensures FilesOk(cfg, Disk(d.files - {n}, d.db, d.cursor), sealed)
  {}

  lemma InitInv(cfg: Config)
    requires ConfigOk(cfg)
    ensures Inv(cfg, Init())
  {
    var d := Init().disk;
    if BootPresent(cfg.schema, d.db.reg) {
      CompleteSeedingIsBoot(cfg, d.db);
    }
  }

  lemma {:induction false} RunKeepsInv(cfg: Config, s: State, steps: seq<Step>)
    requires ConfigOk(cfg) && Inv(cfg, s) && Run(cfg, s, steps).Some?
    ensures Inv(cfg, Run(cfg, s, steps).value)
    decreases |steps|
  {
    if steps != [] {
      StepKeepsInv(cfg, s, steps[0]);
      RunKeepsInv(cfg, Do(cfg, s, steps[0]).value, steps[1..]);
    }
  }

  // ---- what every run gives ----

  /** In every reachable state the mirror is the fold of the segments up to the cursor. */
  lemma MirrorIsFold(cfg: Config, steps: seq<Step>)
    requires ConfigOk(cfg) && Run(cfg, Init(), steps).Some?
    ensures var s := Run(cfg, Init(), steps).value;
            && s.disk.cursor <= |s.hist.sealed|
            && (s.proc.Up? ==> Drain(View(BootDb(cfg)), Flatten(s.hist.sealed[..s.disk.cursor])) == Some(View(s.disk.db)))
  {
    InitInv(cfg);
    RunKeepsInv(cfg, Init(), steps);
  }

  ghost predicate HoldsSegment(cfg: Config, s: State, n: nat) {
    && 1 <= n <= |s.hist.sealed| && n in s.disk.files
    && ReadSegment(cfg.crc, s.disk.files[n]) == Reading(s.hist.sealed[n - 1], false)
  }

  /** In every reachable state the files above the cursor are contiguous and hold their
      records, no file is numbered past the last segment, and the number the next flush
      takes is above the cursor and free. */
  lemma FilesAreContiguous(cfg: Config, steps: seq<Step>)
    requires ConfigOk(cfg) && Run(cfg, Init(), steps).Some?
    ensures var s := Run(cfg, Init(), steps).value;
            && (forall n :: s.disk.cursor < n <= |s.hist.sealed| ==> HoldsSegment(cfg, s, n))
            && (forall n :: n in s.disk.files ==> n <= |s.hist.sealed|)
            && (s.proc.Up? && !s.proc.wal.halted ==> s.proc.wal.seg + 1 > s.disk.cursor && s.proc.wal.seg + 1 !in s.disk.files)
  {
    InitInv(cfg);
    RunKeepsInv(cfg, Init(), steps);
    InvFiles(cfg, Run(cfg, Init(), steps).value);
  }

  lemma InvFiles(cfg: Config, s: State)
    requires ConfigOk(cfg) && Inv(cfg, s)
    ensures forall n :: s.disk.cursor < n <= |s.hist.sealed| ==> HoldsSegment(cfg, s, n)
    ensures forall n :: n in s.disk.files ==> n <= |s.hist.sealed|
    ensures s.proc.Up? && !s.proc.wal.halted ==> s.proc.wal.seg + 1 > s.disk.cursor && s.proc.wal.seg + 1 !in s.disk.files
  {
    forall n | s.disk.cursor < n <= |s.hist.sealed| ensures HoldsSegment(cfg, s, n) { SegmentHeld(cfg, s.disk, s.hist, n); }
    if s.proc.Up? && !s.proc.wal.halted { assert s.proc.wal.seg == |s.hist.sealed|; }
  }

  lemma SegmentHeld(cfg: Config, d: Disk, h: History, n: nat)
    requires ConfigOk(cfg) && LogOk(cfg, Journaled(h)) && FilesOk(cfg, d, h.sealed) && d.cursor < n <= |h.sealed|
    ensures n in d.files && ReadSegment(cfg.crc, d.files[n]) == Reading(h.sealed[n - 1], false)
  {
    SegmentReplays(cfg, h, n);
  }

  /** Killed at any point of any run, the store reopens: nothing refuses, and it serves
      the state after a prefix of the journaled records (whole transactions only) that
      contains every sealed one. */
  lemma CrashRecovers(cfg: Config, steps: seq<Step>)
    requires ConfigOk(cfg) && Run(cfg, Init(), steps).Some?
    ensures var s := Run(cfg, Init(), steps).value;
            && Open(cfg, s.disk).Some?
            && Replay(Boot(cfg), Flatten(s.hist.sealed)) == Some(Open(cfg, s.disk).value.mem)
            && Flatten(s.hist.sealed) <= Journaled(s.hist)
            && (s.proc.Up? ==> Replay(Boot(cfg), Acknowledged(s.hist)) == Some(s.proc.mem))
  {
    InitInv(cfg);
    RunKeepsInv(cfg, Init(), steps);
    var s := Run(cfg, Init(), steps).value;
    CrashKeepsInv(cfg, s);
    OpenRecovers(cfg, DoCrash(s));
  }

  /** A clean close loses nothing: the store reopens with the memory it was closed with. */
  lemma CleanCloseLosesNothing(cfg: Config, steps: seq<Step>)
    requires ConfigOk(cfg) && Run(cfg, Init(), steps).Some?
    requires var s := Run(cfg, Init(), steps).value; s.proc.Up? && !s.proc.wal.halted
    ensures var s := Run(cfg, Init(), steps).value;
            var closed := DoClose(s, Sealed).value;
            Open(cfg, closed.disk).Some? && Open(cfg, closed.disk).value.mem == s.proc.mem
  {
    InitInv(cfg);
    RunKeepsInv(cfg, Init(), steps);
    var s := Run(cfg, Init(), steps).value;
    CloseSealsAll(cfg, s);
    OpenRecovers(cfg, DoClose(s, Sealed).value);
  }

  lemma CloseSealsAll(cfg: Config, s: State)
    requires ConfigOk(cfg) && Inv(cfg, s) && s.proc.Up? && !s.proc.wal.halted
    ensures var closed := DoClose(s, Sealed).value;
            Inv(cfg, closed) && Replay(Boot(cfg), Flatten(closed.hist.sealed)) == Some(s.proc.mem)
  {
    FlushKeepsInv(cfg, s, Sealed);
    CrashKeepsInv(cfg, DoFlush(s, Sealed).value);
    SegmentEmpty(cfg.crc, s.hist.pending);
    FlattenSnoc(s.hist.sealed, s.hist.pending);
    assert s.hist.pending == [] ==> Flatten(s.hist.sealed) + [] == Flatten(s.hist.sealed);
  }

  // ---- a statement told it failed ----

  lemma RefusedWriteIs(cfg: Config, s: State, req: Request, outcome: FlushOutcome)
    requires s.proc.Up? && !s.proc.wal.halted && Live(s.proc.mem, s.proc.slots, Kept(cfg), req).Some?
    requires RecordFits(Live(s.proc.mem, s.proc.slots, Kept(cfg), req).value.1)
    requires outcome != Sealed && |Buffered(cfg, s, req).proc.wal.buf| >= FLUSH_MAX_BYTES
    ensures DoWrite(cfg, s, req, outcome) == Some(AsRefused(s, DoFlush(Buffered(cfg, s, req), outcome).value))
  {}

  /** What is sealed after a refused write: everything up to its record, or nothing new. */
  lemma RefusedSealed(cfg: Config, s: State, req: Request, outcome: FlushOutcome)
    requires s.proc.Up? && !s.proc.wal.halted && Live(s.proc.mem, s.proc.slots, Kept(cfg), req).Some?
    requires outcome != Sealed && Buffered(cfg, s, req).proc.wal.buf != []
    ensures var f := DoFlush(Buffered(cfg, s, req), outcome).value;
            Flatten(f.hist.sealed) == if outcome == LostAfter then Journaled(Buffered(cfg, s, req).hist) else Flatten(s.hist.sealed)
  {
    var h := Buffered(cfg, s, req).hist;
    FlattenSnoc(h.sealed, h.pending);
  }

  /** When the flush inside a write fails, the statement is refused and memory does not
      change; yet if the failure came after the rename, its record is on disk and the
      next Open applies it. If it came before, nothing of the buffer survives. */
  lemma RefusedWriteAfterCrash(cfg: Config, s: State, req: Request, outcome: FlushOutcome)
    requires ConfigOk(cfg) && Inv(cfg, s) && s.proc.Up? && !s.proc.wal.halted
    requires Live(s.proc.mem, s.proc.slots, Kept(cfg), req).Some?
    requires RecordFits(Live(s.proc.mem, s.proc.slots, Kept(cfg), req).value.1)
    requires outcome != Sealed && |Buffered(cfg, s, req).proc.wal.buf| >= FLUSH_MAX_BYTES
    ensures DoWrite(cfg, s, req, outcome).Some?
    ensures var s' := DoWrite(cfg, s, req, outcome).value;
            && s'.proc.Up? && s'.proc.mem == s.proc.mem
            && Open(cfg, DoCrash(s').disk).Some?
            && Some(Open(cfg, DoCrash(s').disk).value.mem)
               == if outcome == LostAfter then Some(Live(s.proc.mem, s.proc.slots, Kept(cfg), req).value.0)
                  else Replay(Boot(cfg), Flatten(s.hist.sealed))
  {
    RefusedWriteIs(cfg, s, req, outcome);
    RefusedWriteKeepsInv(cfg, s, req, outcome);
    var s' := DoWrite(cfg, s, req, outcome).value;
    CrashKeepsInv(cfg, s');
    OpenRecovers(cfg, DoCrash(s'));
    RefusedSealed(cfg, s, req, outcome);
    BufferedReplays(cfg, s, req);
  }

  lemma BufferedReplays(cfg: Config, s: State, req: Request)
    requires ConfigOk(cfg) && Inv(cfg, s) && s.proc.Up? && !s.proc.wal.halted
    requires Live(s.proc.mem, s.proc.slots, Kept(cfg), req).Some?
    requires RecordFits(Live(s.proc.mem, s.proc.slots, Kept(cfg), req).value.1)
    ensures Replay(Boot(cfg), Journaled(Buffered(cfg, s, req).hist)) == Some(Live(s.proc.mem, s.proc.slots, Kept(cfg), req).value.0)
  {
    BufferingKeepsInv(cfg, s, req);
  }
}
