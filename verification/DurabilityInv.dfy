/** What every step of the durability protocol keeps, and what that gives: recovery from
    any reachable disk, the mirror at its cursor, and clean closes (db.go, drain.go). */
module DurabilityInv {
  import opened Wrappers
  import opened ByteStrings
  import opened Codec
  import opened Framing
  import opened Records
  import opened Interpreters
  import opened DrainRetry
  import opened Durability

  // ---- the bootstrap catalog and its mirror ----

  /** The memory holds the first `n` boot tables, empty, under their own names. */
  ghost predicate BootNames(schema: seq<TableDef>, m: Memory, n: nat)
    requires n <= |schema|
  {
    && (forall id: nat :: id in m.byId <==> id < n)
    && (forall i {:trigger BootListed(schema, m, i)} :: 0 <= i < n ==> BootListed(schema, m, i))
    && forall name {:trigger BootNamed(schema, m, n, name)} :: BootNamed(schema, m, n, name)
  }

  ghost predicate BootListed(schema: seq<TableDef>, m: Memory, i: nat)
    requires i < |schema|
  {
    i in m.byId && m.byId[i] == MemTable(schema[i], map[]) && schema[i].name in m.byName && m.byName[schema[i].name] == i
  }

  ghost predicate BootNamed(schema: seq<TableDef>, m: Memory, n: nat, name: Bytes)
    requires n <= |schema|
  {
    name in m.byName ==> m.byName[name] < n && schema[m.byName[name]].name == name
  }

  ghost predicate NamesDiffer(schema: seq<TableDef>) {
    forall i, j :: 0 <= i < j < |schema| ==> schema[i].name != schema[j].name
  }

  lemma BootNamesStep(schema: seq<TableDef>, m: Memory, n: nat)
    requires n < |schema| && BootNames(schema, m, n) && NamesDiffer(schema)
    ensures BootNames(schema, WithTable(m, n, schema[n]), n + 1)
  {
    var m', next := WithTable(m, n, schema[n]), n + 1;
    forall i | 0 <= i < next ensures BootListed(schema, m', i) {
      if i < n { assert BootListed(schema, m, i) && schema[i].name != schema[n].name; }
    }
    forall name ensures BootNamed(schema, m', next, name) { assert BootNamed(schema, m, n, name); }
  }

  lemma {:induction false} BootNamesAre(schema: seq<TableDef>, n: nat)
    requires NamesDiffer(schema) && n <= |schema|
    ensures BootNames(schema, BootMemory(schema, n), n)
  {
    if n > 0 {
      BootNamesAre(schema, n - 1);
      BootNamesStep(schema, BootMemory(schema, n - 1), n - 1);
    }
  }

  lemma SeededTable(cfg: Config, m: Memory, db: Mirror, id: nat)
    requires ConfigOk(cfg) && BootNames(cfg.schema, m, |cfg.schema|)
    requires PartSeeded(cfg.schema, db) && Registers(db, |cfg.schema|)
    ensures TableListed(m, id) && TableMirrored(m, View(db), id) && (id in db.reg <==> id in m.byId)
  {
    if id in m.byId { assert BootListed(cfg.schema, m, id) && id in db.reg; }
  }

  lemma SeededName(cfg: Config, m: Memory, db: Mirror, name: Bytes)
    requires ConfigOk(cfg) && BootNames(cfg.schema, m, |cfg.schema|)
    requires PartSeeded(cfg.schema, db) && Registers(db, |cfg.schema|)
    ensures NameListed(m, name) && (name in db.data <==> name in m.byName)
  {
    assert BootNamed(cfg.schema, m, |cfg.schema|, name);
    if name in m.byName { assert BootListed(cfg.schema, m, m.byName[name]) && m.byName[name] in db.reg; }
    if name in db.data {
      assert db.data[name] == map[] && BootName(cfg.schema, name);
      var i :| 0 <= i < |cfg.schema| && cfg.schema[i].name == name;
      assert BootListed(cfg.schema, m, i);
    }
  }

  /** A completely seeded mirror is the image of the boot tables. */
  lemma SeededMirrorsBoot(cfg: Config, m: Memory, db: Mirror)
    requires ConfigOk(cfg) && BootNames(cfg.schema, m, |cfg.schema|)
    requires PartSeeded(cfg.schema, db) && Registers(db, |cfg.schema|)
    ensures Mirrored(m, View(db))
  {
    forall id ensures TableListed(m, id) && TableMirrored(m, View(db), id) { SeededTable(cfg, m, db, id); }
    forall name ensures NameListed(m, name) { SeededName(cfg, m, db, name); }
    assert db.data.Keys == m.byName.Keys by {
      forall name ensures name in db.data <==> name in m.byName { SeededName(cfg, m, db, name); }
    }
    assert db.reg.Keys == m.byId.Keys by {
      forall id: nat ensures id in db.reg <==> id in m.byId { SeededTable(cfg, m, db, id); }
    }
  }

  lemma BootAgrees(cfg: Config)
    requires ConfigOk(cfg)
    ensures Mirrored(Boot(cfg), View(BootDb(cfg))) && BootPresent(cfg.schema, BootDb(cfg).reg)
    ensures HoldsBoot(cfg.schema, Boot(cfg))
  {
    BootNamesAre(cfg.schema, |cfg.schema|);
    forall i | 0 <= i < |cfg.schema| ensures i in Boot(cfg).byId && Boot(cfg).byId[i].def == cfg.schema[i] {
      assert BootListed(cfg.schema, Boot(cfg), i);
    }
    SeedingCompletes(cfg.schema, Mirror(map[], map[]), |cfg.schema|);
    SeededMirrorsBoot(cfg, Boot(cfg), BootDb(cfg));
  }

  ghost predicate Registers(db: Mirror, n: nat) {
    forall i :: 0 <= i < n ==> i in db.reg
  }

  /** Seeding completes a partly seeded mirror. */
  lemma {:induction false} SeedingCompletes(schema: seq<TableDef>, db: Mirror, n: nat)
    requires PartSeeded(schema, db) && n <= |schema|
    ensures PartSeeded(schema, SeedUpTo(schema, db, n)) && Registers(SeedUpTo(schema, db, n), n)
  {
    if n > 0 {
      SeedingCompletes(schema, db, n - 1);
      SeedOne(schema, SeedUpTo(schema, db, n - 1), n - 1);
    }
  }

  lemma SeedOne(schema: seq<TableDef>, db: Mirror, i: nat)
    requires PartSeeded(schema, db) && i < |schema|
    ensures var db' := Register(View(db), i, schema[i]).db;
            PartSeeded(schema, db') && PartSeeded(schema, Mirror(db.reg, db'.data))
  {
    assert BootName(schema, schema[i].name);
  }

  /** Only one complete seeding of the bootstrap schema exists. */
  lemma CompleteSeedingIsBoot(cfg: Config, db: Mirror)
    requires PartSeeded(cfg.schema, db) && BootPresent(cfg.schema, db.reg)
    ensures db == BootDb(cfg)
  {
    var empty := Mirror(map[], map[]);
    SeedingCompletes(cfg.schema, empty, |cfg.schema|);
    var boot := BootDb(cfg);
    SameSeeding(cfg.schema, db, boot);
  }

  lemma SameSeeding(schema: seq<TableDef>, a: Mirror, b: Mirror)
    requires PartSeeded(schema, a) && PartSeeded(schema, b)
    requires Registers(a, |schema|) && Registers(b, |schema|)
    ensures a == b
  {
    assert a.reg == b.reg;
    forall name ensures name in a.data <==> name in b.data {
      if name in a.data {
        assert BootName(schema, name);
        var i :| 0 <= i < |schema| && schema[i].name == name;
        assert i in b.reg;
      }
      if name in b.data {
        assert BootName(schema, name);
        var i :| 0 <= i < |schema| && schema[i].name == name;
        assert i in a.reg;
      }
    }
    assert a.data == b.data;
  }

  lemma {:induction false} SeedingIsDone(schema: seq<TableDef>, db: Mirror, n: nat)
    requires BootPresent(schema, db.reg) && n <= |schema|
    ensures SeedUpTo(schema, db, n) == db
  {
    if n > 0 {
      SeedingIsDone(schema, db, n - 1);
    }
  }

  // ---- logs ----

  lemma LogPieces(cfg: Config, a: seq<Record>, b: seq<Record>)
    ensures LogOk(cfg, a + b) <==>
              LogOk(cfg, a) && Replay(Boot(cfg), a).Some? && LogFollows(Replay(Boot(cfg), a).value, b)
              && AllRecordsFit(b) && KeepsBoot(cfg, b)
  {
    FollowsConcat(Boot(cfg), a, b);
    var ab := a + b;
    assert forall i :: 0 <= i < |a| ==> ab[i] == a[i];
    assert forall i :: 0 <= i < |b| ==> b[i] == ab[|a| + i];
  }

  /** A log the live paths produced: both readers take it, and agree. */
  lemma LogIsMirrored(cfg: Config, rs: seq<Record>)
    requires ConfigOk(cfg) && LogOk(cfg, rs)
    ensures Replay(Boot(cfg), rs).Some? && Drain(View(BootDb(cfg)), rs).Some?
    ensures Mirrored(Replay(Boot(cfg), rs).value, Drain(View(BootDb(cfg)), rs).value)
  {
    BootAgrees(cfg);
    LogAgrees(Boot(cfg), View(BootDb(cfg)), rs);
  }

  ghost predicate HoldsBoot(schema: seq<TableDef>, m: Memory) {
    forall i :: 0 <= i < |schema| ==> i in m.byId && m.byId[i].def == schema[i]
  }

  lemma {:induction false} GroupKeepsDefs(m: Memory, ms: seq<Mutation>, id: nat)
    requires ApplyAll(m, ms).Some? && id in m.byId
    ensures id in ApplyAll(m, ms).value.byId && ApplyAll(m, ms).value.byId[id].def == m.byId[id].def
    decreases |ms|
  {
    if ms != [] {
      GroupKeepsDefs(ApplyMutation(m, ms[0]).value, ms[1..], id);
    }
  }

  lemma RecordHoldsBoot(cfg: Config, m: Memory, r: Record)
    requires MemoryOk(m) && HoldsBoot(cfg.schema, m) && Follows(m, r) && ApplyRecord(m, r).Some?
    requires r.DropTable? ==> r.name !in Kept(cfg)
    ensures HoldsBoot(cfg.schema, ApplyRecord(m, r).value)
  {
    forall i | 0 <= i < |cfg.schema|
      ensures i in ApplyRecord(m, r).value.byId && ApplyRecord(m, r).value.byId[i].def == cfg.schema[i]
    {
      if r.Txn? { GroupKeepsDefs(m, r.ms, i); }
      if r.DropTable? {
        assert cfg.schema[i] in cfg.schema && cfg.schema[i].name in Kept(cfg);
        assert TableListed(m, i) && NameListed(m, r.name);
      }
    }
  }

  lemma {:induction false} LogHoldsBoot(cfg: Config, m: Memory, c: Companion, rs: seq<Record>)
    requires Mirrored(m, c) && HoldsBoot(cfg.schema, m) && LogFollows(m, rs) && KeepsBoot(cfg, rs)
    ensures Replay(m, rs).Some? && HoldsBoot(cfg.schema, Replay(m, rs).value)
    decreases |rs|
  {
    if rs != [] {
      RecordAgrees(m, c, rs[0]);
      RecordHoldsBoot(cfg, m, rs[0]);
      LogHoldsBoot(cfg, ApplyRecord(m, rs[0]).value, DrainRecord(c, rs[0]).value, rs[1..]);
    }
  }

  /** The bootstrap tables stay registered, whatever is logged. */
  lemma BootStays(cfg: Config, rs: seq<Record>)
    requires ConfigOk(cfg) && LogOk(cfg, rs)
    ensures Drain(View(BootDb(cfg)), rs).Some? && BootPresent(cfg.schema, Drain(View(BootDb(cfg)), rs).value.db.reg)
  {
    BootAgrees(cfg);
    LogHoldsBoot(cfg, Boot(cfg), View(BootDb(cfg)), rs);
    LogIsMirrored(cfg, rs);
    var m, c := Replay(Boot(cfg), rs).value, Drain(View(BootDb(cfg)), rs).value;
    forall i | 0 <= i < |cfg.schema| ensures i in c.db.reg && c.db.reg[i] == cfg.schema[i] {
      assert TableMirrored(m, c, i);
    }
  }

  lemma {:induction false} FlattenTake(ss: seq<seq<Record>>, n: nat)
    requires n <= |ss|
    ensures exists rest :: Flatten(ss) == Flatten(ss[..n]) + rest
    decreases |ss|
  {
    if n == |ss| {
      assert ss[..n] == ss;
      assert Flatten(ss) == Flatten(ss[..n]) + [];
    } else {
      FlattenTake(ss[..|ss| - 1], n);
      assert ss[..|ss| - 1][..n] == ss[..n];
      var rest :| Flatten(ss[..|ss| - 1]) == Flatten(ss[..n]) + rest;
      assert Flatten(ss) == Flatten(ss[..n]) + (rest + ss[|ss| - 1]);
    }
  }

  lemma FlattenSnoc(ss: seq<seq<Record>>, s: seq<Record>)
    ensures Flatten(ss + [s]) == Flatten(ss) + s
  {
    assert (ss + [s])[..|ss|] == ss;
  }

  lemma FlattenNext(ss: seq<seq<Record>>, n: nat)
    requires n < |ss|
    ensures Flatten(ss[..n + 1]) == Flatten(ss[..n]) + ss[n]
  {
    assert ss[..n + 1] == ss[..n] + [ss[n]];
    FlattenSnoc(ss[..n], ss[n]);
  }

  /** A prefix of whole segments of a good log is a good log. */
  lemma PrefixLogOk(cfg: Config, h: History, n: nat)
    requires LogOk(cfg, Journaled(h)) && n <= |h.sealed|
    ensures LogOk(cfg, Flatten(h.sealed[..n]))
  {
    FlattenTake(h.sealed, n);
    var rest :| Flatten(h.sealed) == Flatten(h.sealed[..n]) + rest;
    Regroup(Flatten(h.sealed[..n]), rest, h.pending);
    LogPieces(cfg, Flatten(h.sealed[..n]), rest + h.pending);
  }

  lemma SealedLogOk(cfg: Config, h: History)
    requires LogOk(cfg, Journaled(h))
    ensures LogOk(cfg, Flatten(h.sealed))
  {
    PrefixLogOk(cfg, h, |h.sealed|);
    assert h.sealed[..|h.sealed|] == h.sealed;
  }

  // ---- the next segment and the mirror ----

  /** Where the mirror stands, and that the next segment follows from there. */
  lemma AtCursor(cfg: Config, d: Disk, h: History)
    requires ConfigOk(cfg) && LogOk(cfg, Journaled(h)) && d.cursor < |h.sealed|
    requires MirrorOk(cfg, d, h.sealed) && BootPresent(cfg.schema, d.db.reg)
    ensures var here := Replay(Boot(cfg), Flatten(h.sealed[..d.cursor]));
            here.Some? && Mirrored(here.value, View(d.db)) && LogFollows(here.value, h.sealed[d.cursor])
    ensures AllRecordsFit(h.sealed[d.cursor])
  {
    var rs := h.sealed[d.cursor];
    PrefixLogOk(cfg, h, d.cursor);
    PrefixLogOk(cfg, h, d.cursor + 1);
    LogIsMirrored(cfg, Flatten(h.sealed[..d.cursor]));
    FlattenNext(h.sealed, d.cursor);
    LogPieces(cfg, Flatten(h.sealed[..d.cursor]), rs);
  }

  /** Draining the next segment from the file's registry. */
  lemma CleanDrain(cfg: Config, d: Disk, h: History)
    requires ConfigOk(cfg) && LogOk(cfg, Journaled(h)) && d.cursor < |h.sealed|
    requires MirrorOk(cfg, d, h.sealed) && BootPresent(cfg.schema, d.db.reg)
    ensures var c := Drain(View(d.db), h.sealed[d.cursor]);
            && c.Some? && c.value == View(c.value.db) && BootPresent(cfg.schema, c.value.db.reg)
            && Drain(View(BootDb(cfg)), Flatten(h.sealed[..d.cursor + 1])) == c
  {
    AtCursor(cfg, d, h);
    var m := Replay(Boot(cfg), Flatten(h.sealed[..d.cursor])).value;
    LogAgrees(m, View(d.db), h.sealed[d.cursor]);
    FlattenNext(h.sealed, d.cursor);
    DrainConcat(View(BootDb(cfg)), Flatten(h.sealed[..d.cursor]), h.sealed[d.cursor]);
    PrefixLogOk(cfg, h, d.cursor + 1);
    BootStays(cfg, Flatten(h.sealed[..d.cursor + 1]));
  }

  /** From whatever registry failed attempts left, the segment drains the same, whichever
      entry of a name each lookup meets first. */
  lemma RegistryDrains(cfg: Config, tables: map<nat, TableDef>, d: Disk, h: History, pick: Pick)
    requires ConfigOk(cfg) && LogOk(cfg, Journaled(h)) && d.cursor < |h.sealed| && ValidPick(pick)
    requires MirrorOk(cfg, d, h.sealed) && BootPresent(cfg.schema, d.db.reg)
    requires RegistryOk(tables, d, h.sealed)
    ensures DrainBy(pick, Companion(tables, d.db), h.sealed[d.cursor]) == Drain(View(d.db), h.sealed[d.cursor])
    ensures Drain(Companion(tables, d.db), h.sealed[d.cursor]) == Drain(View(d.db), h.sealed[d.cursor])
  {
    AtCursor(cfg, d, h);
    var m, rs := Replay(Boot(cfg), Flatten(h.sealed[..d.cursor])).value, h.sealed[d.cursor];
    LooseDrainsClean(m, View(d.db), Companion(tables, d.db), rs, pick);
    FindPickValid();
    LooseDrainsClean(m, View(d.db), Companion(tables, d.db), rs, FindPick());
    DrainIsBy(Companion(tables, d.db), rs);
  }

  // ---- Open ----

  /** A sealed segment reads back whole and carries the memory over its records. */
  lemma SegmentReplays(cfg: Config, h: History, n: nat)
    requires ConfigOk(cfg) && LogOk(cfg, Journaled(h)) && 1 <= n <= |h.sealed|
    ensures var m, rs := Replay(Boot(cfg), Flatten(h.sealed[..n - 1])), h.sealed[n - 1];
            && m.Some? && Replay(m.value, rs).Some? && Replay(m.value, rs) == Replay(Boot(cfg), Flatten(h.sealed[..n]))
            && ReadSegment(cfg.crc, SegmentBytes(cfg.crc, rs)).records == rs && !ReadSegment(cfg.crc, SegmentBytes(cfg.crc, rs)).fatal
  {
    var rs := h.sealed[n - 1];
    PrefixLogOk(cfg, h, n - 1);
    LogIsMirrored(cfg, Flatten(h.sealed[..n - 1]));
    PrefixLogOk(cfg, h, n);
    LogIsMirrored(cfg, Flatten(h.sealed[..n]));
    FlattenNext(h.sealed, n - 1);
    LogPieces(cfg, Flatten(h.sealed[..n - 1]), rs);
    ReplayConcat(Boot(cfg), Flatten(h.sealed[..n - 1]), rs);
    SegmentReads(cfg.crc, rs);
  }

  lemma TailStep(crc: Bytes -> Checksum, files: map<nat, Bytes>, rs: seq<Record>, m: Memory, n: nat, top: nat)
    requires n <= top && n in files && Replay(m, rs).Some?
    requires ReadSegment(crc, files[n]).records == rs && !ReadSegment(crc, files[n]).fatal
    ensures ReplayTail(crc, files, m, n, top) == ReplayTail(crc, files, Replay(m, rs).value, n + 1, top)
  {}

  /** Segment `k` is its file, and carries the log's memory from its start to its end. */
  ghost predicate CarriesOver(cfg: Config, files: map<nat, Bytes>, h: History, k: nat) {
    1 <= k <= |h.sealed| ==>
      var m := Replay(Boot(cfg), Flatten(h.sealed[..k - 1]));
      && k in files && ReadSegment(cfg.crc, files[k]) == Reading(h.sealed[k - 1], false)
      && m.Some? && Replay(m.value, h.sealed[k - 1]).Some? && Replay(m.value, h.sealed[k - 1]) == Replay(Boot(cfg), Flatten(h.sealed[..k]))
  }

  lemma SegmentCarries(cfg: Config, files: map<nat, Bytes>, h: History, k: nat)
    requires ConfigOk(cfg) && LogOk(cfg, Journaled(h)) && 1 <= k <= |h.sealed|
    requires k in files && files[k] == SegmentBytes(cfg.crc, h.sealed[k - 1])
    ensures CarriesOver(cfg, files, h, k)
  {
    SegmentReplays(cfg, h, k);
  }

  /** Replaying the files from `n` on, over the segments before it, is replaying the log. */
  ghost predicate TailIsLog(cfg: Config, files: map<nat, Bytes>, h: History, n: nat)
    requires 1 <= n <= |h.sealed| + 1
  {
    var m := Replay(Boot(cfg), Flatten(h.sealed[..n - 1]));
    m.Some? && ReplayTail(cfg.crc, files, m.value, n, |h.sealed|) == Replay(Boot(cfg), Flatten(h.sealed))
  }

  lemma {:induction false} TailCarries(cfg: Config, files: map<nat, Bytes>, h: History, n: nat)
    requires 1 <= n <= |h.sealed| + 1 && Replay(Boot(cfg), Flatten(h.sealed)).Some?
    requires forall k {:trigger CarriesOver(cfg, files, h, k)} :: n <= k ==> CarriesOver(cfg, files, h, k)
    ensures TailIsLog(cfg, files, h, n)
    decreases |h.sealed| + 1 - n
  {
    if n <= |h.sealed| {
      assert CarriesOver(cfg, files, h, n);
      TailCarries(cfg, files, h, n + 1);
      TailStep(cfg.crc, files, h.sealed[n - 1], Replay(Boot(cfg), Flatten(h.sealed[..n - 1])).value, n, |h.sealed|);
    } else {
      assert h.sealed[..|h.sealed|] == h.sealed;
    }
  }

  lemma TailReplays(cfg: Config, files: map<nat, Bytes>, h: History, n: nat)
    requires ConfigOk(cfg) && LogOk(cfg, Journaled(h)) && 1 <= n <= |h.sealed| + 1
    requires forall k :: n <= k <= |h.sealed| ==> k in files && files[k] == SegmentBytes(cfg.crc, h.sealed[k - 1])
    ensures TailIsLog(cfg, files, h, n)
  {
    AllCarry(cfg, files, h, n);
    WholeLogReplays(cfg, h);
    TailCarries(cfg, files, h, n);
  }

  lemma AllCarry(cfg: Config, files: map<nat, Bytes>, h: History, n: nat)
    requires ConfigOk(cfg) && LogOk(cfg, Journaled(h)) && 1 <= n <= |h.sealed| + 1
    requires forall k :: n <= k <= |h.sealed| ==> k in files && files[k] == SegmentBytes(cfg.crc, h.sealed[k - 1])
    ensures forall k {:trigger CarriesOver(cfg, files, h, k)} :: n <= k ==> CarriesOver(cfg, files, h, k)
  {
    forall k | n <= k ensures CarriesOver(cfg, files, h, k) {
      if k <= |h.sealed| { SegmentCarries(cfg, files, h, k); }
    }
  }

  lemma WholeLogReplays(cfg: Config, h: History)
    requires ConfigOk(cfg) && LogOk(cfg, Journaled(h))
    ensures h.sealed[..|h.sealed|] == h.sealed && Replay(Boot(cfg), Flatten(h.sealed)).Some?
  {
    assert h.sealed[..|h.sealed|] == h.sealed;
    PrefixLogOk(cfg, h, |h.sealed|);
    LogIsMirrored(cfg, Flatten(h.sealed));
  }

  lemma TopSegment(cfg: Config, d: Disk, sealed: seq<seq<Record>>)
    requires FilesOk(cfg, d, sealed)
    ensures (if MaxSeg(d.files) < d.cursor then d.cursor else MaxSeg(d.files)) == |sealed|
    ensures d.cursor < |sealed| ==> MaxSeg(d.files) == |sealed|
  {
    if d.cursor < |sealed| {
      assert |sealed| in d.files;
    } else if d.files != map[] {
      assert IsMax(d.files, MaxSeg(d.files));
    }
  }

  /** The mirror, its seeding completed, holds exactly the segments up to the cursor. */
  lemma SeededMirror(cfg: Config, d: Disk, h: History)
    requires d.cursor <= |h.sealed| && MirrorOk(cfg, d, h.sealed)
    ensures var db := SeedUpTo(cfg.schema, d.db, |cfg.schema|);
            BootPresent(cfg.schema, db.reg) && Drain(View(BootDb(cfg)), Flatten(h.sealed[..d.cursor])) == Some(View(db))
  {
    if BootPresent(cfg.schema, d.db.reg) {
      SeedingIsDone(cfg.schema, d.db, |cfg.schema|);
    } else {
      SeedingCompletes(cfg.schema, d.db, |cfg.schema|);
      CompleteSeedingIsBoot(cfg, SeedUpTo(cfg.schema, d.db, |cfg.schema|));
      assert h.sealed[..d.cursor] == [];
    }
  }

  lemma TailRecovers(cfg: Config, d: Disk, h: History)
    requires ConfigOk(cfg) && LogOk(cfg, Journaled(h)) && FilesOk(cfg, d, h.sealed)
    ensures Replay(Boot(cfg), Flatten(h.sealed[..d.cursor])).Some? && Replay(Boot(cfg), Flatten(h.sealed)).Some?
    ensures ReplayTail(cfg.crc, Undrained(d), Replay(Boot(cfg), Flatten(h.sealed[..d.cursor])).value, d.cursor + 1, MaxSeg(d.files))
         == Replay(Boot(cfg), Flatten(h.sealed))
  {
    SealedLogOk(cfg, h);
    LogIsMirrored(cfg, Flatten(h.sealed));
    TopSegment(cfg, d, h.sealed);
    TailReplays(cfg, Undrained(d), h, d.cursor + 1);
    if d.cursor == |h.sealed| {
      assert h.sealed[..d.cursor] == h.sealed;
    }
  }

  lemma OpenRecoversFrom(cfg: Config, d: Disk, h: History)
    requires ConfigOk(cfg) && LogOk(cfg, Journaled(h)) && FilesOk(cfg, d, h.sealed) && MirrorOk(cfg, d, h.sealed)
    ensures Replay(Boot(cfg), Flatten(h.sealed)).Some?
    ensures Open(cfg, d) == Some(Opened(Disk(Undrained(d), SeedUpTo(cfg.schema, d.db, |cfg.schema|), d.cursor),
                                        Replay(Boot(cfg), Flatten(h.sealed)).value, |h.sealed|))
  {
    SeededMirror(cfg, d, h);
    BaseReloads(cfg, d, h);
    TailRecovers(cfg, d, h);
    TopSegment(cfg, d, h.sealed);
    var db, top := SeedUpTo(cfg.schema, d.db, |cfg.schema|), MaxSeg(d.files);
    var m := Replay(Boot(cfg), Flatten(h.sealed));
    assert ReplayOnto(cfg.crc, Undrained(d), Recover(db), d.cursor + 1, top) == m;
    assert OpenSeeded(cfg, d, db, m, top) == Some(Opened(Disk(Undrained(d), db, d.cursor), m.value, |h.sealed|));
  }

  /** Open never refuses a disk the protocol can leave: it serves the state after every
      sealed record, wherever the drain had got to, and goes on numbering above them. */
  lemma OpenRecovers(cfg: Config, s: State)
    requires ConfigOk(cfg) && Inv(cfg, s) && s.proc.Down?
    ensures Open(cfg, s.disk).Some?
    ensures Replay(Boot(cfg), Flatten(s.hist.sealed)) == Some(Open(cfg, s.disk).value.mem)
    ensures Open(cfg, s.disk).value.seg == |s.hist.sealed| >= s.disk.cursor
  {
    OpenRecoversFrom(cfg, s.disk, s.hist);
  }

  /** The base Open loads is the state after the drained segments. */
  lemma BaseReloads(cfg: Config, d: Disk, h: History)
    requires ConfigOk(cfg) && LogOk(cfg, Journaled(h)) && d.cursor <= |h.sealed| && MirrorOk(cfg, d, h.sealed)
    ensures Replay(Boot(cfg), Flatten(h.sealed[..d.cursor])).Some?
    ensures Recover(SeedUpTo(cfg.schema, d.db, |cfg.schema|)) == Replay(Boot(cfg), Flatten(h.sealed[..d.cursor]))
  {
    SeededMirror(cfg, d, h);
    PrefixLogOk(cfg, h, d.cursor);
    LogIsMirrored(cfg, Flatten(h.sealed[..d.cursor]));
    var base := Replay(Boot(cfg), Flatten(h.sealed[..d.cursor])).value;
    MirrorReloads(base, View(SeedUpTo(cfg.schema, d.db, |cfg.schema|)));
  }
}
