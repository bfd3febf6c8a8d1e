/** The drain as it runs: records applied inside one SQL transaction while the process
    registry changes beside it, segment by segment (drain.go). */
module DrainExec {
  import opened Wrappers
  import opened ByteStrings
  import opened Codec
  import opened Framing
  import opened Records
  import opened Interpreters
  import opened DrainRetry
  import opened Durability
  import opened DurabilityExec

  // ---- reading a segment step by step ----

  lemma ReadStep(crc: Bytes -> Checksum, b: Bytes)
    ensures match ReadOne(crc, b)
            case Err(BadVersion) => ReadSegment(crc, b) == Reading([], true)
            case Err(_) => ReadSegment(crc, b) == Reading([], false)
            case Ok(e) =>
              match DecodeRecord(e)
              case None => ReadSegment(crc, b) == Reading([], true)
              case Some(r) =>
                var rest := ReadSegment(crc, b[|e.payload| + 12..]);
                ReadSegment(crc, b) == Reading([r] + rest.records, rest.fatal)
  {
    var r := ReadOne(crc, b);
    if r.Ok? {
      var es := Scan(crc, b[|r.value.payload| + 12..]).0;
      assert Scan(crc, b).0 == [r.value] + es && ([r.value] + es)[1..] == es;
    } else {
      NoEnd(crc, b);
    }
  }

  lemma NoEnd(crc: Bytes -> Checksum, b: Bytes)
    requires ReadOne(crc, b).Err?
    ensures ReadOne(crc, b).error != Refused(())
    ensures Scan(crc, b) == ([], ReadOne(crc, b).error)
  {}

  /** What the drainer's reader makes of the segment from `pos` on. */
  datatype Next = End | Unreadable | Found(rec: Record, pos: nat)

  /** The segment from `pos` on still holds exactly the records after the first `k`. */
  ghost predicate Remaining(crc: Bytes -> Checksum, file: Bytes, pos: nat, all: seq<Record>, fatal: bool, k: nat) {
    pos <= |file| && k <= |all| && ReadSegment(crc, file[pos..]) == Reading(all[k..], fatal)
  }

  lemma WholeRemains(crc: Bytes -> Checksum, file: Bytes)
    ensures Remaining(crc, file, 0, ReadSegment(crc, file).records, ReadSegment(crc, file).fatal, 0)
  {
    var all := ReadSegment(crc, file).records;
    assert file[0..] == file && all[0..] == all;
  }

  /** The next record, the end of the log, or bytes that fail the segment. */
  method ReadNext(crc: Bytes -> Checksum, file: Bytes, pos: nat, ghost all: seq<Record>, ghost fatal: bool, ghost k: nat) returns (r: Next)
    requires Remaining(crc, file, pos, all, fatal, k)
    ensures match r
            case End => !fatal && k == |all|
            case Unreadable => fatal
            case Found(rec, next) => pos < next && k < |all| && all[k] == rec && Remaining(crc, file, next, all, fatal, k + 1)
  {
    var read, next := ReadRecord(crc, file, pos);
    ReadStep(crc, file[pos..]);
    match read
    case Err(BadVersion) => return Unreadable;
    case Err(_) =>
      assert |all[k..]| == 0;
      return End;
    case Ok(e) =>
      assert file[pos..][|e.payload| + 12..] == file[next..];
      var rec := DecodeRecord(e);
      if rec.None? { return Unreadable; }
      NextRecord(all, k, rec.value, ReadSegment(crc, file[next..]).records);
      return Found(rec.value, next);
  }

  lemma NextRecord(all: seq<Record>, k: nat, r: Record, rest: seq<Record>)
    requires k <= |all| && all[k..] == [r] + rest
    ensures k < |all| && all[k] == r && all[k + 1..] == rest
  {}

  // ---- names ----

  ghost predicate NameUnique(tables: map<nat, TableDef>, name: Bytes) {
    forall a, b :: Named(tables, name, a) && Named(tables, name, b) ==> a == b
  }

  predicate UpTo(rs: seq<Record>, k: int) { 0 <= k <= |rs| }

  /** No DROP of the drain finds two entries of its name. */
  ghost predicate Unambiguous(c: Companion, rs: seq<Record>) {
    forall k {:trigger UpTo(rs, k)} :: UpTo(rs, k) && k < |rs| && rs[k].DropTable? && Drain(c, rs[..k]).Some? ==>
      NameUnique(Drain(c, rs[..k]).value.tables, rs[k].name)
  }

  /** No segment the live paths produce is ambiguous, from the file's registry or from one
      that safe failed attempts left. */
  lemma LooseIsUnambiguous(m: Memory, c: Companion, d: Companion, rs: seq<Record>)
    requires Mirrored(m, c) && LogFollows(m, rs) && d.db == c.db && Loose(d.tables, c.tables, rs, 0)
    ensures Unambiguous(d, rs)
  {
    FindPickValid();
    forall k | UpTo(rs, k) && k < |rs| && rs[k].DropTable? && Drain(d, rs[..k]).Some?
      ensures NameUnique(Drain(d, rs[..k]).value.tables, rs[k].name)
    {
      CleanAt(m, c, rs, k);
      LooseRun(m, c, d, rs, k, FindPick());
      DrainIsBy(d, rs[..k]);
      LooseNameUnique(Replay(m, rs[..k]).value, Drain(c, rs[..k]).value, Drain(d, rs[..k]).value.tables, rs, k);
    }
  }

  lemma LooseNameUnique(m: Memory, c: Companion, tables: map<nat, TableDef>, rs: seq<Record>, k: nat)
    requires Mirrored(m, c) && k < |rs| && rs[k].DropTable? && Loose(tables, c.tables, rs, k)
    ensures NameUnique(tables, rs[k].name)
  {
    var name := rs[k].name;
    forall id | Named(tables, name, id) ensures Named(c.tables, name, id) {
      if id !in c.tables { LooseNow(rs, k, id, tables[id]); }
    }
    forall a, b | Named(tables, name, a) && Named(tables, name, b) ensures a == b { OneName(m, c, name, a, b); }
  }

  // ---- the companion ----

  /** `sqliteMirror`: the process registry, the companion file, and the drained cursor. */
  class SqliteMirror {
    var tables: map<nat, TableDef>
    var db: Mirror
    var cursor: nat

    constructor (db: Mirror, cursor: nat)
      ensures this.db == db && this.cursor == cursor && tables == db.reg
    {
      this.tables, this.db, this.cursor := db.reg, db, cursor;
    }

    /** `register` inside a transaction `tx`. */
    method RegisterTable(tx: Mirror, id: nat, def: TableDef) returns (tx': Mirror)
      modifies this`tables
      ensures Companion(tables, tx') == Register(Companion(old(tables), tx), id, def)
    {
      var data := if def.name in tx.data then tx.data else tx.data[def.name := map[]];
      tx' := Mirror(tx.reg[id := def], data);
      tables := tables[id := def];
    }

    /** `dropTable`: the SQL table, then the registry row of the table found by name. */
    method DropTable(tx: Mirror, name: Bytes) returns (tx': Mirror)
      requires NameUnique(tables, name)
      modifies this`tables
      ensures Companion(tables, tx') == Unregister(Companion(old(tables), tx), name)
    {
      tx' := Mirror(tx.reg, tx.data - {name});
      var id := FindTable(tables, name);
      ghost var named := FindByName(tables, name);
      if id.Some? {
        assert Named(tables, name, id.value);
        tx' := Mirror(tx'.reg - {id.value}, tx'.data);
        tables := tables - {id.value};
      }
    }

    /** `applyMutation` inside a transaction. */
    method ApplyOne(tx: Mirror, mut: Mutation) returns (r: Option<Mirror>)
      ensures DrainMutation(Companion(tables, tx), mut) == if r.Some? then Some(Companion(tables, r.value)) else None
    {
      if mut.table !in tables || !ValidDef(tables[mut.table]) { return None; }
      var def := tables[mut.table];
      if def.name !in tx.data { return None; }
      match SqlOp(def, tx.data[def.name], mut.op) {
        case None => return None;
        case Some(rows) => return Some(Mirror(tx.reg, tx.data[def.name := rows]));
      }
    }

    /** A transaction envelope: its mutations in order. */
    method ApplyGroup(tx0: Mirror, ms: seq<Mutation>) returns (r: Option<Mirror>)
      ensures DrainAll(Companion(tables, tx0), ms) == if r.Some? then Some(Companion(tables, r.value)) else None
    {
      var tx := tx0;
      assert ms[0..] == ms;
      for i := 0 to |ms|
        invariant DrainAll(Companion(tables, tx0), ms) == DrainAll(Companion(tables, tx), ms[i..])
      {
        assert ms[i..][1..] == ms[i + 1..];
        var next := ApplyOne(tx, ms[i]);
        if next.None? { return None; }
        tx := next.value;
      }
      return Some(tx);
    }

    /** `applyRecord`; a refused record leaves the process registry alone. */
    method Apply(tx: Mirror, rec: Record) returns (r: Option<Mirror>)
      requires rec.DropTable? ==> NameUnique(tables, rec.name)
      modifies this`tables
      ensures DrainRecord(Companion(old(tables), tx), rec) == if r.Some? then Some(Companion(tables, r.value)) else None
      ensures r.None? ==> tables == old(tables)
    {
      match rec {
        case Single(mut) => r := ApplyOne(tx, mut);
        case Txn(ms) => r := ApplyGroup(tx, ms);
        case Checkpoint => r := Some(tx);
        case CreateTable(id, def) =>
          if !ValidDef(def) { return None; }
          var next := RegisterTable(tx, id, def);
          r := Some(next);
        case DropTable(name) =>
          var next := DropTable(tx, name);
          r := Some(next);
      }
    }

    /** `drainSegment`: the segment's records and the cursor in one commit. `fault` is the
        offset of the record at which SQLite fails, `commits` whether the commit succeeds. On failure
        the file is as before; the process registry keeps what the attempt did to it. */
    method DrainSegment(crc: Bytes -> Checksum, n: nat, file: Bytes, fault: Option<nat>, commits: bool) returns (ok: bool)
      requires Unambiguous(Companion(tables, db), ReadSegment(crc, file).records)
      modifies this
      ensures ok ==> cursor == n && !ReadSegment(crc, file).fatal
                     && Drain(Companion(old(tables), old(db)), ReadSegment(crc, file).records) == Some(Companion(tables, db))
      ensures !ok ==> cursor == old(cursor) && db == old(db)
                      && AttemptedOn(old(tables), old(db), ReadSegment(crc, file).records, tables)
      ensures fault.None? && commits ==>
                (ok <==> !ReadSegment(crc, file).fatal && Drain(Companion(old(tables), old(db)), ReadSegment(crc, file).records).Some?)
    {
      var tx := ApplySegment(crc, file, fault);
      ghost var all := ReadSegment(crc, file).records;
      assert all[..|all|] == all;
      if tx.None? || !commits { return false; }
      db, cursor := tx.value, n;
      return true;
    }

    /** The scan of the segment into the open transaction; None rolls it back. */
    method ApplySegment(crc: Bytes -> Checksum, file: Bytes, fault: Option<nat>) returns (r: Option<Mirror>)
      requires Unambiguous(Companion(tables, db), ReadSegment(crc, file).records)
      modifies this`tables
      ensures r.Some? ==> !ReadSegment(crc, file).fatal
                          && Drain(Companion(old(tables), db), ReadSegment(crc, file).records) == Some(Companion(tables, r.value))
      ensures r.None? ==> AttemptedOn(old(tables), db, ReadSegment(crc, file).records, tables)
      ensures r.None? && fault.None? ==> ReadSegment(crc, file).fatal || Drain(Companion(old(tables), db), ReadSegment(crc, file).records).None?
    {
      ghost var c0, all, fatal := Companion(tables, db), ReadSegment(crc, file).records, ReadSegment(crc, file).fatal;
      var tx, pos := db, 0;
      ghost var k: nat := 0;
      WholeRemains(crc, file);
      assert all[..0] == [] && all[..|all|] == all;
      while true
        invariant Remaining(crc, file, pos, all, fatal, k) && Drain(c0, all[..k]) == Some(Companion(tables, tx))
        decreases |file| - pos
      {
        var read := ReadNext(crc, file, pos, all, fatal, k);
        if read.End? { break; }
        if read.Unreadable? || fault == Some(pos) { return None; }
        assert UpTo(all, k);
        DrainSnoc(c0, all, k);
        var applied := Apply(tx, read.rec);
        if applied.None? {
          StopsAt(c0, all, k);
          return None;
        }
        tx, pos, k := applied.value, read.pos, k + 1;
      }
      return Some(tx);
    }

    /** `drainOnce`: the sealed segments above the cursor, in order, one commit each. It
        stops at a missing number and at a segment it cannot drain, with the cursor below. */
    method DrainOnce(crc: Bytes -> Checksum, files: map<nat, Bytes>, segs: seq<nat>) returns (ok: bool)
      requires SegmentList(files, segs) && Unambiguous(Companion(tables, db), Between(Readings(crc, files), cursor, MaxSeg(files)))
      modifies this
      ensures old(cursor) <= cursor && AllReadable(Readings(crc, files), old(cursor), cursor)
      ensures Drained(old(Companion(tables, db)), Between(Readings(crc, files), old(cursor), cursor), db)
      ensures ok ==> Drain(old(Companion(tables, db)), Between(Readings(crc, files), old(cursor), cursor)) == Some(Companion(tables, db))
      ensures ok ==> forall n :: n in files ==> n <= cursor
      ensures !ok ==> Stuck(Readings(crc, files), old(Companion(tables, db)), old(cursor), cursor)
    {
      ghost var got := Readings(crc, files);
      LastIsTop(files, segs);
      ok := DrainSegments(crc, files, segs, got, MaxSeg(files));
      if ok { forall n | n in files ensures n <= cursor { assert n in segs; } }
    }

    method DrainSegments(crc: Bytes -> Checksum, files: map<nat, Bytes>, segs: seq<nat>, ghost got: map<nat, Reading>, ghost top: nat) returns (ok: bool)
      requires SegmentList(files, segs) && got.Keys == files.Keys && forall i :: 0 <= i < |segs| ==> segs[i] in got && segs[i] <= top
      requires forall n :: n in files ==> got[n] == ReadSegment(crc, files[n])
      requires Unambiguous(Companion(tables, db), Between(got, cursor, top))
      modifies this
      ensures old(cursor) <= cursor && AllReadable(got, old(cursor), cursor)
      ensures Drained(old(Companion(tables, db)), Between(got, old(cursor), cursor), db)
      ensures ok ==> Drain(old(Companion(tables, db)), Between(got, old(cursor), cursor)) == Some(Companion(tables, db))
      ensures ok ==> forall i :: 0 <= i < |segs| ==> segs[i] <= cursor
      ensures !ok ==> Stuck(got, old(Companion(tables, db)), old(cursor), cursor)
    {
      ghost var c0, from, done := Companion(tables, db), cursor, [];
      for i := 0 to |segs|
        invariant Covered(segs, i, cursor + 1) && (cursor == from || (i > 0 && cursor == segs[i - 1]))
        invariant Reached(got, c0, from, cursor, done, Companion(tables, db))
      {
        if segs[i] > cursor {
          var drained;
          drained, done := Advance(crc, files, segs, i, got, top, c0, from, done);
          if !drained { return false; }
        }
      }
      return true;
    }

    /** The next listed segment: drained, unless a number is missing before it or it cannot
        be drained. */
    method Advance(crc: Bytes -> Checksum, files: map<nat, Bytes>, segs: seq<nat>, i: nat, ghost got: map<nat, Reading>, ghost top: nat,
                   ghost c0: Companion, ghost from: nat, ghost done0: seq<Record>) returns (ok: bool, ghost done: seq<Record>)
      requires SegmentList(files, segs) && got.Keys == files.Keys && i < |segs| && segs[i] in got && cursor < segs[i] <= top
      requires got[segs[i]] == ReadSegment(crc, files[segs[i]])
      requires Covered(segs, i, cursor + 1) && Unambiguous(c0, Between(got, from, top))
      requires Reached(got, c0, from, cursor, done0, Companion(tables, db))
      modifies this
      ensures ok ==> cursor == segs[i] && Reached(got, c0, from, cursor, done, Companion(tables, db))
      ensures !ok ==> from <= cursor && AllReadable(got, from, cursor) && Drained(c0, Between(got, from, cursor), db) && Stuck(got, c0, from, cursor)
    {
      ghost var was, tail := cursor, Between(got, from, top);
      var n := segs[i];
      done := done0;
      if n != cursor + 1 {
        NotListed(files, segs, i, cursor + 1);
        StuckAt(got, c0, from, cursor, n, done);
        return false, done;
      }
      BetweenStep(got, from, n, top, done, tail);
      ok := DrainNext(crc, n, files[n], got[n], c0, done, tail);
      if !ok {
        StuckAt(got, c0, from, was, n, done);
        return;
      }
      ReachedNext(got, c0, from, n, done, Companion(tables, db));
      done := done + got[n].records;
    }

    /** One more segment on top of what is drained, or none. */
    method DrainNext(crc: Bytes -> Checksum, n: nat, file: Bytes, ghost got: Reading, ghost c0: Companion, ghost done: seq<Record>, ghost all: seq<Record>)
      returns (ok: bool)
      requires got == ReadSegment(crc, file)
      requires Drain(c0, done) == Some(Companion(tables, db)) && Unambiguous(c0, all) && done + got.records <= all
      modifies this
      ensures ok ==> cursor == n && !got.fatal && Drain(c0, done + got.records) == Some(Companion(tables, db))
      ensures !ok ==> cursor == old(cursor) && db == old(db) && (got.fatal || Drain(c0, done + got.records).None?)
    {
      NotMoreAmbiguous(c0, done, got.records, all);
      DrainConcat(c0, done, got.records);
      ok := DrainSegment(crc, n, file, None, true);
    }
  }

  /** What each file of the directory reads as. */
  ghost function Readings(crc: Bytes -> Checksum, files: map<nat, Bytes>): map<nat, Reading> {
    map n | n in files :: ReadSegment(crc, files[n])
  }

  /** The records of the segments above `lo` up to `hi`. */
  ghost function Between(got: map<nat, Reading>, lo: nat, hi: nat): seq<Record> {
    if hi <= lo then [] else Between(got, lo, hi - 1) + if hi in got then got[hi].records else []
  }

  /** Draining from `lo` got to `cursor`: `done` are the records, `c` what they made of `c0`. */
  ghost predicate Reached(got: map<nat, Reading>, c0: Companion, lo: nat, cursor: nat, done: seq<Record>, c: Companion) {
    lo <= cursor && done == Between(got, lo, cursor) && AllReadable(got, lo, cursor) && Drain(c0, done) == Some(c)
  }

  lemma ReachedNext(got: map<nat, Reading>, c0: Companion, lo: nat, n: nat, done: seq<Record>, c: Companion)
    requires lo < n && done == Between(got, lo, n - 1) && AllReadable(got, lo, n - 1)
    requires n in got && !got[n].fatal && Drain(c0, done + got[n].records) == Some(c)
    ensures Reached(got, c0, lo, n, done + got[n].records, c)
  {}

  ghost predicate Drained(c: Companion, rs: seq<Record>, db: Mirror) {
    Drain(c, rs).Some? && Drain(c, rs).value.db == db
  }

  ghost predicate AllReadable(got: map<nat, Reading>, lo: nat, hi: nat) {
    forall n :: lo < n <= hi ==> n in got && !got[n].fatal
  }

  /** Segments remain, and the next one is missing, unreadable, or refused. */
  ghost predicate Stuck(got: map<nat, Reading>, c: Companion, lo: nat, cursor: nat) {
    && (exists n :: n in got && n > cursor)
    && (cursor + 1 in got ==> got[cursor + 1].fatal || Drain(c, Between(got, lo, cursor + 1)).None?)
  }

  lemma StuckAt(got: map<nat, Reading>, c0: Companion, lo: nat, cursor: nat, n: nat, done: seq<Record>)
    requires n in got && n > cursor >= lo && done == Between(got, lo, cursor)
    requires cursor + 1 in got ==> got[cursor + 1].fatal || Drain(c0, done + got[cursor + 1].records).None?
    ensures Stuck(got, c0, lo, cursor)
  {}

  lemma BetweenStep(got: map<nat, Reading>, lo: nat, n: nat, top: nat, done: seq<Record>, tail: seq<Record>)
    requires lo < n <= top && n in got
    requires done == Between(got, lo, n - 1) && tail == Between(got, lo, top)
    ensures done + got[n].records <= tail
  {
    BetweenPrefix(got, lo, n, top);
    assert Between(got, lo, n) == done + got[n].records;
  }

  lemma {:induction false} BetweenPrefix(got: map<nat, Reading>, lo: nat, mid: nat, hi: nat)
    requires mid <= hi
    ensures Between(got, lo, mid) <= Between(got, lo, hi)
    decreases hi
  {
    if mid < hi { BetweenPrefix(got, lo, mid, hi - 1); }
  }

  /** The next records are no more ambiguous than the whole tail. */
  lemma NotMoreAmbiguous(c0: Companion, done: seq<Record>, rs: seq<Record>, all: seq<Record>)
    requires Drain(c0, done).Some? && done + rs <= all && Unambiguous(c0, all)
    ensures Unambiguous(Drain(c0, done).value, rs)
  {
    var c := Drain(c0, done).value;
    forall k | UpTo(rs, k) && k < |rs| && rs[k].DropTable? && Drain(c, rs[..k]).Some?
      ensures NameUnique(Drain(c, rs[..k]).value.tables, rs[k].name)
    {
      assert UpTo(all, |done| + k) && all[|done| + k] == rs[k];
      assert all[..|done| + k] == done + rs[..k];
      DrainConcat(c0, done, rs[..k]);
    }
  }

  /** The registry a failed attempt leaves: that of some drained prefix. */
  ghost predicate AttemptedOn(tables: map<nat, TableDef>, db: Mirror, rs: seq<Record>, left: map<nat, TableDef>) {
    exists k :: 0 <= k <= |rs| && Drain(Companion(tables, db), rs[..k]).Some? && left == Drain(Companion(tables, db), rs[..k]).value.tables
  }

  /** A refused record refuses the segment. */
  lemma StopsAt(c: Companion, rs: seq<Record>, k: nat)
    requires k < |rs| && Drain(c, rs[..k]).Some? && DrainRecord(Drain(c, rs[..k]).value, rs[k]).None?
    ensures Drain(c, rs).None?
  {
    assert rs == rs[..k] + rs[k..];
    DrainConcat(c, rs[..k], rs[k..]);
  }

  /** The search by name through the registry, in map order. */
  method FindTable(tables: map<nat, TableDef>, name: Bytes) returns (id: Option<nat>)
    ensures id.Some? ==> id.value in tables && tables[id.value].name == name
    ensures id.None? ==> forall k :: k in tables ==> tables[k].name != name
  {
    var left := tables.Keys;
    while left != {}
      invariant left <= tables.Keys && forall k :: k in tables && k !in left ==> tables[k].name != name
      decreases |left|
    {
      var k :| k in left;
      if tables[k].name == name { return Some(k); }
      left := left - {k};
    }
    return None;
  }
}
