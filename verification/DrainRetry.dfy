/** A drain attempt that fails rolls its SQL transaction back, but not the process
    registry it updated on the way (drain.go). Exactly when the retried segment still comes
    out right, whichever entry of a name the registry's map iteration meets first. */
module DrainRetry {
  import opened Wrappers
  import opened ByteStrings
  import opened Codec
  import opened Records
  import opened Interpreters
  import opened LiveLog

  /** The drain's view after an attempt that got through `rs` and was rolled back. */
  ghost function RolledBack(c: Companion, rs: seq<Record>): Companion
    requires Drain(c, rs).Some?
  {
    Companion(Drain(c, rs).value.tables, c.db)
  }

  ghost predicate Extends(a: map<nat, TableDef>, b: map<nat, TableDef>) {
    forall id :: id in a ==> id in b && b[id] == a[id]
  }

  // ---- the lookup by name, choice made explicit ----

  /** Which entry of a name `dropTable` meets first in the registry. */
  type Pick = (map<nat, TableDef>, Bytes) -> nat

  ghost predicate ValidPick(pick: Pick) {
    forall tables, name {:trigger pick(tables, name)} :: HasName(tables, name) ==> Named(tables, name, pick(tables, name))
  }

  ghost predicate HasName(tables: map<nat, TableDef>, name: Bytes) {
    exists id :: Named(tables, name, id)
  }

  ghost function UnregisterBy(pick: Pick, c: Companion, name: Bytes): Companion {
    if HasName(c.tables, name) then
      var id := pick(c.tables, name);
      Companion(c.tables - {id}, Mirror(c.db.reg - {id}, c.db.data - {name}))
    else c.(db := Mirror(c.db.reg, c.db.data - {name}))
  }

  ghost function DrainRecordBy(pick: Pick, c: Companion, r: Record): Option<Companion> {
    if r.DropTable? then Some(UnregisterBy(pick, c, r.name)) else DrainRecord(c, r)
  }

  ghost function DrainBy(pick: Pick, c: Companion, rs: seq<Record>): Option<Companion> {
    if rs == [] then Some(c)
    else
      match DrainBy(pick, c, rs[..|rs| - 1])
      case None => None
      case Some(c') => DrainRecordBy(pick, c', rs[|rs| - 1])
  }

  lemma DrainByNext(pick: Pick, c: Companion, rs: seq<Record>, t: nat)
    requires t < |rs|
    ensures DrainBy(pick, c, rs[..t + 1]) ==
              match DrainBy(pick, c, rs[..t]) case None => None case Some(c') => DrainRecordBy(pick, c', rs[t])
  {
    assert rs[..t + 1][..t] == rs[..t];
  }

  lemma DrainSnoc(c: Companion, rs: seq<Record>, t: nat)
    requires t < |rs|
    ensures Drain(c, rs[..t + 1]) == match Drain(c, rs[..t]) case None => None case Some(c') => DrainRecord(c', rs[t])
  {
    assert rs[..t + 1] == rs[..t] + [rs[t]];
    DrainConcat(c, rs[..t], [rs[t]]);
    assert [rs[t]][1..] == [];
    if Drain(c, rs[..t]).Some? {
      var c' := Drain(c, rs[..t]).value;
      assert Drain(c', [rs[t]]) == DrainRecord(c', rs[t]);
    }
  }

  /** The drain modelled elsewhere makes one such choice. */
  ghost function FindPick(): Pick {
    (tables: map<nat, TableDef>, name: Bytes) => IdOf(tables, name)
  }

  lemma FindPickValid()
    ensures ValidPick(FindPick())
  {
    forall tables, name | HasName(tables, name) ensures Named(tables, name, FindPick()(tables, name)) {
      assert FindByName(tables, name).Some?;
    }
  }

  lemma {:induction false} DrainIsBy(c: Companion, rs: seq<Record>)
    ensures DrainBy(FindPick(), c, rs) == Drain(c, rs)
  {
    if rs != [] {
      var t := |rs| - 1;
      DrainIsBy(c, rs[..t]);
      DrainSnoc(c, rs, t);
      assert rs[..t + 1] == rs;
      if Drain(c, rs[..t]).Some? && rs[t].DropTable? { UnregisterIsBy(Drain(c, rs[..t]).value, rs[t].name); }
    }
  }

  lemma UnregisterIsBy(c: Companion, name: Bytes)
    ensures UnregisterBy(FindPick(), c, name) == Unregister(c, name)
  {
    var found := FindByName(c.tables, name);
    if found.Some? { assert Named(c.tables, name, found.value); }
  }

  // ---- what one record does to the registry ----

  lemma MutationKeepsTables(c: Companion, mut: Mutation)
    ensures DrainMutation(c, mut).Some? ==>
              DrainMutation(c, mut).value.tables == c.tables && DrainMutation(c, mut).value.db.reg == c.db.reg
  {}

  lemma {:induction false} GroupKeepsTables(c: Companion, ms: seq<Mutation>)
    ensures DrainAll(c, ms).Some? ==>
              DrainAll(c, ms).value.tables == c.tables && DrainAll(c, ms).value.db.reg == c.db.reg
    decreases |ms|
  {
    if ms != [] && DrainMutation(c, ms[0]).Some? {
      MutationKeepsTables(c, ms[0]);
      GroupKeepsTables(DrainMutation(c, ms[0]).value, ms[1..]);
    }
  }

  /** A larger registry changes nothing for a mutation the smaller one resolves. */
  lemma MutationSame(c: Companion, d: Companion, mut: Mutation)
    requires c.db == d.db && Extends(c.tables, d.tables) && DrainMutation(c, mut).Some?
    ensures DrainMutation(d, mut) == Some(Companion(d.tables, DrainMutation(c, mut).value.db))
  {}

  lemma {:induction false} GroupSame(c: Companion, d: Companion, ms: seq<Mutation>)
    requires c.db == d.db && Extends(c.tables, d.tables) && DrainAll(c, ms).Some?
    ensures DrainAll(d, ms) == Some(Companion(d.tables, DrainAll(c, ms).value.db))
    decreases |ms|
  {
    if ms != [] {
      MutationSame(c, d, ms[0]);
      MutationKeepsTables(c, ms[0]);
      GroupSame(DrainMutation(c, ms[0]).value, DrainMutation(d, ms[0]).value, ms[1..]);
    }
  }

  // ---- the clean run ----

  /** Every prefix of a live log drains, as the mirror of its replay, and the next record
      follows from there. */
  lemma CleanAt(m: Memory, c: Companion, rs: seq<Record>, t: nat)
    requires Mirrored(m, c) && LogFollows(m, rs) && t <= |rs|
    ensures Replay(m, rs[..t]).Some? && Drain(c, rs[..t]).Some? && Mirrored(Replay(m, rs[..t]).value, Drain(c, rs[..t]).value)
    ensures t < |rs| ==> Follows(Replay(m, rs[..t]).value, rs[t])
  {
    assert rs == rs[..t] + rs[t..];
    FollowsConcat(m, rs[..t], rs[t..]);
    LogAgrees(m, c, rs[..t]);
    if t < |rs| { assert rs[t..][0] == rs[t]; }
  }

  /** In a mirror image a name is registered at most once. */
  lemma OneName(m: Memory, c: Companion, name: Bytes, a: nat, b: nat)
    requires Mirrored(m, c) && Named(c.tables, name, a) && Named(c.tables, name, b)
    ensures a == b && name in m.byName && m.byName[name] == a
  {
    assert TableMirrored(m, c, a) && TableMirrored(m, c, b) && TableListed(m, a) && TableListed(m, b);
  }

  /** A live DROP names a registered table: it goes, and no other. */
  lemma CleanDrop(m: Memory, c: Companion, name: Bytes) returns (id: nat)
    requires Mirrored(m, c) && name in m.byName
    ensures Named(c.tables, name, id) && Unregister(c, name) == Companion(c.tables - {id}, Mirror(c.db.reg - {id}, c.db.data - {name}))
    ensures !HasName(Unregister(c, name).tables, name)
  {
    FoundByName(m, c, name);
    id := m.byName[name];
    assert FindByName(c.tables, name) == Some(id);
    forall other ensures !Named(Unregister(c, name).tables, name, other) {
      if Named(c.tables, name, other) { OneName(m, c, name, id, other); }
    }
  }

  // ---- a registry with entries too early ----

  /** No record before the i-th drops that name. */
  ghost predicate NoDropOf(rs: seq<Record>, i: int, name: Bytes) {
    forall j :: 0 <= j < i && j < |rs| ==> rs[j] != DropTable(name)
  }

  /** The segment creates that table at or after record `t`, no DROP of its name before. */
  ghost predicate CreatedLater(rs: seq<Record>, t: nat, id: nat, def: TableDef) {
    exists i :: t <= i < |rs| && rs[i] == CreateTable(id, def) && NoDropOf(rs, i, def.name)
  }

  /** What the process registry holds beyond the file's is created later in the segment. */
  ghost predicate Loose(tables: map<nat, TableDef>, clean: map<nat, TableDef>, rs: seq<Record>, t: nat) {
    && Extends(clean, tables)
    && forall id {:trigger id in tables} :: id in tables && id !in clean ==> CreatedLater(rs, t, id, tables[id])
  }

  lemma LooseNow(rs: seq<Record>, t: nat, id: nat, def: TableDef)
    requires CreatedLater(rs, t, id, def) && t < |rs|
    ensures rs[t] == CreateTable(id, def) || CreatedLater(rs, t + 1, id, def)
    ensures rs[t] != DropTable(def.name)
  {
    var i :| t <= i < |rs| && rs[i] == CreateTable(id, def) && NoDropOf(rs, i, def.name);
    assert i == t || CreatedLater(rs, t + 1, id, def);
  }

  /** One record drained from a loose registry: the same file, and still loose. */
  lemma LooseStep(m: Memory, c: Companion, d: Companion, rs: seq<Record>, t: nat, pick: Pick)
    requires Mirrored(m, c) && t < |rs| && Follows(m, rs[t]) && ValidPick(pick)
    requires d.db == c.db && Loose(d.tables, c.tables, rs, t)
    ensures DrainRecord(c, rs[t]).Some? && DrainRecordBy(pick, d, rs[t]).Some?
    ensures var c', d' := DrainRecord(c, rs[t]).value, DrainRecordBy(pick, d, rs[t]).value;
            d'.db == c'.db && Loose(d'.tables, c'.tables, rs, t + 1)
  {
    var r := rs[t];
    RecordAgrees(m, c, r);
    forall id | id in d.tables && id !in c.tables
      ensures r == CreateTable(id, d.tables[id]) || CreatedLater(rs, t + 1, id, d.tables[id])
      ensures r != DropTable(d.tables[id].name)
    {
      LooseNow(rs, t, id, d.tables[id]);
    }
    match r
    case Single(mut) =>
      MutationSame(c, d, mut);
      MutationKeepsTables(c, mut);
    case Txn(ms) =>
      GroupSame(c, d, ms);
      GroupKeepsTables(c, ms);
    case Checkpoint =>
    case CreateTable(_, _) =>
    case DropTable(name) => LooseDrop(m, c, d, name, pick);
  }

  /** A DROP whose name no early entry carries meets the one entry the file has. */
  lemma LooseDrop(m: Memory, c: Companion, d: Companion, name: Bytes, pick: Pick)
    requires Mirrored(m, c) && name in m.byName && ValidPick(pick) && d.db == c.db && Extends(c.tables, d.tables)
    requires forall id :: id in d.tables && id !in c.tables ==> d.tables[id].name != name
    ensures exists id :: id in c.tables && Unregister(c, name) == Companion(c.tables - {id}, Mirror(c.db.reg - {id}, c.db.data - {name}))
                         && UnregisterBy(pick, d, name) == Companion(d.tables - {id}, Unregister(c, name).db)
  {
    var id := CleanDrop(m, c, name);
    assert Named(d.tables, name, id);
    var picked := pick(d.tables, name);
    assert Named(d.tables, name, picked);
    assert Named(c.tables, name, picked);
    OneName(m, c, name, id, picked);
  }

  /** A whole prefix from a loose registry. */
  lemma {:induction false} LooseRun(m: Memory, c: Companion, d: Companion, rs: seq<Record>, t: nat, pick: Pick)
    requires Mirrored(m, c) && LogFollows(m, rs) && t <= |rs| && ValidPick(pick)
    requires d.db == c.db && Loose(d.tables, c.tables, rs, 0)
    ensures Drain(c, rs[..t]).Some? && DrainBy(pick, d, rs[..t]).Some?
    ensures var ct, dt := Drain(c, rs[..t]).value, DrainBy(pick, d, rs[..t]).value;
            dt.db == ct.db && Loose(dt.tables, ct.tables, rs, t)
  {
    if t > 0 {
      LooseRun(m, c, d, rs, t - 1, pick);
      CleanAt(m, c, rs, t - 1);
      DrainSnoc(c, rs, t - 1);
      DrainByNext(pick, d, rs, t - 1);
      LooseStep(Replay(m, rs[..t - 1]).value, Drain(c, rs[..t - 1]).value, DrainBy(pick, d, rs[..t - 1]).value, rs, t - 1, pick);
    } else {
      assert rs[..0] == [];
    }
  }

  /** From a loose registry the segment drains as from the file's own, whatever is picked. */
  lemma LooseDrainsClean(m: Memory, c: Companion, d: Companion, rs: seq<Record>, pick: Pick)
    requires Mirrored(m, c) && LogFollows(m, rs) && ValidPick(pick) && d.db == c.db && Loose(d.tables, c.tables, rs, 0)
    ensures DrainBy(pick, d, rs) == Drain(c, rs) && Drain(c, rs).Some?
  {
    LooseRun(m, c, d, rs, |rs|, pick);
    assert rs[..|rs|] == rs;
    var ct, dt := Drain(c, rs).value, DrainBy(pick, d, rs).value;
    forall id | id in dt.tables ensures id in ct.tables { assert id !in ct.tables ==> CreatedLater(rs, |rs|, id, dt.tables[id]); }
    assert dt.tables == ct.tables;
  }

  // ---- when a failed attempt leaves a loose registry ----

  /** No DROP among the first `k` records names a table the file has, or one the attempt
      left registered. */
  ghost predicate RetrySafe(c: Companion, rs: seq<Record>, k: nat)
    requires k <= |rs| && Drain(c, rs[..k]).Some?
  {
    forall i {:trigger rs[i]} :: 0 <= i < k && rs[i].DropTable? ==>
      !HasName(c.tables, rs[i].name) && !HasName(Drain(c, rs[..k]).value.tables, rs[i].name)
  }

  ghost predicate CreatedBefore(rs: seq<Record>, t: nat, id: nat, def: TableDef) {
    exists i :: 0 <= i < t && i < |rs| && rs[i] == CreateTable(id, def)
  }

  /** Nothing of the file is dropped on the way, and whatever else is registered was
      created on the way. */
  lemma {:induction false} SafePrefix(m: Memory, c: Companion, rs: seq<Record>, k: nat, t: nat)
    requires Mirrored(m, c) && LogFollows(m, rs) && t <= k <= |rs|
    requires forall i {:trigger rs[i]} :: 0 <= i < k && rs[i].DropTable? ==> !HasName(c.tables, rs[i].name)
    ensures Drain(c, rs[..t]).Some? && Extends(c.tables, Drain(c, rs[..t]).value.tables)
  {
    if t == 0 {
      assert rs[..0] == [];
    } else {
      SafePrefix(m, c, rs, k, t - 1);
      CleanAt(m, c, rs, t - 1);
      DrainSnoc(c, rs, t - 1);
      StepExtends(Replay(m, rs[..t - 1]).value, Drain(c, rs[..t - 1]).value, c.tables, rs[t - 1]);
    }
  }

  lemma StepExtends(m: Memory, c: Companion, base: map<nat, TableDef>, r: Record)
    requires Mirrored(m, c) && Follows(m, r) && Extends(base, c.tables) && (r.DropTable? ==> !HasName(base, r.name))
    ensures DrainRecord(c, r).Some? && Extends(base, DrainRecord(c, r).value.tables)
  {
    RecordAgrees(m, c, r);
    match r
    case Single(mut) => MutationKeepsTables(c, mut);
    case Txn(ms) => GroupKeepsTables(c, ms);
    case Checkpoint =>
    case CreateTable(_, _) =>
    case DropTable(name) =>
      var id := CleanDrop(m, c, name);
      assert !Named(base, name, id);
  }

  /** A table a record leaves registered was there, or the record creates it. */
  lemma StepCreates(m: Memory, c: Companion, r: Record, id: nat)
    requires Mirrored(m, c) && Follows(m, r)
    ensures DrainRecord(c, r).Some?
    ensures var after := DrainRecord(c, r).value.tables;
            id in after ==> r == CreateTable(id, after[id]) || (id in c.tables && c.tables[id] == after[id])
  {
    RecordAgrees(m, c, r);
    match r
    case Single(mut) => MutationKeepsTables(c, mut);
    case Txn(ms) => GroupKeepsTables(c, ms);
    case Checkpoint =>
    case CreateTable(_, _) =>
    case DropTable(name) => var gone := CleanDrop(m, c, name);
  }

  lemma {:induction false} ExtrasAreCreated(m: Memory, c: Companion, rs: seq<Record>, t: nat, id: nat)
    requires Mirrored(m, c) && LogFollows(m, rs) && t <= |rs|
    ensures Drain(c, rs[..t]).Some?
    ensures id in Drain(c, rs[..t]).value.tables ==>
              var def := Drain(c, rs[..t]).value.tables[id]; (id in c.tables && def == c.tables[id]) || CreatedBefore(rs, t, id, def)
  {
    if t == 0 {
      assert rs[..0] == [];
    } else {
      ExtrasAreCreated(m, c, rs, t - 1, id);
      CleanAt(m, c, rs, t - 1);
      DrainSnoc(c, rs, t - 1);
      var r := rs[t - 1];
      StepCreates(Replay(m, rs[..t - 1]).value, Drain(c, rs[..t - 1]).value, r, id);
      if id in Drain(c, rs[..t]).value.tables {
        var def := Drain(c, rs[..t]).value.tables[id];
        if r == CreateTable(id, def) { assert CreatedBefore(rs, t, id, def); }
        if CreatedBefore(rs, t - 1, id, def) { assert CreatedBefore(rs, t, id, def); }
      }
    }
  }

  /** A safe attempt leaves a loose registry. */
  lemma SafeIsLoose(m: Memory, c: Companion, rs: seq<Record>, k: nat)
    requires Mirrored(m, c) && LogFollows(m, rs) && k <= |rs| && Drain(c, rs[..k]).Some? && RetrySafe(c, rs, k)
    ensures Loose(Drain(c, rs[..k]).value.tables, c.tables, rs, 0)
  {
    SafePrefix(m, c, rs, k, k);
    var left := Drain(c, rs[..k]).value.tables;
    forall id | id in left && id !in c.tables ensures CreatedLater(rs, 0, id, left[id]) {
      ExtrasAreCreated(m, c, rs, k, id);
      var i :| 0 <= i < k && rs[i] == CreateTable(id, left[id]);
      assert Named(left, left[id].name, id);
      forall j | 0 <= j < i && j < |rs| ensures rs[j] != DropTable(left[id].name) {}
      assert NoDropOf(rs, i, left[id].name);
    }
  }

  /** A further attempt, from a loose registry, leaves a loose one. */
  lemma SafeStaysLoose(m: Memory, c: Companion, d: Companion, rs: seq<Record>, k: nat, pick: Pick)
    requires Mirrored(m, c) && LogFollows(m, rs) && k <= |rs| && Drain(c, rs[..k]).Some? && RetrySafe(c, rs, k) && ValidPick(pick)
    requires d.db == c.db && Loose(d.tables, c.tables, rs, 0)
    ensures DrainBy(pick, d, rs[..k]).Some? && Loose(DrainBy(pick, d, rs[..k]).value.tables, c.tables, rs, 0)
  {
    SafeIsLoose(m, c, rs, k);
    LooseRun(m, c, d, rs, k, pick);
    var ck, dk := Drain(c, rs[..k]).value.tables, DrainBy(pick, d, rs[..k]).value.tables;
    forall id | id in dk && id !in c.tables ensures CreatedLater(rs, 0, id, dk[id]) {
      if id in ck {
        assert ck[id] == dk[id] && CreatedLater(rs, 0, id, ck[id]);
      } else {
        assert CreatedLater(rs, k, id, dk[id]);
        var i :| k <= i < |rs| && rs[i] == CreateTable(id, dk[id]) && NoDropOf(rs, i, dk[id].name);
      }
    }
  }

  // ---- when it does not ----

  /** Table ids are handed out upwards: no id of the file's, and no id twice. */
  ghost predicate FreshIds(tables: map<nat, TableDef>, rs: seq<Record>) {
    && (forall i {:trigger rs[i]} :: 0 <= i < |rs| && rs[i].CreateTable? ==> rs[i].id !in tables)
    && forall i, j :: 0 <= i < j < |rs| && rs[i].CreateTable? && rs[j].CreateTable? ==> rs[i].id != rs[j].id
  }

  /** The process has forgotten a table its file still registers. */
  ghost predicate Stale(c: Companion, id: nat) {
    id !in c.tables && id in c.db.reg
  }

  ghost predicate NeverCreates(rs: seq<Record>, id: nat) {
    forall i {:trigger rs[i]} :: 0 <= i < |rs| ==> !(rs[i].CreateTable? && rs[i].id == id)
  }

  lemma RecordKeepsStale(c: Companion, r: Record, id: nat, pick: Pick)
    requires !(r.CreateTable? && r.id == id) && DrainRecordBy(pick, c, r).Some? && ValidPick(pick)
    ensures Stale(c, id) ==> Stale(DrainRecordBy(pick, c, r).value, id)
    ensures id !in c.tables ==> id !in DrainRecordBy(pick, c, r).value.tables
  {
    match r
    case Single(mut) => MutationKeepsTables(c, mut);
    case Txn(ms) => GroupKeepsTables(c, ms);
    case Checkpoint =>
    case CreateTable(_, _) =>
    case DropTable(name) =>
      if HasName(c.tables, name) { assert Named(c.tables, name, pick(c.tables, name)); }
  }

  lemma {:induction false} StaleStays(d: Companion, rs: seq<Record>, id: nat, pick: Pick, t: nat)
    requires ValidPick(pick) && NeverCreates(rs, id) && Stale(d, id) && t <= |rs|
    ensures DrainBy(pick, d, rs[..t]).Some? ==> Stale(DrainBy(pick, d, rs[..t]).value, id)
  {
    if t == 0 {
      assert rs[..0] == [];
    } else {
      StaleStays(d, rs, id, pick, t - 1);
      DrainByNext(pick, d, rs, t - 1);
      if DrainBy(pick, d, rs[..t]).Some? { RecordKeepsStale(DrainBy(pick, d, rs[..t - 1]).value, rs[t - 1], id, pick); }
    }
  }

  /** A dropped table whose id is not created again stays away. */
  lemma {:induction false} GoneStaysGone(m: Memory, c: Companion, rs: seq<Record>, id: nat, from: nat, t: nat)
    requires Mirrored(m, c) && LogFollows(m, rs) && from <= t <= |rs|
    requires Drain(c, rs[..from]).Some? && id !in Drain(c, rs[..from]).value.tables
    requires forall i {:trigger rs[i]} :: from <= i < |rs| ==> !(rs[i].CreateTable? && rs[i].id == id)
    ensures Drain(c, rs[..t]).Some? && id !in Drain(c, rs[..t]).value.tables
  {
    if from < t {
      GoneStaysGone(m, c, rs, id, from, t - 1);
      CleanAt(m, c, rs, t - 1);
      DrainSnoc(c, rs, t - 1);
      RecordAgrees(Replay(m, rs[..t - 1]).value, Drain(c, rs[..t - 1]).value, rs[t - 1]);
      FindPickValid();
      if rs[t - 1].DropTable? { UnregisterIsBy(Drain(c, rs[..t - 1]).value, rs[t - 1].name); }
      RecordKeepsStale(Drain(c, rs[..t - 1]).value, rs[t - 1], id, FindPick());
    }
  }

  /** A DROP of a table of the file: rolled back, it leaves that table registered in the
      file for good, whatever is picked. */
  lemma DroppedFileTable(m: Memory, c: Companion, rs: seq<Record>, k: nat, i: nat, pick: Pick)
    requires Mirrored(m, c) && LogFollows(m, rs) && FreshIds(c.tables, rs) && i < k <= |rs| && ValidPick(pick)
    requires rs[i].DropTable? && HasName(c.tables, rs[i].name) && Drain(c, rs[..k]).Some?
    ensures DrainBy(pick, RolledBack(c, rs[..k]), rs) != Drain(c, rs)
  {
    var id :| Named(c.tables, rs[i].name, id);
    FileTableGone(m, c, rs, i, id);
    GoneStaysGone(m, c, rs, id, i + 1, k);
    GoneStaysGone(m, c, rs, id, i + 1, |rs|);
    CleanAt(m, c, rs, |rs|);
    StaleStays(RolledBack(c, rs[..k]), rs, id, pick, |rs|);
    assert rs[..|rs|] == rs;
  }

  lemma FileTableGone(m: Memory, c: Companion, rs: seq<Record>, i: nat, id: nat)
    requires Mirrored(m, c) && LogFollows(m, rs) && FreshIds(c.tables, rs) && i < |rs|
    requires rs[i].DropTable? && Named(c.tables, rs[i].name, id)
    ensures Drain(c, rs[..i + 1]).Some? && id !in Drain(c, rs[..i + 1]).value.tables
  {
    CleanAt(m, c, rs, i);
    DrainSnoc(c, rs, i);
    var mi, ci := Replay(m, rs[..i]).value, Drain(c, rs[..i]).value;
    var gone := CleanDrop(mi, ci, rs[i].name);
    if id in ci.tables {
      ExtrasAreCreated(m, c, rs, i, id);
      assert Named(ci.tables, rs[i].name, id);
      OneName(mi, ci, rs[i].name, gone, id);
    }
  }

  /** A lookup that never meets `a` first when it can help it. */
  ghost function Avoid(a: nat): Pick {
    (tables: map<nat, TableDef>, name: Bytes) =>
      if exists id :: id != a && Named(tables, name, id) then SomeOther(tables, name, a) else IdOf(tables, name)
  }

  ghost function SomeOther(tables: map<nat, TableDef>, name: Bytes, a: nat): (id: nat)
    ensures (exists k :: k != a && Named(tables, name, k)) ==> id != a && Named(tables, name, id)
  {
    if exists k :: k != a && Named(tables, name, k) then
      var k: nat :| k != a && Named(tables, name, k);
      k
    else 0
  }

  lemma AvoidValid(a: nat)
    ensures ValidPick(Avoid(a))
  {
    FindPickValid();
    forall tables, name | HasName(tables, name) ensures Named(tables, name, Avoid(a)(tables, name)) {
      assert Named(tables, name, FindPick()(tables, name));
    }
  }

  /** The retry's registry holds the clean run's tables of that name. */
  ghost predicate Shadows(c: Companion, d: Companion, name: Bytes) {
    forall id {:trigger Named(c.tables, name, id)} :: Named(c.tables, name, id) ==> Named(d.tables, name, id) && id in d.db.reg
  }

  lemma ShadowStep(m: Memory, c: Companion, d: Companion, r: Record, name: Bytes, pick: Pick)
    requires Mirrored(m, c) && Follows(m, r) && ValidPick(pick) && Shadows(c, d, name)
    requires DrainRecord(c, r).Some? && DrainRecordBy(pick, d, r).Some? && r != DropTable(name)
    ensures Shadows(DrainRecord(c, r).value, DrainRecordBy(pick, d, r).value, name)
  {
    match r
    case Single(mut) =>
      MutationKeepsTables(c, mut);
      MutationKeepsTables(d, mut);
      TablesKeepShadows(c, d, DrainRecord(c, r).value, DrainRecord(d, r).value, name);
    case Txn(ms) =>
      GroupKeepsTables(c, ms);
      GroupKeepsTables(d, ms);
      TablesKeepShadows(c, d, DrainRecord(c, r).value, DrainRecord(d, r).value, name);
    case Checkpoint =>
    case CreateTable(id, def) =>
      forall k | Named(Register(c, id, def).tables, name, k) ensures Named(Register(d, id, def).tables, name, k) && k in Register(d, id, def).db.reg {
        assert k != id ==> Named(c.tables, name, k);
      }
    case DropTable(other) =>
      var gone := CleanDrop(m, c, other);
      var d' := UnregisterBy(pick, d, other);
      forall k | Named(Unregister(c, other).tables, name, k) ensures Named(d'.tables, name, k) && k in d'.db.reg {
        assert Named(c.tables, name, k);
        if HasName(d.tables, other) { assert Named(d.tables, other, pick(d.tables, other)); }
      }
  }

  lemma TablesKeepShadows(c: Companion, d: Companion, c': Companion, d': Companion, name: Bytes)
    requires Shadows(c, d, name) && c'.tables == c.tables && d'.tables == d.tables && d'.db.reg == d.db.reg
    ensures Shadows(c', d', name)
  {
    forall id | Named(c'.tables, name, id) ensures Named(d'.tables, name, id) && id in d'.db.reg { assert Named(c.tables, name, id); }
  }

  /** An entry of the name stays where no DROP of the name comes, its definition intact. */
  lemma EntryStays(d: Companion, r: Record, id: nat, def: TableDef, pick: Pick)
    requires id in d.tables && d.tables[id] == def && ValidPick(pick) && r != DropTable(def.name)
    requires r.CreateTable? && r.id == id ==> r.def == def
    requires DrainRecordBy(pick, d, r).Some?
    ensures var d' := DrainRecordBy(pick, d, r).value; id in d'.tables && d'.tables[id] == def && (id in d.db.reg ==> id in d'.db.reg)
  {
    match r
    case Single(mut) => MutationKeepsTables(d, mut);
    case Txn(ms) => GroupKeepsTables(d, ms);
    case Checkpoint =>
    case CreateTable(_, _) =>
    case DropTable(other) =>
      if HasName(d.tables, other) { assert Named(d.tables, other, pick(d.tables, other)); }
  }

  /** Up to the first DROP of the name, the entry the attempt left for it stays, and so does
      every table of the name the clean run has. */
  lemma {:induction false} UntilFirstDrop(m: Memory, c: Companion, d: Companion, rs: seq<Record>, t: nat, id: nat, def: TableDef, pick: Pick)
    requires Mirrored(m, c) && LogFollows(m, rs) && t <= |rs| && ValidPick(pick)
    requires NoDropOf(rs, t, def.name) && id in d.tables && d.tables[id] == def && !HasName(c.tables, def.name)
    requires forall i {:trigger rs[i]} :: 0 <= i < |rs| && rs[i].CreateTable? && rs[i].id == id ==> rs[i].def == def
    ensures Drain(c, rs[..t]).Some?
    ensures DrainBy(pick, d, rs[..t]).Some? ==>
              var dt := DrainBy(pick, d, rs[..t]).value;
              id in dt.tables && dt.tables[id] == def && Shadows(Drain(c, rs[..t]).value, dt, def.name)
  {
    CleanAt(m, c, rs, t);
    if t == 0 {
      assert rs[..0] == [];
    } else {
      UntilFirstDrop(m, c, d, rs, t - 1, id, def, pick);
      CleanAt(m, c, rs, t - 1);
      DrainSnoc(c, rs, t - 1);
      DrainByNext(pick, d, rs, t - 1);
      if DrainBy(pick, d, rs[..t]).Some? {
        ShadowNext(Replay(m, rs[..t - 1]).value, Drain(c, rs[..t - 1]).value, DrainBy(pick, d, rs[..t - 1]).value, rs[t - 1], id, def, pick);
      }
    }
  }

  /** One record more. */
  lemma ShadowNext(m: Memory, c: Companion, d: Companion, r: Record, id: nat, def: TableDef, pick: Pick)
    requires Mirrored(m, c) && Follows(m, r) && ValidPick(pick) && Shadows(c, d, def.name) && r != DropTable(def.name)
    requires id in d.tables && d.tables[id] == def && (r.CreateTable? && r.id == id ==> r.def == def)
    requires DrainRecord(c, r).Some? && DrainRecordBy(pick, d, r).Some?
    ensures var d' := DrainRecordBy(pick, d, r).value;
            id in d'.tables && d'.tables[id] == def && Shadows(DrainRecord(c, r).value, d', def.name)
  {
    EntryStays(d, r, id, def, pick);
    ShadowStep(m, c, d, r, def.name, pick);
  }

  /** After it, the table the clean run dropped stays registered: some other entry of the
      name is always there to be met first. */
  lemma {:induction false} AvoidedStays(m: Memory, c: Companion, d: Companion, rs: seq<Record>, from: nat, t: nat, a: nat, def: TableDef, pick: Pick)
    requires Mirrored(m, c) && LogFollows(m, rs) && from <= t <= |rs| && pick == Avoid(a)
    requires Drain(c, rs[..from]).Some? && a !in Drain(c, rs[..from]).value.tables
    requires forall i {:trigger rs[i]} :: from <= i < |rs| ==> !(rs[i].CreateTable? && rs[i].id == a)
    requires DrainBy(pick, d, rs[..from]).Some? ==> KeptAside(Drain(c, rs[..from]).value, DrainBy(pick, d, rs[..from]).value, a, def)
    ensures Drain(c, rs[..t]).Some?
    ensures DrainBy(pick, d, rs[..t]).Some? ==> KeptAside(Drain(c, rs[..t]).value, DrainBy(pick, d, rs[..t]).value, a, def)
  {
    if from < t {
      AvoidedStays(m, c, d, rs, from, t - 1, a, def, pick);
      CleanAt(m, c, rs, t - 1);
      GoneStaysGone(m, c, rs, a, from, t - 1);
      AvoidedNext(Replay(m, rs[..t - 1]).value, c, d, rs, t - 1, a, def, pick);
    }
  }

  lemma AvoidedNext(mt: Memory, c: Companion, d: Companion, rs: seq<Record>, t: nat, a: nat, def: TableDef, pick: Pick)
    requires t < |rs| && Drain(c, rs[..t]).Some? && Mirrored(mt, Drain(c, rs[..t]).value) && Follows(mt, rs[t]) && pick == Avoid(a)
    requires a !in Drain(c, rs[..t]).value.tables && !(rs[t].CreateTable? && rs[t].id == a)
    requires DrainBy(pick, d, rs[..t]).Some? ==> KeptAside(Drain(c, rs[..t]).value, DrainBy(pick, d, rs[..t]).value, a, def)
    ensures Drain(c, rs[..t + 1]).Some?
    ensures DrainBy(pick, d, rs[..t + 1]).Some? ==> KeptAside(Drain(c, rs[..t + 1]).value, DrainBy(pick, d, rs[..t + 1]).value, a, def)
  {
    var ct, dt := Drain(c, rs[..t]).value, DrainBy(pick, d, rs[..t]);
    RecordAgrees(mt, ct, rs[t]);
    DrainSnoc(c, rs, t);
    DrainByNext(pick, d, rs, t);
    if dt.Some? && DrainRecordBy(pick, dt.value, rs[t]).Some? { AvoidedStep(mt, ct, dt.value, rs[t], a, def); }
  }

  /** The retry still registers the dropped table, beside every table of its name. */
  ghost predicate KeptAside(c: Companion, d: Companion, a: nat, def: TableDef) {
    a in d.tables && d.tables[a] == def && a in d.db.reg && Shadows(c, d, def.name)
  }

  lemma AvoidedStep(m: Memory, c: Companion, d: Companion, r: Record, a: nat, def: TableDef)
    requires Mirrored(m, c) && Follows(m, r) && a !in c.tables && !(r.CreateTable? && r.id == a)
    requires KeptAside(c, d, a, def) && DrainRecord(c, r).Some? && DrainRecordBy(Avoid(a), d, r).Some?
    ensures KeptAside(DrainRecord(c, r).value, DrainRecordBy(Avoid(a), d, r).value, a, def)
  {
    AvoidValid(a);
    if r == DropTable(def.name) {
      AvoidedDrop(m, c, d, a, def);
    } else {
      EntryStays(d, r, a, def, Avoid(a));
      ShadowStep(m, c, d, r, def.name, Avoid(a));
    }
  }

  /** A DROP of the name takes another entry. */
  lemma AvoidedDrop(m: Memory, c: Companion, d: Companion, a: nat, def: TableDef)
    requires Mirrored(m, c) && def.name in m.byName && a !in c.tables
    requires a in d.tables && d.tables[a] == def && a in d.db.reg && Shadows(c, d, def.name)
    ensures var d' := UnregisterBy(Avoid(a), d, def.name);
            a in d'.tables && d'.tables[a] == def && a in d'.db.reg && Shadows(Unregister(c, def.name), d', def.name)
  {
    var gone := CleanDrop(m, c, def.name);
    assert Named(d.tables, def.name, gone) && gone != a;
    assert Named(d.tables, def.name, a);
    forall id ensures !Named(Unregister(c, def.name).tables, def.name, id) {}
  }

  /** A DROP of a name the attempt left registered again: the retry can meet the new entry
      first, and then keeps the dropped one for good. */
  lemma DroppedAndRecreated(m: Memory, c: Companion, rs: seq<Record>, k: nat, i: nat) returns (pick: Pick)
    requires Mirrored(m, c) && LogFollows(m, rs) && FreshIds(c.tables, rs) && i < k <= |rs|
    requires rs[i].DropTable? && NoDropOf(rs, i, rs[i].name) && Drain(c, rs[..k]).Some?
    requires !HasName(c.tables, rs[i].name) && HasName(Drain(c, rs[..k]).value.tables, rs[i].name)
    ensures ValidPick(pick) && DrainBy(pick, RolledBack(c, rs[..k]), rs) != Drain(c, rs)
  {
    var name, d := rs[i].name, RolledBack(c, rs[..k]);
    var again :| Named(d.tables, name, again);
    var a := FirstDropped(m, c, rs, k, i, again);
    pick := Avoid(a);
    AvoidValid(a);
    ExtrasAreCreated(m, c, rs, k, again);
    assert !Named(c.tables, name, again);
    CreatedOnce(c.tables, rs, k, again, d.tables[again]);
    UntilFirstDrop(m, c, d, rs, i, again, d.tables[again], pick);
    CleanAt(m, c, rs, i);
    DrainSnoc(c, rs, i);
    DrainByNext(pick, d, rs, i);
    var ci := Drain(c, rs[..i]).value;
    if DrainBy(pick, d, rs[..i]).Some? {
      var di := DrainBy(pick, d, rs[..i]).value;
      FirstDropMisses(Replay(m, rs[..i]).value, ci, di, a, again, name);
    }
    if DrainBy(pick, d, rs[..i + 1]).Some? {
      AvoidedStays(m, c, d, rs, i + 1, |rs|, a, DrainBy(pick, d, rs[..i + 1]).value.tables[a], pick);
    }
    NoneStaysNone(pick, d, rs, i + 1, |rs|);
    GoneStaysGone(m, c, rs, a, i + 1, |rs|);
    CleanAt(m, c, rs, |rs|);
    assert rs[..|rs|] == rs;
  }

  /** The first DROP of the name takes the newer entry. */
  lemma FirstDropMisses(m: Memory, c: Companion, d: Companion, a: nat, again: nat, name: Bytes)
    requires Mirrored(m, c) && name in m.byName && Named(c.tables, name, a) && again != a
    requires Named(d.tables, name, again) && Shadows(c, d, name)
    ensures var d' := UnregisterBy(Avoid(a), d, name);
            a in d'.tables && d'.tables[a].name == name && a in d'.db.reg && Shadows(Unregister(c, name), d', name)
  {
    var gone := CleanDrop(m, c, name);
    forall id ensures !Named(Unregister(c, name).tables, name, id) {}
  }

  /** The table the first DROP takes in the clean run: another than the one left. */
  lemma FirstDropped(m: Memory, c: Companion, rs: seq<Record>, k: nat, i: nat, again: nat) returns (a: nat)
    requires Mirrored(m, c) && LogFollows(m, rs) && FreshIds(c.tables, rs) && i < k <= |rs|
    requires rs[i].DropTable? && Drain(c, rs[..k]).Some? && Named(Drain(c, rs[..k]).value.tables, rs[i].name, again)
    requires !HasName(c.tables, rs[i].name)
    ensures Drain(c, rs[..i]).Some? && Named(Drain(c, rs[..i]).value.tables, rs[i].name, a) && a != again
    ensures Drain(c, rs[..i + 1]).Some? && a !in Drain(c, rs[..i + 1]).value.tables
    ensures forall j {:trigger rs[j]} :: i + 1 <= j < |rs| ==> !(rs[j].CreateTable? && rs[j].id == a)
  {
    CleanAt(m, c, rs, i);
    DrainSnoc(c, rs, i);
    var ci := Drain(c, rs[..i]).value;
    a := CleanDrop(Replay(m, rs[..i]).value, ci, rs[i].name);
    ExtrasAreCreated(m, c, rs, i, a);
    assert !Named(c.tables, rs[i].name, a);
    var at :| 0 <= at < i && rs[at] == CreateTable(a, ci.tables[a]);
    forall j | i + 1 <= j < |rs| ensures !(rs[j].CreateTable? && rs[j].id == a) { assert rs[at].CreateTable?; }
    GoneStaysGone(m, c, rs, a, i + 1, k);
  }

  /** An id created in the segment is created once, with one definition. */
  lemma CreatedOnce(tables: map<nat, TableDef>, rs: seq<Record>, k: nat, id: nat, def: TableDef)
    requires FreshIds(tables, rs) && CreatedBefore(rs, k, id, def)
    ensures forall i {:trigger rs[i]} :: 0 <= i < |rs| && rs[i].CreateTable? && rs[i].id == id ==> rs[i].def == def
  {
    var at :| 0 <= at < k && at < |rs| && rs[at] == CreateTable(id, def);
    forall i | 0 <= i < |rs| && rs[i].CreateTable? && rs[i].id == id ensures rs[i].def == def {
      assert i < at || i == at || at < i;
    }
  }

  lemma {:induction false} NoneStaysNone(pick: Pick, d: Companion, rs: seq<Record>, from: nat, t: nat)
    requires from <= t <= |rs|
    ensures DrainBy(pick, d, rs[..from]).None? ==> DrainBy(pick, d, rs[..t]).None?
  {
    if from < t {
      NoneStaysNone(pick, d, rs, from, t - 1);
      DrainByNext(pick, d, rs, t - 1);
    }
  }

  /** The first DROP of a name that is dropped at all. */
  lemma FirstDropOf(rs: seq<Record>, j: nat, name: Bytes) returns (i: nat)
    requires j < |rs| && rs[j] == DropTable(name)
    ensures i <= j && rs[i] == DropTable(name) && NoDropOf(rs, i, name)
  {
    i := 0;
    while rs[i] != DropTable(name)
      invariant i <= j && NoDropOf(rs, i, name)
      decreases j - i
    {
      i := i + 1;
    }
  }

  /** A failed attempt of `k` records, rolled back: the retried segment comes out as if the
      attempt had never been made, whichever entry of a name each lookup meets first,
      exactly when no DROP among those records names a table of the file or a table the
      attempt left registered. */
  lemma RetryCleanIffSafe(m: Memory, c: Companion, rs: seq<Record>, k: nat)
    requires Mirrored(m, c) && LogFollows(m, rs) && FreshIds(c.tables, rs) && k <= |rs|
    ensures Drain(c, rs[..k]).Some?
    ensures (forall pick | ValidPick(pick) :: DrainBy(pick, RolledBack(c, rs[..k]), rs) == Drain(c, rs)) <==> RetrySafe(c, rs, k)
  {
    CleanAt(m, c, rs, k);
    var d := RolledBack(c, rs[..k]);
    if RetrySafe(c, rs, k) {
      SafeIsLoose(m, c, rs, k);
      forall pick | ValidPick(pick) ensures DrainBy(pick, d, rs) == Drain(c, rs) { LooseDrainsClean(m, c, d, rs, pick); }
    } else {
      var j: nat :| j < k && rs[j].DropTable?
                    && (HasName(c.tables, rs[j].name) || HasName(Drain(c, rs[..k]).value.tables, rs[j].name));
      if HasName(c.tables, rs[j].name) {
        FindPickValid();
        DroppedFileTable(m, c, rs, k, j, FindPick());
      } else {
        var i := FirstDropOf(rs, j, rs[j].name);
        var pick := DroppedAndRecreated(m, c, rs, k, i);
      }
    }
  }

  /** What consecutive live statements journal; a refused one journals nothing. */
  function LiveRun(m: Memory, slots: nat, kept: set<Bytes>, reqs: seq<Request>): seq<Record>
    decreases |reqs|
  {
    if reqs == [] then []
    else
      match Live(m, slots, kept, reqs[0])
      case None => LiveRun(m, slots, kept, reqs[1..])
      case Some((m', r)) => [r] + LiveRun(m', slots + if reqs[0].MakeTable? then 1 else 0, kept, reqs[1..])
  }

  /** Created ids start at `slots` and rise. */
  ghost predicate IdsRise(rs: seq<Record>, slots: nat) {
    && (forall i {:trigger rs[i]} :: 0 <= i < |rs| && rs[i].CreateTable? ==> rs[i].id >= slots)
    && forall i, j :: 0 <= i < j < |rs| && rs[i].CreateTable? && rs[j].CreateTable? ==> rs[i].id < rs[j].id
  }

  lemma IdsRiseCons(r: Record, rs: seq<Record>, slots: nat, next: nat)
    requires slots <= next && IdsRise(rs, next) && (r.CreateTable? ==> r.id == slots < next)
    ensures IdsRise([r] + rs, slots)
  {}

  lemma {:induction false} LiveIdsRise(m: Memory, slots: nat, kept: set<Bytes>, reqs: seq<Request>)
    ensures IdsRise(LiveRun(m, slots, kept, reqs), slots)
    decreases |reqs|
  {
    if reqs != [] {
      match Live(m, slots, kept, reqs[0])
      case None => LiveIdsRise(m, slots, kept, reqs[1..]);
      case Some((m', r)) =>
        var next := slots + if reqs[0].MakeTable? then 1 else 0;
        LiveIdsRise(m', next, kept, reqs[1..]);
        IdsRiseCons(r, LiveRun(m', next, kept, reqs[1..]), slots, next);
    }
  }

  lemma {:induction false} LiveRunFollows(m: Memory, slots: nat, kept: set<Bytes>, reqs: seq<Request>)
    requires MemoryOk(m) && SlotsFree(m, slots)
    ensures LogFollows(m, LiveRun(m, slots, kept, reqs))
    decreases |reqs|
  {
    if reqs != [] {
      var made := Live(m, slots, kept, reqs[0]);
      if made.None? {
        LiveRunFollows(m, slots, kept, reqs[1..]);
      } else {
        var next := slots + if reqs[0].MakeTable? then 1 else 0;
        LiveReplays(m, slots, kept, reqs[0]);
        LiveTakesSlot(m, slots, kept, reqs[0]);
        LiveRunFollows(made.value.0, next, kept, reqs[1..]);
        assert ([made.value.1] + LiveRun(made.value.0, next, kept, reqs[1..]))[1..] == LiveRun(made.value.0, next, kept, reqs[1..]);
      }
    }
  }

  /** Whatever one process journals hands out fresh ids, so the condition is exact for
      every segment it can seal. */
  lemma LiveRetryCleanIffSafe(m: Memory, c: Companion, slots: nat, kept: set<Bytes>, reqs: seq<Request>, k: nat)
    requires Mirrored(m, c) && SlotsFree(m, slots) && k <= |LiveRun(m, slots, kept, reqs)|
    ensures var rs := LiveRun(m, slots, kept, reqs);
            && Drain(c, rs[..k]).Some?
            && ((forall pick | ValidPick(pick) :: DrainBy(pick, RolledBack(c, rs[..k]), rs) == Drain(c, rs)) <==> RetrySafe(c, rs, k))
  {
    LiveIdsRise(m, slots, kept, reqs);
    LiveRunFollows(m, slots, kept, reqs);
    RetryCleanIffSafe(m, c, LiveRun(m, slots, kept, reqs), k);
  }

  /** The smallest case: a segment holding one DROP TABLE. Attempted, rolled back and
      retried, it commits a file the next Open refuses, for every table it can name. */
  lemma RetriedDropBlocksOpen(m: Memory, c: Companion, name: Bytes)
    requires Mirrored(m, c) && name in m.byName
    ensures var rs := [DropTable(name)];
            && LogFollows(m, rs) && Drain(c, rs).Some? && Recover(Drain(c, rs).value.db) == Some(WithoutTable(m, name))
            && Drain(RolledBack(c, rs), rs).Some? && Recover(Drain(RolledBack(c, rs), rs).value.db) == None
  {
    var rs, id := [DropTable(name)], m.byName[name];
    assert rs[1..] == [];
    DropAgrees(m, c, name);
    MirrorReloads(WithoutTable(m, name), Unregister(c, name));
    FoundByName(m, c, name);
    assert NameListed(m, name) && TableMirrored(m, c, id);
    var d := RolledBack(c, rs);
    assert d.tables == c.tables - {id};
    forall other ensures !Named(d.tables, name, other) {
      assert TableMirrored(m, c, other) && TableListed(m, other);
    }
    assert FindByName(d.tables, name).None?;
    assert id in Unregister(d, name).db.reg && c.db.reg[id].name == name;
  }
}
