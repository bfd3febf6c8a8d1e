/** The live writes of a table: validate, reserve, journal, apply, and undo everything
    when the journal fails (store_write.go, budget.go, exec_write.go). */
module Tables {
  import opened Wrappers
  import opened Sequences
  import opened Values
  import opened Codec
  import opened Records
  import opened Interpreters
  import opened LiveLog
  import opened Shards
  import opened TableSpec
  import opened TableScans

  // ---- admission ----

  /** `byteBudget`: `max == 0` means unlimited. */
  class Budget {
    const max: nat
    var total: int

    constructor (max: nat)
      ensures this.max == max && total == 0
    {
      this.max, total := max, 0;
    }

    /** Adds first, and backs out what overshot. */
    method Reserve(cost: int) returns (ok: bool)
      modifies this
      ensures ok == (max == 0 || old(total) + cost <= max)
      ensures total == if ok && max != 0 then old(total) + cost else old(total)
    {
      if max == 0 { return true; }
      total := total + cost;
      if total > max {
        total := total - cost;
        return false;
      }
      return true;
    }

    method Release(cost: int)
      modifies this
      ensures total == if max != 0 then old(total) - cost else old(total)
    {
      if max != 0 { total := total - cost; }
    }

    method Adjust(delta: int)
      modifies this
      ensures total == if max != 0 then old(total) + delta else old(total)
    {
      if max != 0 && delta != 0 { total := total + delta; }
    }
  }

  /** The log as a writer sees it: a record is appended whole, or the write fails.
      A memory-only store has no log. */
  class Journal {
    const live: bool
    var log: seq<Record>

    constructor (live: bool)
      ensures this.live == live && log == []
    {
      this.live, log := live, [];
    }

    method Write(r: Record, works: bool) returns (ok: bool)
      modifies this
      ensures ok == (!live || works)
      ensures log == if live && works then old(log) + [r] else old(log)
    {
      if !live { return true; }
      if works { log := log + [r]; }
      return works;
    }
  }

  datatype Outcome = Done | Refused | NoRow | Duplicate | NoCapacity | BadSet | WalFailed

  /** Every SET value computed for a stored row fits its column. */
  ghost predicate ComputeFits(def: TableDef, ords: seq<nat>, compute: Row -> Option<Row>) {
    forall r :: RowOf(def, r) && compute(r).Some? ==> SetFitsTable(def, ords, compute(r).value)
  }

  /** What an update makes of one candidate row. */
  datatype Considered = Skip | Bad | Next(row: Row)

  class Table {
    const lay: Layout
    const id: nat
    const budget: Budget
    const journal: Journal
    var shards: seq<Shard>
    /** `readDirtyCount`: the read marks of all shards. */
    var readDirty: int

    ghost predicate Valid()
      reads this
    {
      ShardsOk(lay, shards) && ValidDef(lay.def)
    }

    function Rows(): map<Uuid, Row>
      reads this
      requires |shards| > 0
    {
      Contents(lay, shards)
    }

    /** The marks that reads and the merge go by. */
    function DirtyMarks(): Marks
      reads this
    {
      MarksOf(shards, readDirty)
    }

    function Row_(pk: Uuid): Option<Row>
      reads this
      requires |shards| > 0
    {
      Lookup(lay, shards, pk)
    }

    constructor (lay: Layout, id: nat, n: nat, budget: Budget, journal: Journal)
      requires n > 0 && ValidDef(lay.def)
      ensures Valid() && Rows() == map[] && DirtyMarks() == Marks(seq(n, _ => []), seq(n, _ => []), 0)
      ensures this.lay == lay && this.id == id && this.budget == budget && this.journal == journal
    {
      this.lay, this.id, this.budget, this.journal := lay, id, budget, journal;
      shards, readDirty := seq(n, i => EMPTY), 0;
      new;
      forall i | 0 <= i < |shards| ensures ShardFits(lay, shards, i) {
        forall pk ensures KeyFound(lay.def, shards[i], pk) {}
        forall k ensures SlotFound(lay.def, shards[i], k) {}
      }
      forall pk ensures pk !in Rows() { ContentsAt(lay, shards, pk); }
    }

    /** Nothing at all happened. */
    twostate predicate Untouched()
      reads this, budget, journal
    {
      shards == old(shards) && readDirty == old(readDirty) && budget.total == old(budget.total) && journal.log == old(journal.log)
    }

    /** The budget moved exactly as the table's tallies did. */
    twostate predicate Balanced()
      reads this, budget
    {
      budget.total - old(budget.total) == if budget.max != 0 then BytesOf(shards) - BytesOf(old(shards)) else 0
    }

    /** The effect is the live statement's, its record was journaled before it, and its mark
        is where reads and the merge will find it. */
    twostate predicate Took(act: Act)
      requires old(|shards|) > 0 && |shards| > 0 && ValidDef(lay.def)
      reads this, journal
    {
      var did := LiveAct(MemTable(lay.def, old(Rows())), act);
      && did.Some? && did.value.0.rows == Rows() && DirtyMarks() == MarkAct(lay, old(DirtyMarks()), act)
      && journal.log == old(journal.log) + if journal.live then [Single(Mutation(id, did.value.1))] else []
    }

    /** `insertJournaled`. */
    method InsertJournaled(row: Row, works: bool) returns (out: Outcome)
      requires Valid() && RowOf(lay.def, row)
      modifies this`shards, this`readDirty, budget, journal
      ensures Valid() && Balanced()
      ensures out in {Done, Duplicate, NoCapacity, WalFailed}
      ensures out == Duplicate <==> RowPk(lay.def, row) in old(Rows())
      ensures out == NoCapacity <==>
                out != Duplicate && budget.max != 0 && old(budget.total) + RowCost(row, lay.nIdx) > budget.max
      ensures out == WalFailed <==> out !in {Duplicate, NoCapacity} && journal.live && !works
      ensures if out == Done then Took(PutRow(row)) else Untouched()
      ensures budget.max != 0 && old(budget.total) <= budget.max ==> budget.total <= budget.max
    {
      var pk := RowPk(lay.def, row);
      ContentsAt(lay, shards, pk);
      var i := ShardIdx(lay, |shards|, pk);
      assert ShardFits(lay, shards, i) && KeyFound(lay.def, shards[i], pk);
      if pk in shards[i].pk { return Duplicate; }
      var cost := RowCost(row, lay.nIdx);
      var ok := budget.Reserve(cost);
      if !ok { return NoCapacity; }
      ok := journal.Write(Single(Mutation(id, Insert(row))), works);
      if !ok {
        budget.Release(cost);
        return WalFailed;
      }
      WithRowInserts(lay, shards, row);
      ReadMarked(lay, shards, readDirty, pk, AddRow(shards[i], pk, row, cost), true);
      shards := shards[i := Marked(lay, AddRow(shards[i], pk, row, cost), pk, true)];
      readDirty := readDirty + MarkCount(lay, true);
      return Done;
    }

    /** `updateByPKJournaled`: the row is changed in place before it is journaled, and
        put back cell by cell when the journal fails. */
    method UpdateByPk(pk: Uuid, ords: seq<nat>, compute: Row -> Option<Row>, works: bool) returns (out: Outcome)
      requires Valid() && ords != [] && (journal.live ==> SizedOnce(lay.def, ords)) && ComputeFits(lay.def, ords, compute)
      modifies this`shards, this`readDirty, budget, journal
      ensures Valid() && Balanced()
      ensures out in {Done, NoRow, BadSet, WalFailed}
      ensures out == NoRow <==> pk !in old(Rows())
      ensures out == BadSet <==> pk in old(Rows()) && compute(old(Rows())[pk]) == None
      ensures out == WalFailed <==> pk in old(Rows()) && compute(old(Rows())[pk]).Some? && journal.live && !works
      ensures if out == Done then Took(SetRow(pk, ords, compute(old(Rows())[pk]).value)) else Untouched()
    {
      ContentsAt(lay, shards, pk);
      if Row_(pk).None? { return NoRow; }
      var r := Row_(pk).value;
      ContentsTyped(lay, shards);
      var computed := compute(r);
      if computed.None? { return BadSet; }
      var vals := computed.value;
      JournalReplays(lay.def, r, ords, vals);
      var touch := Touches(lay, ords);
      if !journal.live {
        var nr, delta := AssignInPlace(r, ords, vals);
        RunningDeltaIsExact(r, ords, vals, lay.nIdx);
        Overwrite(pk, nr, delta, touch);
        return Done;
      }
      out := UpdateLogged(pk, r, ords, vals, touch, works);
    }

    /** The path that journals first. */
    method UpdateLogged(pk: Uuid, r: Row, ords: seq<nat>, vals: Row, touch: bool, works: bool) returns (out: Outcome)
      requires Valid() && ords != [] && SizedOnce(lay.def, ords) && journal.live && pk in Rows() && Rows()[pk] == r
      requires RowOf(lay.def, r) && RowPk(lay.def, r) == pk && SetFitsTable(lay.def, ords, vals) && touch == Touches(lay, ords)
      modifies this`shards, this`readDirty, budget, journal
      ensures Valid() && Balanced()
      ensures out == if works then Done else WalFailed
      ensures if out == Done then Took(SetRow(pk, ords, vals)) else Untouched()
    {
      JournalReplays(lay.def, r, ords, vals);
      var nr, saved := AssignSaving(r, ords, vals);
      var ok := journal.Write(Single(Mutation(id, Update(Id(pk), JournalSets(nr, ords)))), works);
      if !ok {
        var back := Revert(r, nr, ords, vals, saved);
        assert back == r;
        return WalFailed;
      }
      var delta := SavedTally(lay.def, r, ords, vals, saved, lay.nIdx);
      Overwrite(pk, nr, delta, touch);
      return Done;
    }

    /** `addBytesLocked`, the row's new image and its mark. */
    method Overwrite(pk: Uuid, row: Row, delta: int, touch: bool)
      requires Valid() && pk in Rows() && RowOf(lay.def, row) && RowPk(lay.def, row) == pk
      requires delta == RowCost(row, lay.nIdx) - RowCost(Rows()[pk], lay.nIdx)
      modifies this`shards, this`readDirty, budget
      ensures Valid() && Balanced() && Rows() == old(Rows())[pk := row]
      ensures DirtyMarks() == if touch then WithRead(lay, old(DirtyMarks()), pk) else old(DirtyMarks())
    {
      ContentsAt(lay, shards, pk);
      OverwriteUpdates(lay, shards, pk, row, touch);
      var i := ShardIdx(lay, |shards|, pk);
      budget.Adjust(delta);
      ReadMarked(lay, shards, readDirty, pk, PutAt(shards[i], shards[i].pk[pk], row, delta), touch);
      shards := shards[i := Marked(lay, PutAt(shards[i], shards[i].pk[pk], row, delta), pk, touch)];
      readDirty := readDirty + MarkCount(lay, touch);
    }

    /** `deleteByPKJournaled`. */
    method DeleteByPk(pk: Uuid, works: bool) returns (out: Outcome)
      requires Valid()
      modifies this`shards, this`readDirty, budget, journal
      ensures Valid() && Balanced()
      ensures out in {Done, NoRow, WalFailed}
      ensures out == NoRow <==> pk !in old(Rows())
      ensures out == WalFailed <==> pk in old(Rows()) && journal.live && !works
      ensures if out == Done then Took(DropRow(pk)) else Untouched()
    {
      ContentsAt(lay, shards, pk);
      if Row_(pk).None? { return NoRow; }
      var ok := journal.Write(Single(Mutation(id, Delete(Id(pk)))), works);
      if !ok { return WalFailed; }
      Tombstone(pk);
      return Done;
    }

    /** `tombstoneLocked`, the key's removal and the delete mark. */
    method Tombstone(pk: Uuid)
      requires Valid() && pk in Rows()
      modifies this`shards, this`readDirty, budget
      ensures Valid() && Balanced() && Rows() == old(Rows()) - {pk} && DirtyMarks() == WithDel(lay, old(DirtyMarks()), pk)
    {
      ContentsAt(lay, shards, pk);
      WithoutRowRemoves(lay, shards, pk);
      var i := ShardIdx(lay, |shards|, pk);
      var cost := RowCost(Row_(pk).value, lay.nIdx);
      DelMarked(lay, shards, readDirty, pk, RemoveAt(shards[i], shards[i].pk[pk], pk, cost));
      shards := shards[i := MarkedDel(lay, RemoveAt(shards[i], shards[i].pk[pk], pk, cost), pk)];
      budget.Release(cost);
    }

    // ---- statements over many rows ----

    /** The group's effect is the atomic live group's, journaled as one envelope, each row
        marked. */
    twostate predicate TookGroup(acts: seq<Act>)
      requires old(|shards|) > 0 && |shards| > 0 && ValidDef(lay.def)
      reads this, journal
    {
      var did := LiveGroup(MemTable(lay.def, old(Rows())), acts);
      && did.Some? && did.value.0.rows == Rows() && DirtyMarks() == MarkActs(lay, old(DirtyMarks()), acts)
      && journal.log == old(journal.log) + if journal.live && acts != [] then [Txn(OnTable(id, did.value.1))] else []
    }

    /** The table and the outcome after an UPDATE of every matching row: all of them have
        their SET values, or one of those cannot be computed, or the journal refused, and
        then nothing happened. */
    twostate predicate UpdatedAll(match_: Row -> bool, ords: seq<nat>, compute: Row -> Option<Row>, works: bool, out: Outcome, n: nat)
      requires old(|shards|) > 0 && |shards| > 0
      reads this, budget, journal
    {
      && out in {Done, BadSet, WalFailed}
      && (out == BadSet <==> old(SomeUnset(match_, compute)))
      && (out == WalFailed <==> out != BadSet && journal.live && !works && Matching(old(Rows()), match_) != {})
      && (out == Done ==> n == |Matching(old(Rows()), match_)| && Rows() == UpdatedRows(old(Rows()), match_, ords, compute))
      && (out != Done ==> n == 0 && Untouched())
    }

    /** The same for a DELETE. */
    twostate predicate DeletedAll(match_: Row -> bool, works: bool, out: Outcome, n: nat)
      requires old(|shards|) > 0 && |shards| > 0
      reads this, budget, journal
    {
      && out in {Done, WalFailed}
      && (out == WalFailed <==> journal.live && !works && Matching(old(Rows()), match_) != {})
      && (out == Done ==> n == |Matching(old(Rows()), match_)| && Rows() == UnmatchedRows(old(Rows()), match_))
      && (out != Done ==> n == 0 && Untouched())
    }

    ghost predicate SomeUnset(match_: Row -> bool, compute: Row -> Option<Row>)
      requires |shards| > 0
      reads this
    {
      exists pk :: Unset(pk, match_, compute)
    }

    /** Pass 1 over one arena: match, compute, collect; nothing is applied yet. */
    method CollectShard(i: nat, match_: Row -> bool, ords: seq<nat>, compute: Row -> Option<Row>) returns (pks: seq<Uuid>, news: seq<Row>, failed: bool)
      requires Valid() && i < |shards| && ComputeFits(lay.def, ords, compute)
      ensures failed ==> SomeUnset(match_, compute)
      ensures !failed ==> pks == ShardKeys(lay.def, shards[i].rows, match_) && Collected(pks, news, ords, compute)
    {
      pks, news, failed := [], [], false;
      var rows := shards[i].rows;
      assert ShardFits(lay, shards, i);
      for j := 0 to |rows|
        invariant pks == ShardKeys(lay.def, rows[..j], match_) && Collected(pks, news, ords, compute)
      {
        assert rows[..j + 1][..j] == rows[..j] && rows[..j + 1][j] == rows[j];
        assert SlotFound(lay.def, shards[i], j);
        if rows[j].None? || !match_(rows[j].value) { continue; }
        var pk, r := RowPk(lay.def, rows[j].value), rows[j].value;
        assert RowAt(shards[i], pk) == Some(r);
        ContentsAt(lay, shards, pk);
        var vals := compute(r);
        if vals.None? {
          assert Unset(pk, match_, compute);
          return [], [], true;
        }
        assert Computes(Rows(), pk, ords, compute);
        CollectsNext(Rows(), pks, pk, ords, compute);
        pks, news := pks + [pk], news + [Assigned(r, ords, vals.value)];
      }
      assert rows[..|rows|] == rows;
    }

    ghost predicate Collected(pks: seq<Uuid>, news: seq<Row>, ords: seq<nat>, compute: Row -> Option<Row>)
      requires |shards| > 0
      reads this
    {
      AllCompute(Rows(), pks, ords, compute) && news == NewRows(Rows(), pks, ords, compute)
    }

    method CollectUpdates(match_: Row -> bool, ords: seq<nat>, compute: Row -> Option<Row>) returns (pks: seq<Uuid>, news: seq<Row>, failed: bool)
      requires Valid() && ComputeFits(lay.def, ords, compute)
      ensures failed ==> SomeUnset(match_, compute)
      ensures !failed ==> pks == ScanKeys(lay.def, shards, match_) && Collected(pks, news, ords, compute)
    {
      pks, news, failed := [], [], false;
      for i := 0 to |shards|
        invariant !failed && pks == ScanKeys(lay.def, shards[..i], match_) && Collected(pks, news, ords, compute)
      {
        var more, moreNews, bad := CollectShard(i, match_, ords, compute);
        if bad { return [], [], true; }
        assert shards[..i + 1][..i] == shards[..i] && shards[..i + 1][i] == shards[i];
        CollectedConcat(pks, news, more, moreNews, ords, compute);
        pks, news := pks + more, news + moreNews;
      }
      assert shards[..|shards|] == shards;
    }

    lemma CollectedConcat(a: seq<Uuid>, na: seq<Row>, b: seq<Uuid>, nb: seq<Row>, ords: seq<nat>, compute: Row -> Option<Row>)
      requires |shards| > 0 && Collected(a, na, ords, compute) && Collected(b, nb, ords, compute)
      ensures Collected(a + b, na + nb, ords, compute)
    {
      forall k | 0 <= k < |a + b| ensures Computes(Rows(), (a + b)[k], ords, compute) {
        assert k < |a| ==> (a + b)[k] == a[k];
        assert k >= |a| ==> (a + b)[k] == b[k - |a|];
      }
    }

    /** Pass 2: every collected row takes its new image, tallies and budget with it. */
    method ApplyUpdates(pks: seq<Uuid>, news: seq<Row>, touch: bool, ghost acts: seq<Act>)
      requires Valid() && |pks| == |news| == |acts| && Distinct(pks) && forall k :: 0 <= k < |acts| ==> SetsOf(lay, pks[k], touch, acts[k])
      requires forall k :: 0 <= k < |pks| ==> Replaceable(pks[k], news[k])
      modifies this`shards, this`readDirty, budget
      ensures Valid() && Balanced() && Rows() == Replaced(old(Rows()), pks, news)
      ensures DirtyMarks() == MarkActs(lay, old(DirtyMarks()), acts)
    {
      ghost var before, marks := Rows(), DirtyMarks();
      assert acts[..0] == [];
      for k := 0 to |pks|
        invariant Valid() && Balanced() && Rows() == Replaced(before, pks[..k], news[..k])
        invariant DirtyMarks() == MarkActs(lay, marks, acts[..k])
      {
        ReplacedStep(before, pks, news, k + 1);
        MarkNext(lay, marks, pks, touch, acts, k);
        ContentsAt(lay, shards, pks[k]);
        Overwrite(pks[k], news[k], RowCost(news[k], lay.nIdx) - RowCost(Row_(pks[k]).value, lay.nIdx), touch);
      }
      assert pks[..|pks|] == pks && news[..|news|] == news && acts[..|acts|] == acts;
    }

    ghost predicate Replaceable(pk: Uuid, row: Row)
      requires Valid()
      reads this
    {
      pk in Rows() && RowOf(lay.def, row) && RowPk(lay.def, row) == pk
    }

    /** Journals the collected images as one envelope, then applies them. */
    method CommitUpdates(pks: seq<Uuid>, news: seq<Row>, ords: seq<nat>, ghost compute: Row -> Option<Row>, works: bool) returns (ok: bool)
      requires Valid() && UpdatePlan(MemTable(lay.def, Rows()), pks, ords, compute) && news == NewRows(Rows(), pks, ords, compute)
      modifies this`shards, this`readDirty, budget, journal
      ensures Valid() && Balanced()
      ensures ok <==> !(journal.live && !works && pks != [])
      ensures ok ==> TookGroup(UpdateActs(old(Rows()), pks, ords, compute)) && Rows() == Replaced(old(Rows()), pks, news)
      ensures !ok ==> Untouched()
    {
      PlanIsGroup(MemTable(lay.def, Rows()), pks, ords, compute);
      if pks != [] {
        var written := journal.Write(Txn(OnTable(id, UpdateOps(pks, news, ords))), works);
        if !written { return false; }
      }
      ApplyUpdates(pks, news, Touches(lay, ords), UpdateActs(Rows(), pks, ords, compute));
      return true;
    }

    /** `updateWhereAll`: all matching rows or none, as one envelope. */
    method UpdateWhereAll(match_: Row -> bool, ords: seq<nat>, compute: Row -> Option<Row>, works: bool) returns (out: Outcome, n: nat)
      requires Valid() && ords != [] && ComputeFits(lay.def, ords, compute)
      modifies this`shards, this`readDirty, budget, journal
      ensures Valid() && Balanced()
      ensures UpdatedAll(match_, ords, compute, works, out, n)
      ensures out == Done ==>
                var keys := ScanKeys(lay.def, old(shards), match_);
                && Selects(lay.def, old(Rows()), match_, keys) && AllCompute(old(Rows()), keys, ords, compute)
                && TookGroup(UpdateActs(old(Rows()), keys, ords, compute))
    {
      var pks, news, failed := CollectUpdates(match_, ords, compute);
      ScanKeysAre(lay, shards, match_);
      if failed { return BadSet, 0; }
      PlanFits(pks, ords, compute);
      CollectedAll(match_, ords, compute, pks);
      var ok := CommitUpdates(pks, news, ords, compute, works);
      if !ok { return WalFailed, 0; }
      return Done, |pks|;
    }

    /** What pass 1 collected, when it collected everything. */
    lemma CollectedAll(match_: Row -> bool, ords: seq<nat>, compute: Row -> Option<Row>, pks: seq<Uuid>)
      requires Valid() && Selects(lay.def, Rows(), match_, pks) && Distinct(pks) && AllCompute(Rows(), pks, ords, compute)
      ensures !SomeUnset(match_, compute)
      ensures |pks| == |Matching(Rows(), match_)| && (pks == [] <==> Matching(Rows(), match_) == {})
      ensures Replaced(Rows(), pks, NewRows(Rows(), pks, ords, compute)) == UpdatedRows(Rows(), match_, ords, compute)
    {
      SelectedCount(lay.def, Rows(), match_, pks);
      SelectedReplaced(lay.def, Rows(), match_, pks, ords, compute);
      forall pk | pk in Rows() && match_(Rows()[pk]) ensures compute(Rows()[pk]).Some? {
        var k :| 0 <= k < |pks| && pks[k] == pk;
        assert Computes(Rows(), pks[k], ords, compute);
      }
    }

    lemma PlanFits(pks: seq<Uuid>, ords: seq<nat>, compute: Row -> Option<Row>)
      requires Valid() && ords != [] && ComputeFits(lay.def, ords, compute) && Distinct(pks) && AllCompute(Rows(), pks, ords, compute)
      ensures UpdatePlan(MemTable(lay.def, Rows()), pks, ords, compute)
    {
      ContentsTyped(lay, shards);
      forall k | 0 <= k < |pks| ensures SetFitsTable(lay.def, ords, compute(Rows()[pks[k]]).value) {
        assert Computes(Rows(), pks[k], ords, compute);
      }
    }

    /** Pass 1 over a candidate list. */
    method ResolveUpdates(cands: seq<Uuid>, match_: Row -> bool, ords: seq<nat>, compute: Row -> Option<Row>) returns (pks: seq<Uuid>, news: seq<Row>, failed: bool)
      requires Valid() && ComputeFits(lay.def, ords, compute)
      ensures failed <==> exists k :: 0 <= k < |cands| && Unset(cands[k], match_, compute)
      ensures !failed ==> pks == Hits(Rows(), cands, match_) && Collected(pks, news, ords, compute)
    {
      pks, news, failed := [], [], false;
      ghost var rows := Rows();
      for k := 0 to |cands|
        invariant !failed && Considers(rows, cands, k, pks, news, match_, ords, compute)
      {
        ConsidersNext(rows, cands, k, pks, news, match_, ords, compute);
        var c := Consider(cands[k], match_, ords, compute);
        if c.Bad? { return [], [], true; }
        if c.Next? { pks, news := pks + [cands[k]], news + [c.row]; }
      }
      assert cands[..|cands|] == cands;
      forall k | 0 <= k < |cands| ensures !Unset(cands[k], match_, compute) { assert !NoImage(rows, cands[k], match_, compute); }
    }

    /** One candidate: its live row, whether it matches, and its new image. */
    method Consider(pk: Uuid, match_: Row -> bool, ords: seq<nat>, compute: Row -> Option<Row>) returns (c: Considered)
      requires Valid() && ComputeFits(lay.def, ords, compute)
      ensures c.Skip? <==> !(pk in Rows() && match_(Rows()[pk]))
      ensures c.Bad? <==> Unset(pk, match_, compute)
      ensures c.Next? ==> Computes(Rows(), pk, ords, compute) && c.row == NewRow(Rows(), pk, ords, compute)
    {
      ContentsAt(lay, shards, pk);
      ContentsTyped(lay, shards);
      var found := Row_(pk);
      if found.None? || !match_(found.value) { return Skip; }
      var vals := compute(found.value);
      if vals.None? { return Bad; }
      assert Computes(Rows(), pk, ords, compute);
      return Next(Assigned(found.value, ords, vals.value));
    }

    /** A matching row whose SET values cannot be computed. */
    ghost predicate Unset(pk: Uuid, match_: Row -> bool, compute: Row -> Option<Row>)
      requires |shards| > 0
      reads this
    {
      NoImage(Rows(), pk, match_, compute)
    }

    method ResolveKeys(cands: seq<Uuid>, match_: Row -> bool) returns (pks: seq<Uuid>)
      requires Valid()
      ensures pks == Hits(Rows(), cands, match_)
    {
      pks := [];
      for k := 0 to |cands|
        invariant pks == Hits(Rows(), cands[..k], match_)
      {
        assert cands[..k + 1][..k] == cands[..k] && cands[..k + 1][k] == cands[k];
        ContentsAt(lay, shards, cands[k]);
        var found := Row_(cands[k]);
        if found.None? || !match_(found.value) { continue; }
        pks := pks + [cands[k]];
      }
      assert cands[..|cands|] == cands;
    }

    /** `updateByCandidates`: the same over a candidate list, each re-checked against the
        full WHERE; a candidate gone or no longer matching is skipped. */
    method UpdateByCandidates(cands: seq<Uuid>, match_: Row -> bool, ords: seq<nat>, compute: Row -> Option<Row>, works: bool) returns (out: Outcome, n: nat)
      requires Valid() && ords != [] && ComputeFits(lay.def, ords, compute) && Distinct(cands)
      modifies this`shards, this`readDirty, budget, journal
      ensures Valid() && Balanced()
      ensures out in {Done, BadSet, WalFailed}
      ensures out == Done ==>
                var keys := Hits(old(Rows()), cands, match_);
                n == |keys| && AllCompute(old(Rows()), keys, ords, compute) && TookGroup(UpdateActs(old(Rows()), keys, ords, compute))
      ensures out == BadSet <==> exists k :: 0 <= k < |cands| && old(Unset(cands[k], match_, compute))
      ensures out != Done ==> n == 0 && Untouched()
      ensures Covers(old(Rows()), cands, match_) ==> UpdatedAll(match_, ords, compute, works, out, n)
    {
      var pks, news, failed := ResolveUpdates(cands, match_, ords, compute);
      if failed { return BadSet, 0; }
      HitsDistinct(Rows(), cands, match_);
      PlanFits(pks, ords, compute);
      if Covers(Rows(), cands, match_) {
        CoveringCandidatesAreScan(lay, shards, cands, match_);
        CollectedAll(match_, ords, compute, pks);
      }
      var ok := CommitUpdates(pks, news, ords, compute, works);
      if !ok { return WalFailed, 0; }
      return Done, |pks|;
    }

    /** Journals the collected deletes as one envelope, then tombstones them. */
    method CommitDeletes(pks: seq<Uuid>, works: bool) returns (ok: bool)
      requires Valid() && Distinct(pks) && forall k :: 0 <= k < |pks| ==> pks[k] in Rows()
      modifies this`shards, this`readDirty, budget, journal
      ensures Valid() && Balanced()
      ensures ok <==> !(journal.live && !works && pks != [])
      ensures ok ==> TookGroup(DeleteActs(pks)) && Rows() == old(Rows()) - Members(pks)
      ensures !ok ==> Untouched()
    {
      ghost var before := Rows();
      ContentsTyped(lay, shards);
      DeletesAreGroup(MemTable(lay.def, before), pks, |pks|);
      assert DeleteActs(pks)[..|pks|] == DeleteActs(pks) && DeleteOps(pks)[..|pks|] == DeleteOps(pks) && pks[..|pks|] == pks;
      if pks != [] {
        var written := journal.Write(Txn(OnTable(id, DeleteOps(pks))), works);
        if !written { return false; }
      }
      TombstoneAll(pks);
      return true;
    }

    method TombstoneAll(pks: seq<Uuid>)
      requires Valid() && Distinct(pks) && forall k :: 0 <= k < |pks| ==> pks[k] in Rows()
      modifies this`shards, this`readDirty, budget
      ensures Valid() && Balanced() && Rows() == old(Rows()) - Members(pks)
      ensures DirtyMarks() == MarkActs(lay, old(DirtyMarks()), DeleteActs(pks))
    {
      ghost var before, marks := Rows(), DirtyMarks();
      for k := 0 to |pks|
        invariant Valid() && Balanced() && Rows() == before - Members(pks[..k])
        invariant DirtyMarks() == MarkActs(lay, marks, DeleteActs(pks[..k]))
      {
        MembersStep(before, pks, k);
        assert DeleteActs(pks[..k + 1]) == DeleteActs(pks[..k]) + [DropRow(pks[k])];
        MarkActsSnoc(lay, marks, DeleteActs(pks[..k]), DropRow(pks[k]));
        Tombstone(pks[k]);
      }
      assert pks[..|pks|] == pks;
    }

    /** `deleteWhereAll`. */
    method DeleteWhereAll(match_: Row -> bool, works: bool) returns (out: Outcome, n: nat)
      requires Valid()
      modifies this`shards, this`readDirty, budget, journal
      ensures Valid() && Balanced()
      ensures DeletedAll(match_, works, out, n)
      ensures out == Done ==> Selects(lay.def, old(Rows()), match_, ScanKeys(lay.def, old(shards), match_)) && TookGroup(DeleteActs(ScanKeys(lay.def, old(shards), match_)))
    {
      ScanKeysAre(lay, shards, match_);
      var pks := CollectKeys(match_);
      SelectsSome(lay.def, Rows(), match_, pks);
      SelectedCount(lay.def, Rows(), match_, pks);
      SelectedRemoved(lay.def, Rows(), match_, pks);
      var ok := CommitDeletes(pks, works);
      if !ok { return WalFailed, 0; }
      return Done, |pks|;
    }

    /** `deleteByCandidates`. */
    method DeleteByCandidates(cands: seq<Uuid>, match_: Row -> bool, works: bool) returns (out: Outcome, n: nat)
      requires Valid() && Distinct(cands)
      modifies this`shards, this`readDirty, budget, journal
      ensures Valid() && Balanced()
      ensures out in {Done, WalFailed}
      ensures out == Done ==> n == |Hits(old(Rows()), cands, match_)| && TookGroup(DeleteActs(Hits(old(Rows()), cands, match_)))
      ensures out != Done ==> n == 0 && Untouched()
      ensures Covers(old(Rows()), cands, match_) ==> DeletedAll(match_, works, out, n)
    {
      var pks := ResolveKeys(cands, match_);
      HitsDistinct(Rows(), cands, match_);
      if Covers(Rows(), cands, match_) {
        CoveringCandidatesAreScan(lay, shards, cands, match_);
        SelectedCount(lay.def, Rows(), match_, pks);
        SelectedRemoved(lay.def, Rows(), match_, pks);
      }
      var ok := CommitDeletes(pks, works);
      if !ok { return WalFailed, 0; }
      return Done, |pks|;
    }

    /** `updateOneByCandidate`: one candidate, re-checked, and one column, in place; one
        record instead of an envelope. */
    method UpdateOneByCandidate(pk: Uuid, ord: nat, match_: Row -> bool, compute: Row -> Option<Row>, works: bool) returns (out: Outcome, n: nat)
      requires Valid() && ComputeFits(lay.def, [ord], compute)
      modifies this`shards, this`readDirty, budget, journal
      ensures Valid() && Balanced()
      ensures out == Done ==> if n == 0 then Untouched() else pk in old(Rows()) && compute(old(Rows())[pk]).Some? && Took(SetRow(pk, [ord], compute(old(Rows())[pk]).value))
      ensures Covers(old(Rows()), [pk], match_) ==> UpdatedAll(match_, [ord], compute, works, out, n)
    {
      ContentsAt(lay, shards, pk);
      LoneMatch(Rows(), pk, match_);
      var found := Row_(pk);
      if found.None? || !match_(found.value) { return Done, 0; }
      ContentsTyped(lay, shards);
      OneRowSet(MemTable(lay.def, Rows()), pk, ord, match_, compute);
      assert compute(Rows()[pk]) == None ==> Unset(pk, match_, compute);
      out := UpdateByPk(pk, [ord], compute, works);
      n := if out == Done then 1 else 0;
    }

    /** `deleteOneByCandidate`. */
    method DeleteOneByCandidate(pk: Uuid, match_: Row -> bool, works: bool) returns (out: Outcome, n: nat)
      requires Valid()
      modifies this`shards, this`readDirty, budget, journal
      ensures Valid() && Balanced()
      ensures out == Done ==> if n == 0 then Untouched() else pk in old(Rows()) && Took(DropRow(pk))
      ensures Covers(old(Rows()), [pk], match_) ==> DeletedAll(match_, works, out, n)
    {
      ghost var rows := Rows();
      ContentsAt(lay, shards, pk);
      LoneMatch(rows, pk, match_);
      var found := Row_(pk);
      if found.None? || !match_(found.value) { return Done, 0; }
      out := DeleteByPk(pk, works);
      n := if out == Done then 1 else 0;
    }

    method CollectKeys(match_: Row -> bool) returns (pks: seq<Uuid>)
      requires Valid()
      ensures pks == ScanKeys(lay.def, shards, match_)
    {
      pks := [];
      for i := 0 to |shards|
        invariant pks == ScanKeys(lay.def, shards[..i], match_)
      {
        var rows := shards[i].rows;
        assert ShardFits(lay, shards, i);
        ghost var done := pks;
        for j := 0 to |rows|
          invariant pks == done + ShardKeys(lay.def, rows[..j], match_)
        {
          assert rows[..j + 1][..j] == rows[..j] && rows[..j + 1][j] == rows[j];
          assert SlotFound(lay.def, shards[i], j);
          if rows[j].Some? && match_(rows[j].value) { pks := pks + [RowPk(lay.def, rows[j].value)]; }
        }
        assert rows[..|rows|] == rows;
        assert shards[..i + 1][..i] == shards[..i] && shards[..i + 1][i] == shards[i];
      }
      assert shards[..|shards|] == shards;
    }
  }

  ghost predicate SetsOf(lay: Layout, pk: Uuid, touch: bool, act: Act) {
    act.SetRow? && act.pk == pk && touch == Touches(lay, act.ords)
  }

  lemma MarkNext(lay: Layout, marks: Marks, pks: seq<Uuid>, touch: bool, acts: seq<Act>, k: nat)
    requires ValidDef(lay.def) && k < |pks| == |acts| && SetsOf(lay, pks[k], touch, acts[k])
    ensures MarkActs(lay, marks, acts[..k + 1])
         == if touch then WithRead(lay, MarkActs(lay, marks, acts[..k]), pks[k]) else MarkActs(lay, marks, acts[..k])
  {
    assert acts[..k + 1] == acts[..k] + [acts[k]];
    MarkActsSnoc(lay, marks, acts[..k], acts[k]);
  }

  // ---- the cell loops of an in-place update ----

  function Cells(row: Row, ords: seq<nat>): Row
    requires forall i :: 0 <= i < |ords| ==> ords[i] < |row|
  {
    seq(|ords|, i requires 0 <= i < |ords| => row[ords[i]])
  }

  /** Assigns cell by cell, summing each cell's delta as it stands. */
  method AssignInPlace(row: Row, ords: seq<nat>, vals: Row) returns (r: Row, delta: int)
    requires |ords| == |vals| && forall i :: 0 <= i < |ords| ==> ords[i] < |row|
    ensures r == Assigned(row, ords, vals) && delta == RunningDelta(row, ords, vals)
  {
    r, delta := row, 0;
    for k := 0 to |ords|
      invariant |r| == |row|
      invariant Assigned(row, ords, vals) == Assigned(r, ords[k..], vals[k..])
      invariant RunningDelta(row, ords, vals) == delta + RunningDelta(r, ords[k..], vals[k..])
    {
      assert ords[k..][1..] == ords[k + 1..] && vals[k..][1..] == vals[k + 1..];
      delta := delta + CellDelta(r[ords[k]], vals[k]);
      r := r[ords[k] := vals[k]];
    }
  }

  /** The journaled path keeps the overwritten cells. */
  method AssignSaving(row: Row, ords: seq<nat>, vals: Row) returns (r: Row, saved: Row)
    requires |ords| == |vals| && forall i :: 0 <= i < |ords| ==> ords[i] < |row|
    ensures r == Assigned(row, ords, vals) && saved == Cells(row, ords)
  {
    saved := Cells(row, ords);
    var unused;
    r, unused := AssignInPlace(row, ords, vals);
  }

  /** Putting them back restores the row. */
  method Revert(ghost row: Row, changed: Row, ords: seq<nat>, ghost vals: Row, saved: Row) returns (r: Row)
    requires |ords| == |vals| && (forall i :: 0 <= i < |ords| ==> ords[i] < |row|)
    requires changed == Assigned(row, ords, vals) && saved == Cells(row, ords)
    ensures r == row
  {
    RevertRestores(row, ords, vals);
    var unused;
    r, unused := AssignInPlace(changed, ords, saved);
  }

  /** The change of cost from the saved cells: exact because no STRING or BYTES column is
      set twice. */
  method SavedTally(ghost def: TableDef, ghost row: Row, ords: seq<nat>, vals: Row, saved: Row, ghost nIdx: nat) returns (delta: int)
    requires ValidDef(def) && RowOf(def, row) && SetFitsTable(def, ords, vals) && SizedOnce(def, ords) && saved == Cells(row, ords)
    ensures delta == RowCost(Assigned(row, ords, vals), nIdx) - RowCost(row, nIdx)
  {
    delta := SumDeltas(saved, vals);
    SavedIsDelta(row, ords, vals);
    SizedOnceIsExact(def, row, ords, vals, nIdx);
  }

  function DeltaSum(olds: Row, news: Row): int
    requires |olds| == |news|
  {
    if olds == [] then 0 else CellDelta(olds[0], news[0]) + DeltaSum(olds[1..], news[1..])
  }

  method SumDeltas(olds: Row, news: Row) returns (delta: int)
    requires |olds| == |news|
    ensures delta == DeltaSum(olds, news)
  {
    delta := 0;
    for k := 0 to |olds|
      invariant DeltaSum(olds, news) == delta + DeltaSum(olds[k..], news[k..])
    {
      assert olds[k..][1..] == olds[k + 1..] && news[k..][1..] == news[k + 1..];
      delta := delta + CellDelta(olds[k], news[k]);
    }
  }

  lemma {:induction false} SavedIsDelta(row: Row, ords: seq<nat>, vals: Row)
    requires |ords| == |vals| && forall i :: 0 <= i < |ords| ==> ords[i] < |row|
    ensures DeltaSum(Cells(row, ords), vals) == SavedDelta(row, ords, vals)
  {
    if ords != [] {
      assert Cells(row, ords)[1..] == Cells(row, ords[1..]);
      SavedIsDelta(row, ords[1..], vals[1..]);
    }
  }

  /** Writing the saved cells back restores the row, repeated columns included. */
  lemma RevertRestores(row: Row, ords: seq<nat>, vals: Row)
    requires |ords| == |vals| && forall i :: 0 <= i < |ords| ==> ords[i] < |row|
    ensures Assigned(Assigned(row, ords, vals), ords, Cells(row, ords)) == row
  {
    forall i | 0 <= i < |row| && i !in ords ensures Assigned(row, ords, vals)[i] == row[i] {
      AssignedElsewhere(row, ords, vals, i);
    }
    WritesBack(Assigned(row, ords, vals), row, ords);
  }

  lemma {:induction false} WritesBack(r: Row, target: Row, ords: seq<nat>)
    requires |r| == |target| && forall i :: 0 <= i < |ords| ==> ords[i] < |r|
    requires forall i :: 0 <= i < |r| && i !in ords ==> r[i] == target[i]
    ensures Assigned(r, ords, Cells(target, ords)) == target
    decreases |ords|
  {
    if ords == [] {
      assert r == target;
    } else {
      var r' := r[ords[0] := target[ords[0]]];
      assert Cells(target, ords)[1..] == Cells(target, ords[1..]);
      forall i | 0 <= i < |r'| && i !in ords[1..] ensures r'[i] == target[i] {
        assert i == ords[0] || i !in ords;
      }
      WritesBack(r', target, ords[1..]);
    }
  }
}
