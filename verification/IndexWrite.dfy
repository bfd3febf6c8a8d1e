/** UPDATE and DELETE through single-column indexes: the candidate list goes to the same
    all-or-nothing write path as a full scan, and must do what the scan would
    (exec_write.go). */
module IndexWrite {
  import opened Wrappers
  import opened Sequences
  import opened Values
  import opened Expressions
  import opened IndexOrder
  import opened Planner
  import opened Sides
  import opened IndexedReads
  import opened IndexSelect
  import opened TableScans
  import opened Tables
  import opened WriteMarks
  import L = LiveLog

  /** `dirtyTooDenseForScan`: the overlay is at least the table, so a scan is no slower. */
  predicate TooDense(d: Side) {
    d.s.readCount != 0 && d.s.readCount >= |d.s.rows|
  }

  function Match(p: IdxPlan, args: seq<Value>): Row -> bool {
    WherePred(p.where, args)
  }

  /** The index side of a table, and the table, hold the same rows. */
  ghost predicate SameRows(t: Table, d: Side)
    requires |t.shards| > 0
    reads t
  {
    d.s.rows == t.Rows()
  }

  /** Nothing matches, so nothing changes. */
  lemma NoneMatching(rows: map<Uuid, Row>, match_: Row -> bool, ords: seq<nat>, compute: Row -> Option<Row>)
    requires forall pk :: pk in rows ==> !match_(rows[pk])
    ensures Matching(rows, match_) == {} && UpdatedRows(rows, match_, ords, compute) == rows && UnmatchedRows(rows, match_) == rows
  {}

  /** An unblocked search that found nothing: no row matches. */
  lemma NothingMatches(d: Side, p: IdxPlan, args: seq<Value>)
    requires ValidSide(d) && Planned(d.t, p) && Resolves(d.t, d.s, p, args, Nothing) && !Blocked(d.t, d.s, p, args)
    ensures forall pk :: pk in d.s.rows ==> !Match(p, args)(d.s.rows[pk])
  {
    forall pk | pk in d.s.rows && Match(p, args)(d.s.rows[pk]) ensures false {
      MatchIsCandidate(d, p, args, pk);
    }
  }

  /** The candidates cover what the scan would match. */
  lemma CandidatesCover(d: Side, p: IdxPlan, args: seq<Value>, pks: seq<Uuid>, dirty: seq<Uuid>, cands: seq<Uuid>)
    requires ValidSide(d) && Planned(d.t, p) && Resolves(d.t, d.s, p, args, Candidates(pks, dirty))
    requires forall pk :: pk in cands <==> pk in pks || pk in dirty
    ensures Covers(d.s.rows, cands, Match(p, args))
  {
    forall pk | pk in d.s.rows && Match(p, args)(d.s.rows[pk]) ensures pk in cands {
      MatchIsCandidate(d, p, args, pk);
    }
  }

  /** With one pin and nothing dirty, so do its hits alone. */
  lemma CleanHitsCover(d: Side, p: IdxPlan, args: seq<Value>, hits: seq<Uuid>)
    requires ValidSide(d) && Planned(d.t, p) && |p.cols| == 1 && d.s.readCount == 0 && !Blocked(d.t, d.s, p, args)
    requires forall pk :: pk in hits <==> InPin(d.t, d.s, p, args, 0, pk)
    ensures Covers(d.s.rows, hits, Match(p, args))
  {
    OnePin(d.t, d.s, p, args);
    forall pk | pk in d.s.rows && Match(p, args)(d.s.rows[pk]) ensures pk in hits {
      MatchIsCandidate(d, p, args, pk);
    }
  }

  /** Each candidate once. */
  method Unique(cands: seq<Uuid>) returns (out: seq<Uuid>)
    ensures Distinct(out) && forall pk :: pk in out <==> pk in cands
  {
    out := [];
    var seen: set<Uuid> := {};
    for i := 0 to |cands|
      invariant Distinct(out) && seen == (set pk | pk in out) && forall pk :: pk in out <==> pk in cands[..i]
    {
      assert cands[..i + 1] == cands[..i] + [cands[i]];
      if cands[i] in seen { continue; }
      assert cands[i] !in out;
      seen, out := seen + {cands[i]}, out + [cands[i]];
    }
    assert cands[..|cands|] == cands;
  }

  /** The bucket itself when nothing is dirty, else hits and overlay without repeats. */
  method CandidateList(d: Side, p: IdxPlan, args: seq<Value>, pks: seq<Uuid>, dirty: seq<Uuid>) returns (cands: seq<Uuid>)
    requires ValidSide(d) && Planned(d.t, p) && Resolves(d.t, d.s, p, args, Candidates(pks, dirty))
    ensures Distinct(cands) && Covers(d.s.rows, cands, Match(p, args))
  {
    cands := pks;
    if dirty != [] { cands := Unique(pks + dirty); }
    CandidatesCover(d, p, args, pks, dirty, cands);
  }

  /** `updateOneByCandidate`, with what it wrote. */
  method UpdateLone(t: Table, pk: Uuid, ord: nat, match_: Row -> bool, compute: Row -> Option<Row>, works: bool)
    returns (out: Outcome, n: nat, ghost acts: seq<L.Act>)
    requires t.Valid() && Covers(t.Rows(), [pk], match_) && ComputeFits(t.lay.def, [ord], compute)
    modifies t`shards, t`readDirty, t.budget, t.journal
    ensures t.Valid() && t.Balanced() && t.UpdatedAll(match_, [ord], compute, works, out, n) && Wrote(t, acts)
  {
    ghost var rows, marks := t.Rows(), t.DirtyMarks();
    acts := [];
    out, n := t.UpdateOneByCandidate(pk, ord, match_, compute, works);
    if n == 0 {
      UntouchedWrote(t);
    } else {
      ghost var act := L.SetRow(pk, [ord], compute(rows[pk]).value);
      acts := [act];
      OneWrites(t.lay, rows, marks, act);
    }
  }

  /** A lone candidate and a single column are updated in place. */
  method UpdateCandidates(t: Table, cands: seq<Uuid>, match_: Row -> bool, ords: seq<nat>, compute: Row -> Option<Row>, works: bool)
    returns (out: Outcome, n: nat, ghost acts: seq<L.Act>)
    requires t.Valid() && Distinct(cands) && Covers(t.Rows(), cands, match_)
    requires ords != [] && ComputeFits(t.lay.def, ords, compute)
    modifies t`shards, t`readDirty, t.budget, t.journal
    ensures t.Valid() && t.Balanced() && t.UpdatedAll(match_, ords, compute, works, out, n) && Wrote(t, acts)
  {
    ghost var rows := t.Rows();
    if |cands| == 1 && |ords| == 1 {
      assert cands == [cands[0]] && ords == [ords[0]];
      out, n, acts := UpdateLone(t, cands[0], ords[0], match_, compute, works);
      return;
    }
    acts := [];
    out, n := t.UpdateByCandidates(cands, match_, ords, compute, works);
    if out == Done { acts := UpdateActs(rows, Hits(rows, cands, match_), ords, compute); } else { UntouchedWrote(t); }
  }

  /** What resolving one clean pin without a slice came to. */
  datatype Lone = NoPath | BadPin | NullPin | NoHit | OneHit(pk: Uuid) | ManyHits

  /** The lone-hit fast path shared by UPDATE and DELETE: one pin, nothing dirty. */
  method LoneHit(d: Side, p: IdxPlan, args: seq<Value>) returns (r: Lone)
    requires ValidSide(d) && Live(d) && Planned(d.t, p)
    ensures r.NoPath? <==> !(|p.cols| == 1 && d.s.readCount == 0)
    ensures r.BadPin? ==> Fails(d.t, d.s, p, args)
    ensures r.NullPin? ==> Blocked(d.t, d.s, p, args) && !Fails(d.t, d.s, p, args)
    ensures r.NoHit? || r.OneHit? ==> !Blocked(d.t, d.s, p, args) && !Fails(d.t, d.s, p, args)
    ensures r.NoHit? ==> forall pk :: pk in d.s.rows ==> !Match(p, args)(d.s.rows[pk])
    ensures r.OneHit? ==> Covers(d.s.rows, [r.pk], Match(p, args))
  {
    if |p.cols| != 1 || d.s.readCount != 0 { return NoPath; }
    PinHasIndex(d.t, p, 0);
    OnePin(d.t, d.s, p, args);
    var key := ResolveOperand(EqConjuncts(p.where)[p.cols[0]], args);
    assert key == PinValue(p, args, 0);
    if key.None? { return BadPin; }
    if key.value.Null? { return NullPin; }
    var k := IndexFor(d.t.indexes, p.cols[0]).value;
    assert IndexMatches(d, k);
    var pk, found, one := d.idx[k].LookupOne(KeyOf(key.value));
    if !found {
      CleanHitsCover(d, p, args, []);
      return NoHit;
    }
    if !one { return ManyHits; }
    assert pk in [pk];
    CleanHitsCover(d, p, args, [pk]);
    return OneHit(pk);
  }

  /** The full scan, with what it wrote. */
  method UpdateByScan(t: Table, match_: Row -> bool, ords: seq<nat>, compute: Row -> Option<Row>, works: bool)
    returns (out: Outcome, n: nat, ghost acts: seq<L.Act>)
    requires t.Valid() && ords != [] && ComputeFits(t.lay.def, ords, compute)
    modifies t`shards, t`readDirty, t.budget, t.journal
    ensures t.Valid() && t.Balanced() && t.UpdatedAll(match_, ords, compute, works, out, n) && Wrote(t, acts)
  {
    ghost var rows, keys := t.Rows(), ScanKeys(t.lay.def, t.shards, match_);
    acts := [];
    out, n := t.UpdateWhereAll(match_, ords, compute, works);
    if out == Done { acts := UpdateActs(rows, keys, ords, compute); } else { UntouchedWrote(t); }
  }

  /** The part of an UPDATE behind the lone-hit path. */
  method UpdateBySearch(t: Table, d: Side, p: IdxPlan, args: seq<Value>, ords: seq<nat>, compute: Row -> Option<Row>, works: bool)
    returns (out: Outcome, n: nat, ghost acts: seq<L.Act>)
    requires t.Valid() && ValidSide(d) && Live(d) && Planned(d.t, p) && SameRows(t, d)
    requires ords != [] && ComputeFits(t.lay.def, ords, compute)
    modifies t`shards, t`readDirty, t.budget, t.journal
    ensures t.Valid() && t.Balanced() && Wrote(t, acts)
    ensures !TooDense(d) && Fails(d.t, d.s, p, args) ==> out == Refused && n == 0 && t.Untouched()
    ensures !TooDense(d) && Blocked(d.t, d.s, p, args) && !Fails(d.t, d.s, p, args) ==> out == Done && n == 0 && t.Untouched()
    ensures TooDense(d) || !(Fails(d.t, d.s, p, args) || Blocked(d.t, d.s, p, args)) ==>
              t.UpdatedAll(Match(p, args), ords, compute, works, out, n)
  {
    var match_ := Match(p, args);
    if TooDense(d) {
      out, n, acts := UpdateByScan(t, match_, ords, compute, works);
      return;
    }
    acts := [];
    UntouchedWrote(t);
    var c := IdxCandidates(d, p, args);
    match c
    case Failed => return Refused, 0, acts;
    case Nothing =>
      if !Blocked(d.t, d.s, p, args) {
        NothingMatches(d, p, args);
        NoneMatching(t.Rows(), match_, ords, compute);
      }
      return Done, 0, acts;
    case Candidates(pks, dirty) =>
      var cands := CandidateList(d, p, args, pks, dirty);
      out, n, acts := UpdateCandidates(t, cands, match_, ords, compute, works);
  }

  /** `execUpdate` on an index-pinned WHERE. Unless the overlay is too dense, a pin that
      cannot be evaluated refuses the statement and a NULL pin ends it with no row
      changed; in every other case it does what the full scan does. Whatever it
      wrote is journaled and marked. */
  method UpdateIndexed(t: Table, d: Side, p: IdxPlan, args: seq<Value>, ords: seq<nat>, compute: Row -> Option<Row>, works: bool)
    returns (out: Outcome, n: nat, ghost acts: seq<L.Act>)
    requires t.Valid() && ValidSide(d) && Live(d) && Planned(d.t, p) && SameRows(t, d)
    requires ords != [] && ComputeFits(t.lay.def, ords, compute)
    modifies t`shards, t`readDirty, t.budget, t.journal
    ensures t.Valid() && t.Balanced() && Wrote(t, acts)
    ensures !TooDense(d) && Fails(d.t, d.s, p, args) ==> out == Refused && n == 0 && t.Untouched()
    ensures !TooDense(d) && Blocked(d.t, d.s, p, args) && !Fails(d.t, d.s, p, args) ==> out == Done && n == 0 && t.Untouched()
    ensures TooDense(d) || !(Fails(d.t, d.s, p, args) || Blocked(d.t, d.s, p, args)) ==>
              t.UpdatedAll(Match(p, args), ords, compute, works, out, n)
  {
    var match_ := Match(p, args);
    acts := [];
    UntouchedWrote(t);
    if |ords| == 1 {
      assert ords == [ords[0]];
      var lone := LoneHit(d, p, args);
      match lone
      case BadPin => return Refused, 0, acts;
      case NullPin => return Done, 0, acts;
      case NoHit =>
        NoneMatching(t.Rows(), match_, ords, compute);
        return Done, 0, acts;
      case OneHit(pk) =>
        out, n, acts := UpdateLone(t, pk, ords[0], match_, compute, works);
        return;
      case _ =>
    }
    out, n, acts := UpdateBySearch(t, d, p, args, ords, compute, works);
  }

  method DeleteByScan(t: Table, match_: Row -> bool, works: bool) returns (out: Outcome, n: nat, ghost acts: seq<L.Act>)
    requires t.Valid()
    modifies t`shards, t`readDirty, t.budget, t.journal
    ensures t.Valid() && t.Balanced() && t.DeletedAll(match_, works, out, n) && Wrote(t, acts)
  {
    ghost var keys := ScanKeys(t.lay.def, t.shards, match_);
    acts := [];
    out, n := t.DeleteWhereAll(match_, works);
    if out == Done { acts := DeleteActs(keys); } else { UntouchedWrote(t); }
  }

  method DeleteCandidates(t: Table, cands: seq<Uuid>, match_: Row -> bool, works: bool) returns (out: Outcome, n: nat, ghost acts: seq<L.Act>)
    requires t.Valid() && Distinct(cands) && Covers(t.Rows(), cands, match_)
    modifies t`shards, t`readDirty, t.budget, t.journal
    ensures t.Valid() && t.Balanced() && t.DeletedAll(match_, works, out, n) && Wrote(t, acts)
  {
    ghost var keys := Hits(t.Rows(), cands, match_);
    acts := [];
    out, n := t.DeleteByCandidates(cands, match_, works);
    if out == Done { acts := DeleteActs(keys); } else { UntouchedWrote(t); }
  }

  method DeleteLone(t: Table, pk: Uuid, match_: Row -> bool, works: bool) returns (out: Outcome, n: nat, ghost acts: seq<L.Act>)
    requires t.Valid() && Covers(t.Rows(), [pk], match_)
    modifies t`shards, t`readDirty, t.budget, t.journal
    ensures t.Valid() && t.Balanced() && t.DeletedAll(match_, works, out, n) && Wrote(t, acts)
  {
    ghost var rows, marks := t.Rows(), t.DirtyMarks();
    acts := [];
    out, n := t.DeleteOneByCandidate(pk, match_, works);
    if n == 0 {
      UntouchedWrote(t);
    } else {
      acts := [L.DropRow(pk)];
      OneWrites(t.lay, rows, marks, acts[0]);
    }
  }

  /** The part of a DELETE behind the lone-hit path. */
  method DeleteBySearch(t: Table, d: Side, p: IdxPlan, args: seq<Value>, works: bool)
    returns (out: Outcome, n: nat, ghost acts: seq<L.Act>)
    requires t.Valid() && ValidSide(d) && Live(d) && Planned(d.t, p) && SameRows(t, d)
    modifies t`shards, t`readDirty, t.budget, t.journal
    ensures t.Valid() && t.Balanced() && Wrote(t, acts)
    ensures Fails(d.t, d.s, p, args) ==> out == Refused && n == 0 && t.Untouched()
    ensures Blocked(d.t, d.s, p, args) && !Fails(d.t, d.s, p, args) ==> out == Done && n == 0 && t.Untouched()
    ensures !(Fails(d.t, d.s, p, args) || Blocked(d.t, d.s, p, args)) ==> t.DeletedAll(Match(p, args), works, out, n)
  {
    var match_ := Match(p, args);
    acts := [];
    UntouchedWrote(t);
    var c := IdxCandidates(d, p, args);
    match c
    case Failed => return Refused, 0, acts;
    case Nothing =>
      if !Blocked(d.t, d.s, p, args) {
        NothingMatches(d, p, args);
        NoneMatching(t.Rows(), match_, [], _ => None);
      }
      return Done, 0, acts;
    case Candidates(pks, dirty) =>
      var cands := CandidateList(d, p, args, pks, dirty);
      out, n, acts := DeleteCandidates(t, cands, match_, works);
  }

  /** `execDelete` on an index-pinned WHERE. */
  method DeleteIndexed(t: Table, d: Side, p: IdxPlan, args: seq<Value>, works: bool) returns (out: Outcome, n: nat, ghost acts: seq<L.Act>)
    requires t.Valid() && ValidSide(d) && Live(d) && Planned(d.t, p) && SameRows(t, d)
    modifies t`shards, t`readDirty, t.budget, t.journal
    ensures t.Valid() && t.Balanced() && Wrote(t, acts)
    ensures !TooDense(d) && Fails(d.t, d.s, p, args) ==> out == Refused && n == 0 && t.Untouched()
    ensures !TooDense(d) && Blocked(d.t, d.s, p, args) && !Fails(d.t, d.s, p, args) ==> out == Done && n == 0 && t.Untouched()
    ensures TooDense(d) || !(Fails(d.t, d.s, p, args) || Blocked(d.t, d.s, p, args)) ==>
              t.DeletedAll(Match(p, args), works, out, n)
  {
    var match_ := Match(p, args);
    if TooDense(d) {
      out, n, acts := DeleteByScan(t, match_, works);
      return;
    }
    acts := [];
    UntouchedWrote(t);
    var lone := LoneHit(d, p, args);
    match lone
    case BadPin => return Refused, 0, acts;
    case NullPin => return Done, 0, acts;
    case NoHit =>
      NoneMatching(t.Rows(), match_, [], _ => None);
      return Done, 0, acts;
    case OneHit(pk) =>
      out, n, acts := DeleteLone(t, pk, match_, works);
      return;
    case _ => out, n, acts := DeleteBySearch(t, d, p, args, works);
  }
}
