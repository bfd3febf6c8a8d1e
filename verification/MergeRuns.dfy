/** A merge that no write interleaves with: it ends, and leaves every index current and
    nothing marked (secindex.go). */
module MergeRuns {
  import opened Values
  import opened IndexOverlay

  /** A step of the background merge, not a write. */
  predicate Merges(step: Step) {
    !step.Insert? && !step.Update? && !step.Delete?
  }

  predicate Empty(s: State, sh: nat) {
    sh < |s.dirtyRead| && sh < |s.dirtyDel| && s.dirtyRead[sh] == [] && s.dirtyDel[sh] == []
  }

  /** The cut is everything the shard lists. */
  predicate Exact(s: State, sh: nat, cut: Cut) {
    sh < |s.dirtyRead| && sh < |s.dirtyDel| && cut == Cut(|s.dirtyRead[sh]|, |s.dirtyDel[sh]|)
  }

  predicate Covered(s: State, drops: map<nat, Cut>, sh: nat) {
    Empty(s, sh) || (sh in drops && Exact(s, sh, drops[sh]))
  }

  ghost predicate CoveredTo(s: State, drops: map<nat, Cut>, n: nat) {
    forall sh {:trigger Covered(s, drops, sh)} :: 0 <= sh < n ==> Covered(s, drops, sh)
  }

  /** Nothing was marked since the merge began: what it has passed it will drop whole. */
  ghost predicate Quiet(t: Table, s: State) {
    match s.merger
    case Idle => CoveredTo(s, map[], t.shards)
    case Scanning(next, drops, _) => next <= t.shards && CoveredTo(s, drops, next)
    case Reading(next, cut, _, _, drops, _) => CoveredTo(s, drops, next) && Exact(s, next, cut)
    case Applying(next, cut, _, _, _, _, drops, _) => CoveredTo(s, drops, next) && Exact(s, next, cut)
    case Folding(_, drops, _) => CoveredTo(s, drops, t.shards)
    case Dropping(drops) => CoveredTo(s, drops, t.shards)
    case Owing(drops, _) => CoveredTo(s, drops, t.shards)
  }

  // ---- the merge ends ----

  function Phase(m: Merger): nat {
    match m
    case Idle => 0
    case Dropping(_) => 1
    case Owing(_, _) => 1
    case Folding(_, _, _) => 2
    case _ => 3
  }

  function Left(n: nat, done: nat): nat { if done < n then n - done else 0 }

  /** Shards, indexes or drops to go. */
  function Outer(t: Table, m: Merger): nat {
    match m
    case Idle => 0
    case Dropping(drops) => |drops|
    case Owing(drops, _) => |drops|
    case Folding(k, _, _) => Left(|t.indexes|, k)
    case _ => Left(t.shards, m.next)
  }

  function Rank(m: Merger): nat {
    if m.Scanning? || m.Owing? then 1 else 0
  }

  /** Listed rows to go in the shard being read. */
  function Batch(m: Merger): nat {
    if m.Reading? || m.Applying? then Left(|m.batch|, m.at) else 0
  }

  /** Indexes to go for the row being applied. */
  function Inner(t: Table, m: Merger): nat {
    if m.Reading? then |t.indexes| + 2 else if m.Applying? then Left(|t.indexes| + 1, m.k) else 0
  }

  ghost predicate Nearer(t: Table, m': Merger, m: Merger) {
    || Phase(m') < Phase(m)
    || (Phase(m') == Phase(m) &&
        (|| Outer(t, m') < Outer(t, m)
         || (Outer(t, m') == Outer(t, m) &&
             (|| Rank(m') < Rank(m)
              || (Rank(m') == Rank(m) &&
                  (Batch(m') < Batch(m) || (Batch(m') == Batch(m) && Inner(t, m') < Inner(t, m))))))))
  }

  /** What a step of the quiet merge does to its state. */
  ghost predicate Advances(t: Table, s: State, step: Step, s': State)
    requires ValidTable(t) && Shaped(t, s)
  {
    Merges(step) && s' == Do(t, s, step) && s'.rows == s.rows && Quiet(t, s') && Nearer(t, s'.merger, s.merger)
  }

  lemma CoveredKept(s: State, s': State, drops: map<nat, Cut>, drops': map<nat, Cut>, n: nat)
    requires CoveredTo(s, drops, n) && s'.dirtyRead == s.dirtyRead && s'.dirtyDel == s.dirtyDel
    requires forall sh :: 0 <= sh < n && sh in drops ==> sh in drops' && drops'[sh] == drops[sh]
    ensures CoveredTo(s', drops', n)
  {
    forall sh | 0 <= sh < n ensures Covered(s', drops', sh) { assert Covered(s, drops, sh); }
  }

  lemma SnapshotAdvances(t: Table, s: State)
    requires ValidTable(t) && Inv(t, s) && Quiet(t, s) && s.merger.Scanning?
    ensures Advances(t, s, Snapshot, Do(t, s, Snapshot))
  {
    var m, s' := s.merger, Do(t, s, Snapshot);
    CoveredKept(s, s', m.drops, m.drops, m.next);
    if m.next < t.shards {
      var r, d := s.dirtyRead[m.next], s.dirtyDel[m.next];
      if r + d == [] { assert |r + d| == 0 && Covered(s', m.drops, m.next); }
    }
  }

  lemma ReadAdvances(t: Table, s: State)
    requires ValidTable(t) && Inv(t, s) && Quiet(t, s) && s.merger.Reading?
    ensures Advances(t, s, Read, Do(t, s, Read))
  {
    var m, s' := s.merger, Do(t, s, Read);
    if m.at >= |m.batch| {
      var drops' := m.drops[m.next := m.cut];
      CoveredKept(s, s', m.drops, drops', m.next);
      assert Covered(s', drops', m.next);
    } else {
      CoveredKept(s, s', m.drops, m.drops, m.next);
    }
  }

  lemma ApplyAdvances(t: Table, s: State)
    requires ValidTable(t) && Inv(t, s) && Quiet(t, s) && s.merger.Applying?
    ensures Advances(t, s, Apply, Do(t, s, Apply))
  {
    CoveredKept(s, Do(t, s, Apply), s.merger.drops, s.merger.drops, s.merger.next);
  }

  lemma FoldAdvances(t: Table, s: State)
    requires ValidTable(t) && Inv(t, s) && Quiet(t, s) && s.merger.Folding?
    ensures Advances(t, s, Fold, Do(t, s, Fold))
  {
    CoveredKept(s, Do(t, s, Fold), s.merger.drops, s.merger.drops, t.shards);
  }

  lemma DropAdvances(t: Table, s: State) returns (sh: nat)
    requires ValidTable(t) && Inv(t, s) && Quiet(t, s) && s.merger.Dropping?
    ensures Advances(t, s, Drop(sh), Do(t, s, Drop(sh)))
  {
    var drops := s.merger.drops;
    if drops == map[] {
      sh := 0;
      CoveredKept(s, Do(t, s, Drop(sh)), drops, map[], t.shards);
    } else {
      assert drops.Keys != {};
      sh :| sh in drops.Keys;
      var s' := Do(t, s, Drop(sh));
      assert Covered(s, drops, sh) && CutOf(s.merger, sh) == drops[sh];
      assert |drops - {sh}| == |drops| - 1 by { assert (drops - {sh}).Keys == drops.Keys - {sh}; }
      forall i | 0 <= i < t.shards ensures Covered(s', drops - {sh}, i) { assert Covered(s, drops, i); }
    }
  }

  lemma SettleAdvances(t: Table, s: State)
    requires ValidTable(t) && Inv(t, s) && Quiet(t, s) && s.merger.Owing?
    ensures Advances(t, s, Settle, Do(t, s, Settle))
  {
    CoveredKept(s, Do(t, s, Settle), s.merger.drops, s.merger.drops, t.shards);
  }

  lemma SomeStepAdvances(t: Table, s: State) returns (step: Step)
    requires ValidTable(t) && Inv(t, s) && Quiet(t, s) && !s.merger.Idle?
    ensures Advances(t, s, step, Do(t, s, step))
  {
    match s.merger
    case Scanning(_, _, _) => step := Snapshot; SnapshotAdvances(t, s);
    case Reading(_, _, _, _, _, _) => step := Read; ReadAdvances(t, s);
    case Applying(_, _, _, _, _, _, _, _) => step := Apply; ApplyAdvances(t, s);
    case Folding(_, _, _) => step := Fold; FoldAdvances(t, s);
    case Dropping(_) => var sh := DropAdvances(t, s); step := Drop(sh);
    case Owing(_, _) => step := Settle; SettleAdvances(t, s);
  }

  lemma {:induction false} QuietRunEnds(t: Table, s: State) returns (steps: seq<Step>)
    requires ValidTable(t) && Inv(t, s) && Quiet(t, s)
    ensures forall i :: 0 <= i < |steps| ==> Merges(steps[i])
    ensures var s' := Run(t, s, steps); s'.merger.Idle? && s'.rows == s.rows && Quiet(t, s') && Inv(t, s')
    decreases Phase(s.merger), Outer(t, s.merger), Rank(s.merger), Batch(s.merger), Inner(t, s.merger)
  {
    steps := [];
    if !s.merger.Idle? {
      var step := SomeStepAdvances(t, s);
      StepKeepsInv(t, s, step);
      var rest := QuietRunEnds(t, Do(t, s, step));
      steps := [step] + rest;
      assert steps[1..] == rest;
    }
  }

  /** Nothing is marked and every index holds every row's current key. */
  ghost predicate CaughtUp(t: Table, s: State)
    requires ValidTable(t) && Shaped(t, s)
  {
    && s.readCount == 0 && (forall sh :: 0 <= sh < t.shards ==> s.dirtyRead[sh] == [] && s.dirtyDel[sh] == [])
    && forall k, pk :: 0 <= k < |t.indexes| ==> Find(s.idx[k].rev, pk) == Find(s.idx[k].view, pk) == Current(t, s, k, pk)
  }

  lemma {:induction false} NothingListed(lists: seq<seq<Uuid>>)
    requires forall i :: 0 <= i < |lists| ==> lists[i] == []
    ensures Total(lists) == 0
  {
    if lists != [] { NothingListed(lists[1..]); }
  }

  lemma EmptyIsCaughtUp(t: Table, s: State)
    requires ValidTable(t) && Inv(t, s) && Quiet(t, s) && s.merger.Idle?
    ensures CaughtUp(t, s)
  {
    forall sh | 0 <= sh < t.shards ensures s.dirtyRead[sh] == [] && s.dirtyDel[sh] == [] { assert Covered(s, map[], sh); }
    NothingListed(s.dirtyRead);
    forall k, pk | 0 <= k < |t.indexes|
      ensures Find(s.idx[k].rev, pk) == Find(s.idx[k].view, pk) == Current(t, s, k, pk)
    {
      assert Good(t, s, pk, k) && Covered(s, map[], t.route(pk));
    }
  }

  /** From any idle state, a merge with no write in between changes no row and leaves every
      index current, nothing marked and the counter at zero. */
  lemma QuietMergeCatchesUp(t: Table, s: State) returns (steps: seq<Step>)
    requires ValidTable(t) && Inv(t, s) && s.merger.Idle?
    ensures forall i :: 0 <= i < |steps| ==> Merges(steps[i])
    ensures var s' := Run(t, s, steps); s'.merger.Idle? && s'.rows == s.rows && CaughtUp(t, s')
  {
    var s1 := Do(t, s, Begin);
    StepKeepsInv(t, s, Begin);
    var rest := QuietRunEnds(t, s1);
    steps := [Begin] + rest;
    assert steps[1..] == rest;
    EmptyIsCaughtUp(t, Run(t, s1, rest));
  }
}
