/** Reading through single-column indexes: the buckets of the pinned columns
    intersected, the overlay beside them, and the WHERE re-checked unless the plan and
    the state make that needless (plan.go, exec_select.go). */
module IndexSelect {
  import opened Wrappers
  import opened Sequences
  import opened ByteStrings
  import opened Values
  import opened Expressions
  import opened IndexOrder
  import opened Planner
  import opened Sides
  import opened IndexedReads
  import O = IndexOverlay
  import S = SecIndexes
  import W = OrderedWalks
  import T = TopNs

  // ---- the plan ----

  /** `idxCols` and `idxExact` of a WHERE. */
  datatype IdxPlan = IdxPlan(where: Expr, cols: seq<nat>, exact: bool)

  function Singles(indexes: seq<O.IndexDef>): seq<nat> {
    if indexes == [] then []
    else
      var last := |indexes| - 1;
      Singles(indexes[..last]) + if |indexes[last].ords| == 1 then [indexes[last].ords[0]] else []
  }

  /** The plan is the planner's, for a WHERE over this table that pins an indexed column. */
  predicate Planned(t: O.Table, p: IdxPlan) {
    && BoundWithin(p.where, t.width) && p.cols == IdxCols(Singles(t.indexes), p.where) != []
    && (p.exact <==> IdxExact(Singles(t.indexes), p.where))
  }

  lemma {:induction false} SinglesMembers(indexes: seq<O.IndexDef>, ord: nat)
    ensures ord in Singles(indexes) <==> IndexFor(indexes, ord).Some?
  {
    if indexes != [] {
      var last := |indexes| - 1;
      SinglesMembers(indexes[..last], ord);
      assert |indexes[last].ords| == 1 ==> indexes[last].ords == [indexes[last].ords[0]];
    }
  }

  /** Two indexes never cover the same columns, so no column is pinned twice. */
  lemma {:induction false} SinglesDistinct(indexes: seq<O.IndexDef>)
    requires forall i, j :: 0 <= i < j < |indexes| ==> indexes[i].ords != indexes[j].ords
    ensures Distinct(Singles(indexes))
  {
    if indexes != [] {
      var last := |indexes| - 1;
      SinglesDistinct(indexes[..last]);
      if |indexes[last].ords| == 1 {
        assert indexes[last].ords == [indexes[last].ords[0]];
        SinglesMembers(indexes[..last], indexes[last].ords[0]);
        var init := Singles(indexes[..last]);
        forall i | 0 <= i < |init| ensures init[i] != indexes[last].ords[0] { assert init[i] in init; }
      }
    }
  }

  /** `planIndexEq`: one pass over the indexes. */
  method PlanIndexEq(t: O.Table, where: Expr) returns (p: IdxPlan)
    requires O.ValidTable(t) && BoundWithin(where, t.width)
    ensures p.cols != [] ==> Planned(t, p)
    ensures p.where == where && p.cols == IdxCols(Singles(t.indexes), where)
  {
    var eqs := EqConjuncts(where);
    var cols := [];
    for i := 0 to |t.indexes|
      invariant cols == IdxCols(Singles(t.indexes[..i]), where)
    {
      NextIndex(t.indexes, i, where);
      if |t.indexes[i].ords| != 1 { continue; }
      if t.indexes[i].ords[0] in eqs { cols := cols + [t.indexes[i].ords[0]]; }
    }
    assert t.indexes[..|t.indexes|] == t.indexes;
    p := IdxPlan(where, cols, |Conjuncts(where)| == |cols|);
  }

  lemma NextIndex(indexes: seq<O.IndexDef>, i: nat, where: Expr)
    requires i < |indexes|
    ensures var ords, cols := indexes[i].ords, IdxCols(Singles(indexes[..i]), where);
            IdxCols(Singles(indexes[..i + 1]), where) == if |ords| == 1 && ords[0] in EqConjuncts(where) then cols + [ords[0]] else cols
  {
    assert indexes[..i + 1][..i] == indexes[..i] && indexes[..i + 1][i] == indexes[i];
    var init := Singles(indexes[..i]);
    assert init + [] == init && IdxCols(init, where) + [] == IdxCols(init, where);
    if |indexes[i].ords| == 1 { IdxColsSnoc(init, indexes[i].ords[0], where); }
  }

  lemma {:induction false} IdxColsSnoc(singles: seq<nat>, ord: nat, where: Expr)
    ensures IdxCols(singles + [ord], where) == IdxCols(singles, where) + if ord in EqConjuncts(where) then [ord] else []
  {
    if singles == [] {
      assert ([ord] + [])[1..] == [];
    } else {
      assert (singles + [ord])[1..] == singles[1..] + [ord];
      IdxColsSnoc(singles[1..], ord, where);
    }
  }

  // ---- what the candidate machinery selects, state by state ----

  /** The value pin `i` is compared with; None when it cannot be evaluated. */
  function PinValue(p: IdxPlan, args: seq<Value>, i: nat): Option<Value>
    requires i < |p.cols|
  {
    if p.cols[i] in EqConjuncts(p.where) then ResolveOperand(EqConjuncts(p.where)[p.cols[i]], args) else None
  }

  predicate Usable(p: IdxPlan, args: seq<Value>, i: nat)
    requires i < |p.cols|
  {
    PinValue(p, args, i).Some? && !PinValue(p, args, i).value.Null?
  }

  /** A lookup of pin `i` in its index finds `pk`. */
  ghost predicate InPin(t: O.Table, s: O.State, p: IdxPlan, args: seq<Value>, i: nat, pk: Uuid)
    requires O.Shaped(t, s) && i < |p.cols|
  {
    && Usable(p, args, i) && IndexFor(t.indexes, p.cols[i]).Some?
    && var k := IndexFor(t.indexes, p.cols[i]).value;
       InBucket(s.idx[k].view, t.indexes[k].ordered, KeyOf(PinValue(p, args, i).value), pk)
  }

  ghost predicate InPins(t: O.Table, s: O.State, p: IdxPlan, args: seq<Value>, n: nat, pk: Uuid)
    requires O.Shaped(t, s) && n <= |p.cols|
  {
    forall i {:trigger InPin(t, s, p, args, i, pk)} :: 0 <= i < n ==> InPin(t, s, p, args, i, pk)
  }

  /** The loop over the pins gets to pin `i`: the buckets before it meet. */
  ghost predicate Reaches(t: O.Table, s: O.State, p: IdxPlan, args: seq<Value>, i: nat)
    requires O.Shaped(t, s) && i < |p.cols|
  {
    i == 0 || exists pk :: InPins(t, s, p, args, i, pk)
  }

  /** It gets to a pin it cannot evaluate. */
  ghost predicate Fails(t: O.Table, s: O.State, p: IdxPlan, args: seq<Value>)
    requires O.Shaped(t, s)
  {
    exists i {:trigger PinValue(p, args, i)} :: 0 <= i < |p.cols| && PinValue(p, args, i).None? && Reaches(t, s, p, args, i)
  }

  /** It gets to a NULL pin, and the statement finds nothing. */
  ghost predicate Blocked(t: O.Table, s: O.State, p: IdxPlan, args: seq<Value>)
    requires O.Shaped(t, s)
  {
    exists i {:trigger PinValue(p, args, i)} :: 0 <= i < |p.cols| && PinValue(p, args, i) == Some(Null) && Reaches(t, s, p, args, i)
  }

  /** The rows an indexed read selects: every bucket hit when the plan is exact and
      nothing is dirty, else whatever passes the WHERE. */
  ghost predicate Chosen(t: O.Table, s: O.State, p: IdxPlan, args: seq<Value>, pk: Uuid)
    requires O.ValidTable(t) && O.Shaped(t, s)
  {
    && pk in s.rows && !Blocked(t, s, p, args)
    && if p.exact && O.Clean(t, s) then InPins(t, s, p, args, |p.cols|, pk) else WherePred(p.where, args)(s.rows[pk])
  }

  lemma PinHasIndex(t: O.Table, p: IdxPlan, i: nat)
    requires Planned(t, p) && i < |p.cols|
    ensures p.cols[i] in EqConjuncts(p.where) && IndexFor(t.indexes, p.cols[i]).Some?
  {
    assert p.cols[i] in p.cols;
    IdxColsMembers(Singles(t.indexes), p.where, p.cols[i]);
    SinglesMembers(t.indexes, p.cols[i]);
  }

  // ---- resolving the candidates ----

  datatype Candidates =
    | Failed
    | Nothing
    | Candidates(pks: seq<Uuid>, dirty: seq<Uuid>)

  /** The candidates the loop over the pins settles on. */
  ghost predicate Resolves(t: O.Table, s: O.State, p: IdxPlan, args: seq<Value>, c: Candidates)
    requires O.ValidTable(t) && O.Shaped(t, s)
  {
    match c
    case Failed => Fails(t, s, p, args)
    case Nothing =>
      !Fails(t, s, p, args) && (Blocked(t, s, p, args) || (O.Clean(t, s) && forall pk :: !InPins(t, s, p, args, |p.cols|, pk)))
    case Candidates(pks, dirty) =>
      && !Fails(t, s, p, args) && !Blocked(t, s, p, args) && Distinct(pks) && ListsOverlay(t, s, dirty)
      && forall pk {:trigger pk in pks} :: pk in pks <==> InPins(t, s, p, args, |p.cols|, pk)
  }

  /** The pins before `i` are usable, and `pks` lists where their buckets meet. */
  ghost predicate Narrowed(t: O.Table, s: O.State, p: IdxPlan, args: seq<Value>, i: nat, pks: seq<Uuid>)
    requires O.Shaped(t, s) && i <= |p.cols|
  {
    && Distinct(pks) && (forall j :: 0 <= j < i ==> Usable(p, args, j))
    && (i > 0 ==> forall pk {:trigger pk in pks} :: pk in pks <==> InPins(t, s, p, args, i, pk))
  }

  /** One pin more. */
  lemma NarrowedNext(t: O.Table, s: O.State, p: IdxPlan, args: seq<Value>, i: nat, pks: seq<Uuid>, bucket: seq<Uuid>, next: seq<Uuid>)
    requires O.Shaped(t, s) && i < |p.cols| && Narrowed(t, s, p, args, i, pks) && Usable(p, args, i)
    requires forall pk :: pk in bucket <==> InPin(t, s, p, args, i, pk)
    requires Distinct(next) && forall pk :: pk in next <==> pk in bucket && (i > 0 ==> pk in pks)
    ensures Narrowed(t, s, p, args, i + 1, next)
  {
    forall pk ensures pk in next <==> InPins(t, s, p, args, i + 1, pk) {
      assert InPins(t, s, p, args, i + 1, pk) <==> InPins(t, s, p, args, i, pk) && InPin(t, s, p, args, i, pk);
    }
  }

  /** Once the buckets are disjoint no later pin is reached. */
  lemma EmptyEndsTheLoop(t: O.Table, s: O.State, p: IdxPlan, args: seq<Value>, i: nat)
    requires O.Shaped(t, s) && 0 < i <= |p.cols| && Narrowed(t, s, p, args, i, [])
    ensures !Fails(t, s, p, args) && !Blocked(t, s, p, args)
    ensures forall pk :: !InPins(t, s, p, args, |p.cols|, pk)
  {
    forall n, pk | i <= n <= |p.cols| ensures !InPins(t, s, p, args, n, pk) {
      assert pk !in [];
      if InPins(t, s, p, args, n, pk) { assert InPins(t, s, p, args, i, pk); }
    }
    forall j | 0 <= j < |p.cols| && Reaches(t, s, p, args, j) ensures Usable(p, args, j) {
      assert j < i;
    }
  }

  /** After the last pin nothing failed and nothing blocked. */
  lemma AllUsable(t: O.Table, s: O.State, p: IdxPlan, args: seq<Value>, pks: seq<Uuid>)
    requires O.Shaped(t, s) && Narrowed(t, s, p, args, |p.cols|, pks)
    ensures !Fails(t, s, p, args) && !Blocked(t, s, p, args)
  {
    forall j | 0 <= j < |p.cols| ensures PinValue(p, args, j).Some? && PinValue(p, args, j) != Some(Null) {
      assert Usable(p, args, j);
    }
  }

  /** `idxCandidates`. */
  method IdxCandidates(d: Side, p: IdxPlan, args: seq<Value>) returns (c: Candidates)
    requires ValidSide(d) && Live(d) && Planned(d.t, p)
    ensures Resolves(d.t, d.s, p, args, c)
  {
    var pks: seq<Uuid> := [];
    var i := 0;
    while i < |p.cols|
      invariant i <= |p.cols| && Narrowed(d.t, d.s, p, args, i, pks)
      invariant i > 0 ==> pks != []
    {
      PinHasIndex(d.t, p, i);
      assert i > 0 ==> pks[0] in pks;
      assert Reaches(d.t, d.s, p, args, i);
      var key := ResolveOperand(EqConjuncts(p.where)[p.cols[i]], args);
      assert key == PinValue(p, args, i);
      if key.None? { return Failed; }
      if key.value.Null? {
        NoneFailedYet(d.t, d.s, p, args, i, pks);
        return Nothing;
      }
      var k := IndexFor(d.t.indexes, p.cols[i]).value;
      assert IndexMatches(d, k);
      var bucket := d.idx[k].Lookup(KeyOf(key.value));
      var next := bucket;
      if i > 0 { next := S.IntersectPks(pks, bucket); }
      NarrowedNext(d.t, d.s, p, args, i, pks, bucket, next);
      pks, i := next, i + 1;
      if pks == [] {
        EmptyEndsTheLoop(d.t, d.s, p, args, i);
        break;
      }
    }
    if i == |p.cols| { AllUsable(d.t, d.s, p, args, pks); }
    var dirty := DirtyPks(d);
    if pks == [] && dirty == [] {
      assert O.Clean(d.t, d.s) by { forall pk ensures !O.Overlay(d.t, d.s, pk) { assert pk !in dirty; } }
      return Nothing;
    }
    return Candidates(pks, dirty);
  }

  /** A NULL pin stops the loop before any pin that cannot be evaluated. */
  lemma NoneFailedYet(t: O.Table, s: O.State, p: IdxPlan, args: seq<Value>, i: nat, pks: seq<Uuid>)
    requires O.Shaped(t, s) && i < |p.cols| && Narrowed(t, s, p, args, i, pks) && PinValue(p, args, i) == Some(Null)
    ensures !Fails(t, s, p, args)
  {
    forall j | 0 <= j < |p.cols| && PinValue(p, args, j).None? ensures !Reaches(t, s, p, args, j) {
      assert j < i ==> Usable(p, args, j);
      forall pk ensures !InPins(t, s, p, args, j, pk) {
        assert !InPin(t, s, p, args, i, pk);
      }
    }
  }

  // ---- visiting the candidates ----

  /** The live candidates that pass, each at its first visit. */
  function Emitted(rows: map<Uuid, Row>, cands: seq<Uuid>, pass: Row -> bool): seq<Uuid> {
    if cands == [] then []
    else
      var last := |cands| - 1;
      var init := Emitted(rows, cands[..last], pass);
      if cands[last] !in cands[..last] && cands[last] in rows && pass(rows[cands[last]]) then init + [cands[last]] else init
  }

  lemma {:induction false} EmittedMembers(rows: map<Uuid, Row>, cands: seq<Uuid>, pass: Row -> bool)
    ensures var out := Emitted(rows, cands, pass);
            Distinct(out) && forall pk {:trigger pk in out} :: pk in out <==> pk in cands && pk in rows && pass(rows[pk])
  {
    if cands != [] {
      var last := |cands| - 1;
      EmittedMembers(rows, cands[..last], pass);
      assert cands == cands[..last] + [cands[last]];
      assert cands[last] in Emitted(rows, cands[..last], pass) ==> cands[last] in cands[..last];
    }
  }

  lemma {:induction false} EmittedGrows(rows: map<Uuid, Row>, cands: seq<Uuid>, pass: Row -> bool, n: nat)
    requires n <= |cands|
    ensures Emitted(rows, cands[..n], pass) <= Emitted(rows, cands, pass)
  {
    if n == |cands| {
      assert cands[..n] == cands;
    } else {
      var last := |cands| - 1;
      assert cands[..last][..n] == cands[..n];
      EmittedGrows(rows, cands[..last], pass, n);
    }
  }

  lemma EmitNext(rows: map<Uuid, Row>, cands: seq<Uuid>, pass: Row -> bool, i: nat)
    requires i < |cands|
    ensures cands[..i + 1] == cands[..i] + [cands[i]]
    ensures var init := Emitted(rows, cands[..i], pass);
            Emitted(rows, cands[..i + 1], pass) ==
              if cands[i] !in cands[..i] && cands[i] in rows && pass(rows[cands[i]]) then init + [cands[i]] else init
  {
    assert cands[..i + 1][..i] == cands[..i] && cands[..i + 1] == cands[..i] + [cands[i]];
  }

  lemma NotSeenBefore(pks: seq<Uuid>, cands: seq<Uuid>, i: nat)
    requires Distinct(pks) && cands == pks + [] && i < |cands|
    ensures cands[i] !in cands[..i]
  {
    assert cands == pks;
  }

  /** `emit` and the fetch behind it, stopping at `eff` rows when that is not negative.
      Repeats are looked for only when the overlay is not empty. */
  method Emit(rows: map<Uuid, Row>, pks: seq<Uuid>, dirty: seq<Uuid>, pass: Row -> bool, eff: int) returns (out: seq<Uuid>)
    requires Distinct(pks) && eff != 0
    ensures var all := Emitted(rows, pks + dirty, pass); out <= all && (out == all || |out| == eff)
  {
    var cands := pks + dirty;
    var seen: set<Uuid> := {};
    out := [];
    for i := 0 to |cands|
      invariant out == Emitted(rows, cands[..i], pass) && (eff < 0 || |out| < eff)
      invariant dirty != [] ==> seen == set pk | pk in cands[..i]
    {
      EmitNext(rows, cands, pass, i);
      if dirty != [] {
        if cands[i] in seen { continue; }
        seen := seen + {cands[i]};
      } else {
        NotSeenBefore(pks, cands, i);
      }
      if cands[i] !in rows || !pass(rows[cands[i]]) { continue; }
      out := out + [cands[i]];
      if eff >= 0 && |out| >= eff {
        EmittedGrows(rows, cands, pass, i + 1);
        return;
      }
    }
    assert cands[..|cands|] == cands;
  }

  /** Keeping offset+limit rows and dropping the offset is slicing them all. */
  lemma KeptSlice<T>(all: seq<T>, out: seq<T>, offset: nat, limit: int)
    requires out <= all && (out == all || |out| == W.FetchBound(limit, offset))
    ensures W.Slice(out, offset, limit) == W.Slice(all, offset, limit)
  {
    if out != all {
      assert all[offset..][..limit] == out[offset..];
    }
  }

  /** What passes among the candidates is what is chosen. */
  lemma CandidatesAreChosen(d: Side, p: IdxPlan, args: seq<Value>, pks: seq<Uuid>, dirty: seq<Uuid>, pass: Row -> bool, pk: Uuid)
    requires ValidSide(d) && Planned(d.t, p) && Resolves(d.t, d.s, p, args, Candidates(pks, dirty))
    requires forall r :: pass(r) <==> (p.exact && dirty == []) || WherePred(p.where, args)(r)
    ensures pk in pks + dirty && pk in d.s.rows && pass(d.s.rows[pk]) <==> Chosen(d.t, d.s, p, args, pk)
  {
    assert dirty != [] ==> O.Overlay(d.t, d.s, dirty[0]) by { assert dirty != [] ==> dirty[0] in dirty; }
    assert dirty == [] ==> O.Clean(d.t, d.s) by { forall q | dirty == [] ensures !O.Overlay(d.t, d.s, q) { assert q !in dirty; } }
    if pk in d.s.rows && WherePred(p.where, args)(d.s.rows[pk]) && !Blocked(d.t, d.s, p, args) {
      MatchIsCandidate(d, p, args, pk);
      assert pk in pks || pk in dirty;
    }
  }

  /** A matching row is dirty, or under every pin, unless a NULL pin ended the search. */
  lemma MatchIsCandidate(d: Side, p: IdxPlan, args: seq<Value>, pk: Uuid)
    requires ValidSide(d) && Planned(d.t, p) && !Blocked(d.t, d.s, p, args)
    requires pk in d.s.rows && WherePred(p.where, args)(d.s.rows[pk])
    ensures O.Overlay(d.t, d.s, pk) || InPins(d.t, d.s, p, args, |p.cols|, pk)
  {
    if !O.Overlay(d.t, d.s, pk) {
      for i := 0 to |p.cols|
        invariant InPins(d.t, d.s, p, args, i, pk)
      {
        PinHasIndex(d.t, p, i);
        MatchImpliesPins(p.where, d.s.rows[pk], args, p.cols[i]);
        assert Reaches(d.t, d.s, p, args, i);
        assert PinValue(p, args, i).Some?;
        PinFinds(d, p, args, i, pk);
      }
    }
  }

  /** A clean row with the pinned cell is in the pin's bucket. */
  lemma PinFinds(d: Side, p: IdxPlan, args: seq<Value>, i: nat, pk: Uuid)
    requires ValidSide(d) && Planned(d.t, p) && i < |p.cols| && Usable(p, args, i)
    requires pk in d.s.rows && !O.Overlay(d.t, d.s, pk)
    requires p.cols[i] < |d.s.rows[pk]| && d.s.rows[pk][p.cols[i]] == PinValue(p, args, i).value
    ensures InPin(d.t, d.s, p, args, i, pk)
  {
    PinHasIndex(d.t, p, i);
    var k := IndexFor(d.t.indexes, p.cols[i]).value;
    ColumnEntry(d, k, p.cols[i], pk);
    BucketIsEquality(d.s.idx[k].view, d.t.indexes[k].ordered, KeyOf(PinValue(p, args, i).value), pk);
  }

  /** The entry of a clean row in a single-column index: its cell's key, or none for NULL. */
  lemma ColumnEntry(d: Side, k: nat, ord: nat, pk: Uuid)
    requires ValidSide(d) && k < |d.t.indexes| && d.t.indexes[k].ords == [ord] && ord < d.t.width
    requires pk in d.s.rows && !O.Overlay(d.t, d.s, pk)
    ensures |d.s.rows[pk]| == d.t.width
    ensures var cell := d.s.rows[pk][ord];
            O.Find(d.s.idx[k].view, pk) == if cell.Null? then None else Some(KeyOf(cell))
  {
    var row := d.s.rows[pk];
    O.CleanRowIsIndexed(d.t, d.s, pk, k);
    assert seq(1, i requires 0 <= i < 1 => row[[ord][i]]) == [row[ord]];
  }

  lemma NothingIsChosen(d: Side, p: IdxPlan, args: seq<Value>, pk: Uuid)
    requires ValidSide(d) && Planned(d.t, p) && Resolves(d.t, d.s, p, args, Nothing)
    ensures !Chosen(d.t, d.s, p, args, pk)
  {
    if pk in d.s.rows && WherePred(p.where, args)(d.s.rows[pk]) && !Blocked(d.t, d.s, p, args) {
      MatchIsCandidate(d, p, args, pk);
    }
  }

  /** With one pin, the whole search is that pin. */
  lemma OnePin(t: O.Table, s: O.State, p: IdxPlan, args: seq<Value>)
    requires O.Shaped(t, s) && |p.cols| == 1
    ensures Fails(t, s, p, args) <==> PinValue(p, args, 0).None?
    ensures Blocked(t, s, p, args) <==> PinValue(p, args, 0) == Some(Null)
    ensures forall pk :: InPins(t, s, p, args, 1, pk) <==> InPin(t, s, p, args, 0, pk)
  {
    assert Reaches(t, s, p, args, 0);
  }

  /** And with nothing dirty, an exact plan takes its hits as they are. */
  lemma CleanPinIsChosen(d: Side, p: IdxPlan, args: seq<Value>, pk: Uuid)
    requires ValidSide(d) && p.exact && |p.cols| == 1 && d.s.readCount == 0 && Usable(p, args, 0)
    ensures Chosen(d.t, d.s, p, args, pk) <==> pk in d.s.rows && InPin(d.t, d.s, p, args, 0, pk)
  {
    OnePin(d.t, d.s, p, args);
    assert O.Clean(d.t, d.s);
  }

  // ---- SELECT ----

  /** `all` lists the chosen rows, each once. */
  ghost predicate ListsChosen(d: Side, p: IdxPlan, args: seq<Value>, all: seq<Uuid>)
    requires O.ValidTable(d.t) && O.Shaped(d.t, d.s)
  {
    Distinct(all) && forall pk {:trigger pk in all} :: pk in all <==> Chosen(d.t, d.s, p, args, pk)
  }

  function Always(r: Row): bool { true }

  /** `execCandidates` without ORDER BY: no re-check when the plan is exact and nothing is
      dirty. */
  method ExecCandidates(d: Side, p: IdxPlan, args: seq<Value>, pks: seq<Uuid>, dirty: seq<Uuid>, offset: nat, limit: int)
    returns (out: seq<Uuid>, ghost all: seq<Uuid>)
    requires ValidSide(d) && Planned(d.t, p) && Resolves(d.t, d.s, p, args, Candidates(pks, dirty)) && limit != 0
    ensures ListsChosen(d, p, args, all) && out == W.Slice(all, offset, limit)
  {
    var pass: Row -> bool := if p.exact && dirty == [] then Always else WherePred(p.where, args);
    var kept := Emit(d.s.rows, pks, dirty, pass, W.FetchBound(limit, offset));
    all := Emitted(d.s.rows, pks + dirty, pass);
    EmittedMembers(d.s.rows, pks + dirty, pass);
    forall pk ensures pk in all <==> Chosen(d.t, d.s, p, args, pk) {
      CandidatesAreChosen(d, p, args, pks, dirty, pass, pk);
    }
    KeptSlice(all, kept, offset, limit);
    out := W.Slice(kept, offset, limit);
  }

  /** `execSelectIdx` without ORDER BY; None when a pin cannot be evaluated. The lone hit
      of an exact single pin is fetched directly. */
  method SelectIdx(d: Side, p: IdxPlan, args: seq<Value>, offset: nat, limit: int) returns (out: Option<seq<Uuid>>, ghost all: seq<Uuid>)
    requires ValidSide(d) && Live(d) && Planned(d.t, p)
    ensures limit == 0 ==> out == Some([])
    ensures limit != 0 ==> (out.None? <==> Fails(d.t, d.s, p, args))
    ensures limit != 0 && out.Some? ==> ListsChosen(d, p, args, all) && out.value == W.Slice(all, offset, limit)
  {
    all := [];
    if limit == 0 { return Some([]), []; }
    if p.exact && |p.cols| == 1 && d.s.readCount == 0 {
      PinHasIndex(d.t, p, 0);
      var key := ResolveOperand(EqConjuncts(p.where)[p.cols[0]], args);
      assert key == PinValue(p, args, 0) && Reaches(d.t, d.s, p, args, 0);
      OnePin(d.t, d.s, p, args);
      if key.None? { return None, []; }
      if key.value.Null? { return Some([]), []; }
      var k := IndexFor(d.t.indexes, p.cols[0]).value;
      assert IndexMatches(d, k);
      var pk, found, one := d.idx[k].LookupOne(KeyOf(key.value));
      forall q ensures Chosen(d.t, d.s, p, args, q) <==> q in d.s.rows && InPin(d.t, d.s, p, args, 0, q) {
        CleanPinIsChosen(d, p, args, q);
      }
      if !found { return Some([]), []; }
      if one {
        assert forall q :: q in [pk] <==> InPin(d.t, d.s, p, args, 0, q);
        var hit := if pk in d.s.rows then [pk] else [];
        if offset > 0 { return Some([]), hit; }
        return Some(hit), hit;
      }
    }
    var c := IdxCandidates(d, p, args);
    match c
    case Failed => return None, [];
    case Nothing =>
      forall pk ensures !Chosen(d.t, d.s, p, args, pk) { NothingIsChosen(d, p, args, pk); }
      return Some([]), [];
    case Candidates(pks, dirty) =>
      var rows;
      rows, all := ExecCandidates(d, p, args, pks, dirty, offset, limit);
      return Some(rows), all;
  }

  // ---- when an indexed read is the scan ----

  predicate Scans(d: Side, p: IdxPlan, args: seq<Value>, pk: Uuid) {
    pk in d.s.rows && WherePred(p.where, args)(d.s.rows[pk])
  }

  ghost predicate Agrees(d: Side, p: IdxPlan, args: seq<Value>)
    requires O.ValidTable(d.t) && O.Shaped(d.t, d.s)
  {
    forall pk :: Chosen(d.t, d.s, p, args, pk) <==> Scans(d, p, args, pk)
  }

  predicate NullPin(p: IdxPlan, args: seq<Value>) {
    exists i :: 0 <= i < |p.cols| && !Usable(p, args, i)
  }

  /** Some row the table could hold satisfies the WHERE. */
  ghost predicate Satisfiable(d: Side, p: IdxPlan, args: seq<Value>) {
    exists pk, row {:trigger TypedRow(d, pk, row)} :: TypedRow(d, pk, row) && WherePred(p.where, args)(row)
  }

  /** A plan that re-checks selects what a scan selects, unless a pin is NULL. */
  lemma RecheckedAgrees(d: Side, p: IdxPlan, args: seq<Value>)
    requires ValidSide(d) && Planned(d.t, p) && !p.exact && AllPinsEvaluate(d, p, args)
    requires !NullPin(p, args) || !Satisfiable(d, p, args)
    ensures Agrees(d, p, args)
  {
    if !NullPin(p, args) {
      forall i | 0 <= i < |p.cols| ensures PinValue(p, args, i) != Some(Null) { assert Usable(p, args, i); }
    } else {
      forall pk ensures !Scans(d, p, args, pk) { assert pk in d.s.rows ==> TypedRow(d, pk, d.s.rows[pk]); }
    }
  }

  /** With a NULL pin the one row that matches is hidden: the pins before it find the row,
      so the search gets to the NULL. */
  lemma NullPinHides(d: Side, p: IdxPlan, args: seq<Value>, pk: Uuid, row: Row)
    requires ValidSide(d) && Planned(d.t, p) && AllPinsEvaluate(d, p, args) && NullPin(p, args)
    requires TypedRow(d, pk, row) && WherePred(p.where, args)(row)
    ensures ValidSide(OneRow(d, pk, row)) && !Agrees(OneRow(d, pk, row), p, args)
  {
    var d' := OneRow(d, pk, row);
    OneRowValid(d, pk, row);
    var n := FirstUnusable(p, args);
    forall i | 0 <= i < n ensures InPin(d'.t, d'.s, p, args, i, pk) {
      PinHasIndex(d.t, p, i);
      MatchImpliesPins(p.where, row, args, p.cols[i]);
      assert Usable(p, args, i);
      PinFinds(d', p, args, i, pk);
    }
    assert InPins(d'.t, d'.s, p, args, n, pk) && Reaches(d'.t, d'.s, p, args, n);
    assert PinValue(p, args, n) == Some(Null);
    assert Scans(d', p, args, pk) && !Chosen(d'.t, d'.s, p, args, pk);
  }

  /** Over every reachable state, a plan that re-checks selects what a scan selects if and
      only if no pin is NULL, or no row could match. */
  lemma RecheckedAgreesIff(d: Side, p: IdxPlan, args: seq<Value>)
    requires ValidSide(d) && Planned(d.t, p) && !p.exact && AllPinsEvaluate(d, p, args)
    ensures (forall s :: ValidSide(d.(s := s)) ==> Agrees(d.(s := s), p, args)) <==> !(NullPin(p, args) && Satisfiable(d, p, args))
  {
    if NullPin(p, args) && Satisfiable(d, p, args) {
      var pk, row :| TypedRow(d, pk, row) && WherePred(p.where, args)(row);
      NullPinHides(d, p, args, pk, row);
    } else {
      forall s | ValidSide(d.(s := s)) ensures Agrees(d.(s := s), p, args) {
        SatisfiableWhateverTheRows(d, s, p, args);
        RecheckedAgrees(d.(s := s), p, args);
      }
    }
  }

  lemma SatisfiableWhateverTheRows(d: Side, s: O.State, p: IdxPlan, args: seq<Value>)
    requires AllPinsEvaluate(d, p, args)
    ensures AllPinsEvaluate(d.(s := s), p, args) && (Satisfiable(d.(s := s), p, args) ==> Satisfiable(d, p, args))
  {
    var d' := d.(s := s);
    if pk, row :| TypedRow(d', pk, row) && WherePred(p.where, args)(row) {
      forall o | 0 <= o < d.info.width ensures TypedCell(d, row, o) { assert TypedCell(d', row, o); }
      assert TypedRow(d, pk, row);
    }
  }

  /** A key of another kind that some key of this kind ties with. */
  predicate MixesUp(kind: Kind, v: Value) {
    match kind
    case KindNull => false
    case KindBool =>
      (match v
       case Int(x) => x == 0 || x == 1
       case Id(u) => u.hi <= 1 || u.hi >= 0x8000_0000_0000_0000
       case _ => true)
    case KindString => !v.Int? || v.i >= 0
    case KindBytes => !v.Int? || v.i >= 0
    case _ => true
  }

  /** A cell of this kind whose key ties. */
  function TieValue(kind: Kind, v: Value): Value {
    match kind
    case KindInt => if v.Bool? then Int(v.AsWord()) else if v.Id? then Int(Signed(v.u.hi)) else Int(0)
    case KindBool => Bool((v.Int? && v.i == 1) || (v.Id? && v.u.hi == 1))
    case KindUuid => if v.Int? || v.Bool? then Id(Uuid(Bits(v.AsWord()), 0)) else Id(Uuid(0, 0))
    case KindString => Str(if v.Blob? then v.b else [])
    case KindBytes => Blob(if v.Str? then v.s else [])
    case KindNull => Null
  }

  lemma TieValueTies(kind: Kind, v: Value)
    requires !v.Null? && v.Kind() != kind && MixesUp(kind, v)
    ensures TieValue(kind, v).Kind() == kind && Ties(KeyOf(TieValue(kind, v)), KeyOf(v))
  {
    if v.Str? { LessIrreflexive(v.s); }
    if v.Blob? { LessIrreflexive(v.b); }
  }

  lemma TiesMixUp(cell: Value, v: Value)
    requires !v.Null? && v.Kind() != cell.Kind() && !cell.Null? && Ties(KeyOf(cell), KeyOf(v))
    ensures MixesUp(cell.Kind(), v)
  {}

  /** A typed row can hold the pinned value. */
  predicate Holdable(d: Side, p: IdxPlan, args: seq<Value>, i: nat)
    requires i < |p.cols| && p.cols[i] < |d.kinds| && PinValue(p, args, i).Some?
  {
    var v := PinValue(p, args, i).value;
    v.Kind() == d.kinds[p.cols[i]] || (v.Null? && p.cols[i] in d.info.nullable)
  }

  /** The sorted index of the pin takes a key of another kind for one of its own. */
  predicate Confused(d: Side, p: IdxPlan, args: seq<Value>, i: nat)
    requires i < |p.cols| && p.cols[i] < |d.kinds|
  {
    && Usable(p, args, i) && IndexFor(d.t.indexes, p.cols[i]).Some?
    && d.t.indexes[IndexFor(d.t.indexes, p.cols[i]).value].ordered
    && var v := PinValue(p, args, i).value; v.Kind() != d.kinds[p.cols[i]] && MixesUp(d.kinds[p.cols[i]], v)
  }

  predicate AllPinsEvaluate(d: Side, p: IdxPlan, args: seq<Value>) {
    forall i :: 0 <= i < |p.cols| ==> p.cols[i] < |d.kinds| && PinValue(p, args, i).Some?
  }

  /** What a caller can check of an exact plan and its arguments. The index path strays
      from the scan when every pin could be held but one is NULL, or when none is NULL and
      one is confused while the others find their rows. */
  predicate Strays(d: Side, p: IdxPlan, args: seq<Value>)
    requires AllPinsEvaluate(d, p, args)
  {
    || ((forall i :: 0 <= i < |p.cols| ==> Holdable(d, p, args, i)) && exists i :: 0 <= i < |p.cols| && !Usable(p, args, i))
    || ((forall i :: 0 <= i < |p.cols| ==> Usable(p, args, i) && (Holdable(d, p, args, i) || Confused(d, p, args, i)))
        && exists i :: 0 <= i < |p.cols| && Confused(d, p, args, i))
  }

  /** A usable pin that is not confused finds exactly the rows with its value. */
  lemma PinIsEquality(d: Side, p: IdxPlan, args: seq<Value>, i: nat, pk: Uuid)
    requires ValidSide(d) && Planned(d.t, p) && i < |p.cols| && Usable(p, args, i) && p.cols[i] < |d.kinds| && !Confused(d, p, args, i)
    requires pk in d.s.rows && !O.Overlay(d.t, d.s, pk)
    ensures |d.s.rows[pk]| == d.t.width
    ensures InPin(d.t, d.s, p, args, i, pk) <==> d.s.rows[pk][p.cols[i]] == PinValue(p, args, i).value
  {
    PinHasIndex(d.t, p, i);
    var k, v := IndexFor(d.t.indexes, p.cols[i]).value, PinValue(p, args, i).value;
    ColumnEntry(d, k, p.cols[i], pk);
    var cell := d.s.rows[pk][p.cols[i]];
    assert TypedRow(d, pk, d.s.rows[pk]) && TypedCell(d, d.s.rows[pk], p.cols[i]);
    KeyOfInjective(cell, v);
    if cell.Kind() == v.Kind() {
      BucketIsEquality(d.s.idx[k].view, d.t.indexes[k].ordered, KeyOf(v), pk);
    } else if !cell.Null? && Ties(KeyOf(cell), KeyOf(v)) {
      TiesMixUp(cell, v);
    }
  }

  /** A row holds a pinned value only if it is holdable. */
  lemma HeldIsHoldable(d: Side, p: IdxPlan, args: seq<Value>, i: nat, pk: Uuid)
    requires ValidSide(d) && i < |p.cols| && p.cols[i] < |d.kinds| && PinValue(p, args, i).Some? && pk in d.s.rows
    ensures |d.s.rows[pk]| == |d.kinds|
    ensures d.s.rows[pk][p.cols[i]] == PinValue(p, args, i).value ==> Holdable(d, p, args, i)
  {
    assert TypedRow(d, pk, d.s.rows[pk]) && TypedCell(d, d.s.rows[pk], p.cols[i]);
  }

  /** The WHERE of an exact plan is its pins. */
  lemma ExactScan(d: Side, p: IdxPlan, args: seq<Value>, pk: Uuid)
    requires ValidSide(d) && Planned(d.t, p) && p.exact && AllPinsEvaluate(d, p, args) && pk in d.s.rows
    ensures |d.s.rows[pk]| == |d.kinds|
    ensures Scans(d, p, args, pk) <==> forall i :: 0 <= i < |p.cols| ==> d.s.rows[pk][p.cols[i]] == PinValue(p, args, i).value
  {
    var row := d.s.rows[pk];
    assert TypedRow(d, pk, row);
    SinglesDistinct(d.t.indexes);
    ExactWhereIsPins(Singles(d.t.indexes), p.where, row, args);
    forall i | 0 <= i < |p.cols|
      ensures p.cols[i] in EqConjuncts(p.where)
      ensures Pinned(row, p.cols[i], EqConjuncts(p.where)[p.cols[i]], args) <==> row[p.cols[i]] == PinValue(p, args, i).value
    {
      PinHasIndex(d.t, p, i);
    }
  }

  /** Outside that condition an exact plan selects, in every state, what a scan selects. */
  lemma ExactPlanAgrees(d: Side, p: IdxPlan, args: seq<Value>)
    requires ValidSide(d) && Planned(d.t, p) && p.exact && AllPinsEvaluate(d, p, args) && !Strays(d, p, args)
    ensures Agrees(d, p, args)
  {
    forall pk ensures Chosen(d.t, d.s, p, args, pk) <==> Scans(d, p, args, pk) {
      if pk in d.s.rows {
        ExactScan(d, p, args, pk);
        forall i | 0 <= i < |p.cols| ensures d.s.rows[pk][p.cols[i]] == PinValue(p, args, i).value ==> Holdable(d, p, args, i) {
          HeldIsHoldable(d, p, args, i, pk);
        }
        if exists i :: 0 <= i < |p.cols| && !Usable(p, args, i) {
          NullPinAgrees(d, p, args, pk);
        } else {
          UsablePinsAgree(d, p, args, pk);
        }
      }
    }
  }

  lemma NullPinAgrees(d: Side, p: IdxPlan, args: seq<Value>, pk: Uuid)
    requires ValidSide(d) && Planned(d.t, p) && p.exact && AllPinsEvaluate(d, p, args) && pk in d.s.rows
    requires exists i :: 0 <= i < |p.cols| && !Usable(p, args, i)
    requires !Scans(d, p, args, pk)
    ensures !Chosen(d.t, d.s, p, args, pk)
  {
    var i :| 0 <= i < |p.cols| && !Usable(p, args, i);
    assert !InPin(d.t, d.s, p, args, i, pk);
  }

  lemma UsablePinsAgree(d: Side, p: IdxPlan, args: seq<Value>, pk: Uuid)
    requires ValidSide(d) && Planned(d.t, p) && p.exact && AllPinsEvaluate(d, p, args) && pk in d.s.rows && !Strays(d, p, args)
    requires forall i :: 0 <= i < |p.cols| ==> Usable(p, args, i)
    ensures Chosen(d.t, d.s, p, args, pk) <==> Scans(d, p, args, pk)
  {
    forall i | 0 <= i < |p.cols| ensures PinValue(p, args, i) != Some(Null) { assert Usable(p, args, i); }
    if O.Clean(d.t, d.s) {
      ExactScan(d, p, args, pk);
      if i :| 0 <= i < |p.cols| && !Holdable(d, p, args, i) && !Confused(d, p, args, i) {
        PinIsEquality(d, p, args, i, pk);
        HeldIsHoldable(d, p, args, i, pk);
      } else {
        forall i | 0 <= i < |p.cols| ensures InPin(d.t, d.s, p, args, i, pk) <==> d.s.rows[pk][p.cols[i]] == PinValue(p, args, i).value {
          assert !Confused(d, p, args, i);
          PinIsEquality(d, p, args, i, pk);
        }
      }
    }
  }

  /** None of this depends on the rows. */
  lemma StraysWhateverTheRows(d: Side, s: O.State, p: IdxPlan, args: seq<Value>)
    requires AllPinsEvaluate(d, p, args)
    ensures AllPinsEvaluate(d.(s := s), p, args) && (Strays(d.(s := s), p, args) <==> Strays(d, p, args))
  {
    var d' := d.(s := s);
    forall i | 0 <= i < |p.cols|
      ensures Holdable(d', p, args, i) <==> Holdable(d, p, args, i)
      ensures Confused(d', p, args, i) <==> Confused(d, p, args, i)
    {}
  }

  // ---- and inside it, a state where it does not ----

  /** The cell that shows it: the pinned value, or what a confused pin takes for it. */
  function StrayCell(d: Side, p: IdxPlan, args: seq<Value>, o: nat): Value
    requires o < |d.kinds|
  {
    if o in p.cols && o in EqConjuncts(p.where) && ResolveOperand(EqConjuncts(p.where)[o], args).Some? then
      var v := ResolveOperand(EqConjuncts(p.where)[o], args).value;
      if v.Kind() == d.kinds[o] || v.Null? then v else TieValue(d.kinds[o], v)
    else Default(d.kinds[o])
  }

  function StrayRow(d: Side, p: IdxPlan, args: seq<Value>): (r: Row)
    ensures |r| == |d.kinds|
  {
    seq(|d.kinds|, o requires 0 <= o < |d.kinds| => StrayCell(d, p, args, o))
  }

  /** One such row, its index entries merged. */
  function StrayState(d: Side, p: IdxPlan, args: seq<Value>): O.State
    requires d.info.pk < |d.kinds| && StrayCell(d, p, args, d.info.pk).Id?
  {
    OneRow(d, StrayCell(d, p, args, d.info.pk).u, StrayRow(d, p, args)).s
  }

  lemma StrayCellTyped(d: Side, p: IdxPlan, args: seq<Value>, o: nat)
    requires ValidSide(d) && Planned(d.t, p) && AllPinsEvaluate(d, p, args) && Strays(d, p, args) && o < |d.kinds|
    ensures var c := StrayCell(d, p, args, o); c.Kind() == d.kinds[o] || (c.Null? && o in d.info.nullable)
  {
    if o in p.cols {
      var i :| 0 <= i < |p.cols| && p.cols[i] == o;
      PinHasIndex(d.t, p, i);
      assert Holdable(d, p, args, i) || Confused(d, p, args, i);
      if !Holdable(d, p, args, i) { TieValueTies(d.kinds[o], PinValue(p, args, i).value); }
    }
  }

  lemma StrayStateValid(d: Side, p: IdxPlan, args: seq<Value>)
    requires ValidSide(d) && Planned(d.t, p) && AllPinsEvaluate(d, p, args) && Strays(d, p, args)
    ensures StrayCell(d, p, args, d.info.pk).Id?
    ensures ValidSide(d.(s := StrayState(d, p, args))) && O.Clean(d.t, StrayState(d, p, args))
  {
    StrayCellTyped(d, p, args, d.info.pk);
    var pk, row := StrayCell(d, p, args, d.info.pk).u, StrayRow(d, p, args);
    forall o | 0 <= o < d.info.width ensures TypedCell(d, row, o) { StrayCellTyped(d, p, args, o); }
    OneRowValid(d, pk, row);
  }

  /** The stray row is under every usable pin. */
  lemma StrayRowIsFound(d: Side, p: IdxPlan, args: seq<Value>, i: nat, pk: Uuid)
    requires ValidSide(d) && Planned(d.t, p) && AllPinsEvaluate(d, p, args) && Strays(d, p, args) && i < |p.cols| && Usable(p, args, i)
    requires StrayCell(d, p, args, d.info.pk) == Id(pk)
    ensures InPin(d.t, StrayState(d, p, args), p, args, i, pk)
  {
    StrayStateValid(d, p, args);
    var d' := d.(s := StrayState(d, p, args));
    PinHasIndex(d.t, p, i);
    var k, o, v := IndexFor(d.t.indexes, p.cols[i]).value, p.cols[i], PinValue(p, args, i).value;
    ColumnEntry(d', k, o, pk);
    var cell := StrayRow(d, p, args)[o];
    assert Holdable(d, p, args, i) || Confused(d, p, args, i);
    if v.Kind() == d.kinds[o] {
      KeyOfInjective(cell, v);
      BucketIsEquality(d'.s.idx[k].view, d.t.indexes[k].ordered, KeyOf(v), pk);
    } else {
      TieValueTies(d.kinds[o], v);
      assert forall q :: q in d'.s.idx[k].view ==> q == pk;
    }
  }

  /** The stray row holds every holdable pin's value. */
  lemma StrayRowHolds(d: Side, p: IdxPlan, args: seq<Value>, i: nat)
    requires ValidSide(d) && Planned(d.t, p) && AllPinsEvaluate(d, p, args) && i < |p.cols|
    ensures var cell, v := StrayRow(d, p, args)[p.cols[i]], PinValue(p, args, i).value;
            if Holdable(d, p, args, i) then cell == v else !v.Null? ==> cell == TieValue(d.kinds[p.cols[i]], v)
  {
    PinHasIndex(d.t, p, i);
  }

  /** Every pin held and one NULL: the row matches, and the NULL hides it. */
  lemma NullHidesStrayRow(d: Side, p: IdxPlan, args: seq<Value>, pk: Uuid)
    requires ValidSide(d) && Planned(d.t, p) && p.exact && AllPinsEvaluate(d, p, args) && Strays(d, p, args)
    requires StrayCell(d, p, args, d.info.pk) == Id(pk)
    requires forall i :: 0 <= i < |p.cols| && Usable(p, args, i) ==> InPin(d.t, StrayState(d, p, args), p, args, i, pk)
    requires exists i :: 0 <= i < |p.cols| && !Usable(p, args, i)
    ensures Blocked(d.t, StrayState(d, p, args), p, args)
    ensures forall i :: 0 <= i < |p.cols| ==> StrayRow(d, p, args)[p.cols[i]] == PinValue(p, args, i).value
  {
    var n := FirstUnusable(p, args);
    var s := StrayState(d, p, args);
    assert InPins(d.t, s, p, args, n, pk) && Reaches(d.t, s, p, args, n);
    forall i | 0 <= i < |p.cols| ensures StrayRow(d, p, args)[p.cols[i]] == PinValue(p, args, i).value {
      StrayRowHolds(d, p, args, i);
      assert Holdable(d, p, args, i);
    }
  }

  /** No pin NULL and one confused: the row is found, and does not match. */
  lemma ConfusionFindsStrayRow(d: Side, p: IdxPlan, args: seq<Value>, pk: Uuid)
    requires ValidSide(d) && Planned(d.t, p) && AllPinsEvaluate(d, p, args) && Strays(d, p, args)
    requires StrayCell(d, p, args, d.info.pk) == Id(pk)
    requires forall i :: 0 <= i < |p.cols| ==> Usable(p, args, i) && InPin(d.t, StrayState(d, p, args), p, args, i, pk)
    ensures !Blocked(d.t, StrayState(d, p, args), p, args) && InPins(d.t, StrayState(d, p, args), p, args, |p.cols|, pk)
    ensures exists i :: 0 <= i < |p.cols| && StrayRow(d, p, args)[p.cols[i]] != PinValue(p, args, i).value
  {
    forall i | 0 <= i < |p.cols| ensures PinValue(p, args, i) != Some(Null) { assert Usable(p, args, i); }
    var i :| 0 <= i < |p.cols| && Confused(d, p, args, i);
    StrayRowHolds(d, p, args, i);
    TieValueTies(d.kinds[p.cols[i]], PinValue(p, args, i).value);
  }

  lemma StrayStateDisagrees(d: Side, p: IdxPlan, args: seq<Value>)
    requires ValidSide(d) && Planned(d.t, p) && p.exact && AllPinsEvaluate(d, p, args) && Strays(d, p, args)
    ensures StrayCell(d, p, args, d.info.pk).Id? && ValidSide(d.(s := StrayState(d, p, args)))
    ensures !Agrees(d.(s := StrayState(d, p, args)), p, args)
  {
    StrayStateValid(d, p, args);
    var s, pk := StrayState(d, p, args), StrayCell(d, p, args, d.info.pk).u;
    var d' := d.(s := s);
    StraysWhateverTheRows(d, s, p, args);
    ExactScan(d', p, args, pk);
    forall i | 0 <= i < |p.cols| && Usable(p, args, i) ensures InPin(d.t, s, p, args, i, pk) {
      StrayRowIsFound(d, p, args, i, pk);
    }
    if exists i :: 0 <= i < |p.cols| && !Usable(p, args, i) {
      NullHidesStrayRow(d, p, args, pk);
    } else {
      ConfusionFindsStrayRow(d, p, args, pk);
    }
    assert Chosen(d'.t, d'.s, p, args, pk) <==> !Scans(d', p, args, pk);
  }

  lemma FirstUnusable(p: IdxPlan, args: seq<Value>) returns (n: nat)
    requires exists i :: 0 <= i < |p.cols| && !Usable(p, args, i)
    ensures n < |p.cols| && !Usable(p, args, n) && forall j :: 0 <= j < n ==> Usable(p, args, j)
  {
    n := 0;
    while Usable(p, args, n)
      invariant n < |p.cols| && forall j :: 0 <= j < n ==> Usable(p, args, j)
      decreases |p.cols| - n
    {
      n := n + 1;
    }
  }

  /** An exact plan selects what a scan selects in every reachable state if and only if
      its pins do not stray. */
  lemma ExactPlanAgreesIff(d: Side, p: IdxPlan, args: seq<Value>)
    requires ValidSide(d) && Planned(d.t, p) && p.exact && AllPinsEvaluate(d, p, args)
    ensures (forall s :: ValidSide(d.(s := s)) ==> Agrees(d.(s := s), p, args)) <==> !Strays(d, p, args)
  {
    if Strays(d, p, args) {
      StrayStateDisagrees(d, p, args);
    } else {
      forall s | ValidSide(d.(s := s)) ensures Agrees(d.(s := s), p, args) {
        StraysWhateverTheRows(d, s, p, args);
        ExactPlanAgrees(d.(s := s), p, args);
      }
    }
  }

  // ---- ORDER BY ----

  /** The rows of a list of keys. */
  function RowsAt(rows: map<Uuid, Row>, pks: seq<Uuid>): seq<Row>
    requires forall pk :: pk in pks ==> pk in rows
  {
    seq(|pks|, i requires 0 <= i < |pks| => rows[pks[i]])
  }

  /** `order` is what ORDER BY, OFFSET and LIMIT make of these rows: its window has the sort
      keys of the window of any sort of them. */
  ghost predicate OrdersRows(sh: T.Shape, offered: seq<Row>, order: seq<Row>, offset: nat, limit: int) {
    && T.AllFit(sh, order) && multiset(order) <= multiset(offered)
    && forall sorted: seq<Row> :: T.IsSort(sh, sorted, offered) ==>
         W.Slice(T.RowKeys(sh, order), offset, limit) == W.Slice(T.RowKeys(sh, sorted), offset, limit)
  }

  /** The projections of a window of rows. */
  ghost predicate ProjectsWindow(sh: T.Shape, order: seq<Row>, out: seq<Row>, offset: nat, limit: int) {
    var kept := W.Slice(order, offset, limit);
    |out| == |kept| && forall i :: 0 <= i < |out| ==> T.Fits(sh, kept[i]) && T.Shows(sh, kept[i], out[i])
  }

  lemma SortsAgree(sh: T.Shape, a: seq<Row>, b: seq<Row>, offered: seq<Row>)
    requires T.IsSort(sh, a, offered) && T.IsSort(sh, b, offered)
    ensures T.RowKeys(sh, a) == T.RowKeys(sh, b)
  {
    T.RowKeysOfKind(sh, a);
    T.RowKeysOfKind(sh, b);
    T.RowKeysPermute(sh, a, b);
    W.OrderFixesKeys(T.RowKeys(sh, a), T.RowKeys(sh, b), sh.kind, sh.desc);
  }

  /** Sorting everything and slicing: ORDER BY without LIMIT. */
  method SortAndSlice(sh: T.Shape, offered: seq<Row>, offset: nat, limit: int) returns (out: seq<Row>, ghost order: seq<Row>)
    requires T.AllFit(sh, offered)
    ensures OrdersRows(sh, offered, order, offset, limit) && ProjectsWindow(sh, order, out, offset, limit)
  {
    var sorted := T.SortRows(sh, offered);
    forall all: seq<Row> | T.IsSort(sh, all, offered) ensures T.RowKeys(sh, sorted) == T.RowKeys(sh, all) {
      SortsAgree(sh, sorted, all, offered);
    }
    order := sorted;
    var kept := W.Slice(sorted, offset, limit);
    SliceFits(sh, sorted, offset, limit);
    out := seq(|kept|, i requires 0 <= i < |kept| && T.Fits(sh, kept[i]) => T.Projected(sh, kept[i]));
  }

  lemma SliceFits(sh: T.Shape, rows: seq<Row>, offset: nat, limit: int)
    requires T.AllFit(sh, rows)
    ensures T.AllFit(sh, W.Slice(rows, offset, limit))
  {}

  /** A heap of offset+limit rows and a slice: ORDER BY with LIMIT. */
  method TopAndSlice(sh: T.Shape, offered: seq<Row>, offset: nat, limit: nat) returns (out: seq<Row>, ghost order: seq<Row>)
    requires T.AllFit(sh, offered) && sh.kind != KindNull && sh.capN == limit + offset && limit > 0
    ensures OrdersRows(sh, offered, order, offset, limit) && ProjectsWindow(sh, order, out, offset, limit)
  {
    var top := T.OfferAll(sh, offered);
    var rows;
    rows, order := T.SortedRows(top);
    out := W.Slice(rows, offset, limit);
    WindowProjected(sh, order, rows, offset, limit);
    forall sorted: seq<Row> | T.IsSort(sh, sorted, offered)
      ensures W.Slice(T.RowKeys(sh, order), offset, limit) == W.Slice(T.RowKeys(sh, sorted), offset, limit)
    {
      HeapWindow(sh, offered, order, sorted, offset, limit);
    }
  }

  lemma WindowProjected(sh: T.Shape, order: seq<Row>, rows: seq<Row>, offset: nat, limit: int)
    requires T.AllFit(sh, order) && |rows| == |order| && forall i :: 0 <= i < |rows| ==> T.Shows(sh, order[i], rows[i])
    ensures ProjectsWindow(sh, order, W.Slice(rows, offset, limit), offset, limit)
  {
    SliceFits(sh, order, offset, limit);
  }

  /** The window of the first offset+limit of a sort is the window of the sort. */
  lemma HeapWindow(sh: T.Shape, offered: seq<Row>, order: seq<Row>, sorted: seq<Row>, offset: nat, limit: nat)
    requires T.AllFit(sh, order) && T.IsSort(sh, sorted, offered) && T.RowKeys(sh, order) <= T.RowKeys(sh, sorted)
    requires |order| == if |offered| < limit + offset then |offered| else limit + offset
    ensures W.Slice(T.RowKeys(sh, order), offset, limit) == W.Slice(T.RowKeys(sh, sorted), offset, limit)
  {
    assert |multiset(sorted)| == |sorted| && |multiset(offered)| == |offered|;
    KeptSlice(T.RowKeys(sh, sorted), T.RowKeys(sh, order), offset, limit);
  }

  /** `execSelectIdx` with ORDER BY: every candidate is re-checked, and what passes is
      sorted, or offered to a heap when there is a LIMIT. */
  method SelectIdxOrdered(d: Side, p: IdxPlan, args: seq<Value>, sh: T.Shape, offset: nat, limit: int)
    returns (out: Option<seq<Row>>, ghost all: seq<Uuid>, ghost order: seq<Row>)
    requires ValidSide(d) && Live(d) && Planned(d.t, p)
    requires sh.kind != KindNull && (limit > 0 ==> sh.capN == limit + offset)
    requires forall pk :: pk in d.s.rows ==> T.Fits(sh, d.s.rows[pk])
    ensures limit == 0 ==> out == Some([])
    ensures limit != 0 ==> (out.None? <==> Fails(d.t, d.s, p, args))
    ensures limit != 0 && out.Some? ==>
              && Distinct(all) && (forall pk {:trigger pk in all} :: pk in all <==> Scans(d, p, args, pk) && !Blocked(d.t, d.s, p, args))
              && OrdersRows(sh, RowsAt(d.s.rows, all), order, offset, limit) && ProjectsWindow(sh, order, out.value, offset, limit)
  {
    all, order := [], [];
    if limit == 0 { return Some([]), [], []; }
    var c := IdxCandidates(d, p, args);
    if c.Failed? { return None, [], []; }
    var pks: seq<Uuid> := [];
    if c.Candidates? { pks := Emit(d.s.rows, c.pks, c.dirty, WherePred(p.where, args), -1); }
    EmittedAreScanned(d, p, args, c, pks);
    var rows := RowsAt(d.s.rows, pks);
    var res;
    if limit > 0 {
      res, order := TopAndSlice(sh, rows, offset, limit);
    } else {
      res, order := SortAndSlice(sh, rows, offset, limit);
    }
    return Some(res), pks, order;
  }

  /** With the re-check on every candidate, an unblocked search keeps the scan's rows. */
  lemma EmittedAreScanned(d: Side, p: IdxPlan, args: seq<Value>, c: Candidates, pks: seq<Uuid>)
    requires ValidSide(d) && Planned(d.t, p) && Resolves(d.t, d.s, p, args, c) && !c.Failed?
    requires pks == if c.Candidates? then Emitted(d.s.rows, c.pks + c.dirty, WherePred(p.where, args)) else []
    ensures Distinct(pks)
    ensures forall pk {:trigger pk in pks} :: pk in pks <==> Scans(d, p, args, pk) && !Blocked(d.t, d.s, p, args)
  {
    if c.Candidates? { EmittedMembers(d.s.rows, c.pks + c.dirty, WherePred(p.where, args)); }
    forall pk ensures pk in pks <==> Scans(d, p, args, pk) && !Blocked(d.t, d.s, p, args) {
      if Scans(d, p, args, pk) && !Blocked(d.t, d.s, p, args) {
        MatchIsCandidate(d, p, args, pk);
        if c.Candidates? { assert pk in c.pks || pk in c.dirty; }
      }
    }
  }

  // ---- the plan's probes over whole runs ----

  /** The probes of a plan whose pins are all usable. */
  function Accesses(t: O.Table, p: IdxPlan, args: seq<Value>): (acc: seq<O.Access>)
    requires Planned(t, p) && forall i :: 0 <= i < |p.cols| ==> Usable(p, args, i)
    ensures O.ValidAccess(t, acc)
  {
    PinsHaveIndexes(t, p);
    seq(|p.cols|, i requires 0 <= i < |p.cols| && Usable(p, args, i) && IndexFor(t.indexes, p.cols[i]).Some? => Probe(t, p, args, i))
  }

  lemma PinsHaveIndexes(t: O.Table, p: IdxPlan)
    requires Planned(t, p)
    ensures forall i :: 0 <= i < |p.cols| ==> IndexFor(t.indexes, p.cols[i]).Some?
  {
    forall i | 0 <= i < |p.cols| ensures IndexFor(t.indexes, p.cols[i]).Some? { PinHasIndex(t, p, i); }
  }

  function Probe(t: O.Table, p: IdxPlan, args: seq<Value>, i: nat): O.Access
    requires i < |p.cols| && Usable(p, args, i) && IndexFor(t.indexes, p.cols[i]).Some?
  {
    O.Access(IndexFor(t.indexes, p.cols[i]).value, (k: IndexKey) => k == KeyOf(PinValue(p, args, i).value))
  }

  /** A row's keys are the probed ones exactly when its cells are the pinned ones. */
  lemma ProbesArePins(t: O.Table, p: IdxPlan, args: seq<Value>, row: Row)
    requires O.ValidTable(t) && Planned(t, p) && (forall i :: 0 <= i < |p.cols| ==> Usable(p, args, i)) && |row| == t.width
    ensures O.KeysHit(t, Accesses(t, p, args), row) <==> AllPinned(p.cols, p.where, row, args)
  {
    var acc := Accesses(t, p, args);
    forall i | 0 <= i < |p.cols|
      ensures p.cols[i] in EqConjuncts(p.where)
      ensures var key := RowKey(t.indexes[acc[i].k].ords, row);
              (key.Some? && acc[i].hit(key.value)) <==> Pinned(row, p.cols[i], EqConjuncts(p.where)[p.cols[i]], args)
    {
      PinHasIndex(t, p, i);
      var k := IndexFor(t.indexes, p.cols[i]).value;
      assert t.indexes[k].ords[0] == p.cols[i] && Usable(p, args, i);
      O.EqualityProbe(p.cols[i], row, PinValue(p, args, i).value);
    }
  }

  /** So after every run of writes and merge steps the planner's own probes, with keys of
      the columns' kinds, select what a scan selects, and need no re-check when the plan is exact and nothing is dirty. */
  lemma PlanSelectsWhatScanSelects(t: O.Table, rows: map<Uuid, Row>, steps: seq<O.Step>, p: IdxPlan, args: seq<Value>)
    requires O.ValidTable(t) && Planned(t, p) && (forall i :: 0 <= i < |p.cols| ==> Usable(p, args, i))
    requires forall i, j :: 0 <= i < j < |t.indexes| ==> t.indexes[i].ords != t.indexes[j].ords
    requires forall pk :: pk in rows ==> |rows[pk]| == t.width
    ensures var s, acc, where := O.Run(t, O.Rebuilt(t, rows), steps), Accesses(t, p, args), WherePred(p.where, args);
            && O.Selected(t, s, acc, where) == O.Scanned(s, where)
            && (p.exact && O.Clean(t, s) ==> O.Scanned(s, where) == set pk | pk in s.rows && O.Hit(t, s, acc, pk))
  {
    var acc, where := Accesses(t, p, args), WherePred(p.where, args);
    SinglesDistinct(t.indexes);
    forall row: Row | |row| == t.width
      ensures where(row) ==> O.KeysHit(t, acc, row)
      ensures p.exact ==> (where(row) <==> O.KeysHit(t, acc, row))
    {
      ProbesArePins(t, p, args, row);
      if p.exact { ExactWhereIsPins(Singles(t.indexes), p.where, row, args); }
      if where(row) { MatchImpliesAllPinned(Singles(t.indexes), p.where, row, args); }
    }
    O.HybridSelectsWhatScanSelects(t, rows, steps, acc, where);
    if p.exact { O.ExactNeedsNoRecheck(t, rows, steps, acc, where); }
  }
}
