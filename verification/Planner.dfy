/** What the planner may conclude from a WHERE: the pinned columns, when an index
    path needs no re-check, and what a composite prefix leaves over (plan.go). */
module Planner {
  import opened Wrappers
  import opened Values
  import opened Expressions
  import opened Sequences

  /** `collectEqConjuncts`: pinned ordinals to value sources; a later pin of the
      same column replaces an earlier one. */
  function EqConjuncts(e: Expr): map<nat, Expr> {
    if e.Bin? && e.op.OpAnd? then EqConjuncts(e.lhs) + EqConjuncts(e.rhs)
    else
      var pin := ColAndLit(e);
      if pin.Some? then map[pin.value.0 := pin.value.1] else map[]
  }

  /** A conjunct pins a column to a literal or a parameter. */
  predicate Pins(e: Expr, ord: nat, src: Expr) {
    (src.Lit? || src.Param?) && (e == Bin(OpEq, Col(ord), src) || e == Bin(OpEq, src, Col(ord)))
  }

  lemma ColAndLitIs(e: Expr, ord: nat, src: Expr)
    ensures ColAndLit(e) == Some((ord, src)) <==> Pins(e, ord, src)
  {}

  /** The pins are those of the conjuncts, a column's last one counting. */
  lemma {:induction false} EqConjunctsAre(e: Expr, ord: nat, src: Expr)
    ensures ord in EqConjuncts(e) && EqConjuncts(e)[ord] == src <==> LastPin(Conjuncts(e), ord, src)
    ensures ord in EqConjuncts(e) <==> exists i, s :: 0 <= i < |Conjuncts(e)| && Pins(Conjuncts(e)[i], ord, s)
  {
    if e.Bin? && e.op.OpAnd? {
      var a, b := Conjuncts(e.lhs), Conjuncts(e.rhs);
      EqConjunctsAre(e.lhs, ord, src);
      EqConjunctsAre(e.rhs, ord, src);
      LastPinOfBoth(a, b, ord, src);
      if i, s :| 0 <= i < |a| && Pins(a[i], ord, s) { assert Pins((a + b)[i], ord, s); }
      if i, s :| 0 <= i < |b| && Pins(b[i], ord, s) { assert Pins((a + b)[|a| + i], ord, s); }
      if i, s :| 0 <= i < |a + b| && Pins((a + b)[i], ord, s) {
        if i < |a| { assert Pins(a[i], ord, s); } else { assert Pins(b[i - |a|], ord, s); }
      }
    } else {
      ColAndLitIs(e, ord, src);
      assert Conjuncts(e) == [e];
      if ord in EqConjuncts(e) { ColAndLitIs(e, ord, EqConjuncts(e)[ord]); assert Pins(Conjuncts(e)[0], ord, EqConjuncts(e)[ord]); }
      if i, s :| 0 <= i < |Conjuncts(e)| && Pins(Conjuncts(e)[i], ord, s) { ColAndLitIs(e, ord, s); }
      if Pins(e, ord, src) { assert PinsAt(Conjuncts(e), 0, ord, src); }
    }
  }

  ghost predicate NoPinFrom(es: seq<Expr>, ord: nat, n: nat)
  {
    forall k, s {:trigger Pins(es[k], ord, s)} :: n <= k < |es| ==> !Pins(es[k], ord, s)
  }

  ghost predicate PinsAt(es: seq<Expr>, i: nat, ord: nat, src: Expr) {
    i < |es| && Pins(es[i], ord, src) && NoPinFrom(es, ord, i + 1)
  }

  ghost predicate LastPin(es: seq<Expr>, ord: nat, src: Expr) {
    exists i: nat :: PinsAt(es, i, ord, src)
  }

  lemma LastPinOfBoth(a: seq<Expr>, b: seq<Expr>, ord: nat, src: Expr)
    ensures LastPin(a + b, ord, src) <==> LastPin(b, ord, src) || (NoPinFrom(b, ord, 0) && LastPin(a, ord, src))
  {
    if i: nat :| PinsAt(b, i, ord, src) {
      forall k, s | |a| + i + 1 <= k < |a + b| ensures !Pins((a + b)[k], ord, s) { assert !Pins(b[k - |a|], ord, s); }
      assert PinsAt(a + b, |a| + i, ord, src);
    }
    if NoPinFrom(b, ord, 0) {
      if i: nat :| PinsAt(a, i, ord, src) {
        forall k, s | i + 1 <= k < |a + b| ensures !Pins((a + b)[k], ord, s) {
          if k < |a| { assert !Pins(a[k], ord, s); } else { assert !Pins(b[k - |a|], ord, s); }
        }
        assert PinsAt(a + b, i, ord, src);
      }
    }
    if i: nat :| PinsAt(a + b, i, ord, src) {
      if i < |a| {
        forall k, s | 0 <= k < |b| ensures !Pins(b[k], ord, s) { assert !Pins((a + b)[|a| + k], ord, s); }
        forall k, s | i + 1 <= k < |a| ensures !Pins(a[k], ord, s) { assert !Pins((a + b)[k], ord, s); }
        assert PinsAt(a, i, ord, src);
      } else {
        forall k, s | i - |a| + 1 <= k < |b| ensures !Pins(b[k], ord, s) { assert !Pins((a + b)[|a| + k], ord, s); }
        assert PinsAt(b, i - |a|, ord, src);
      }
    }
  }

  /** Each pin comes from a conjunct of the WHERE. */
  lemma {:induction false} PinIsConjunct(e: Expr, ord: nat) returns (i: nat)
    requires ord in EqConjuncts(e)
    ensures i < |Conjuncts(e)| && ColAndLit(Conjuncts(e)[i]) == Some((ord, EqConjuncts(e)[ord]))
  {
    if e.Bin? && e.op.OpAnd? {
      if ord in EqConjuncts(e.rhs) {
        var j := PinIsConjunct(e.rhs, ord);
        i := |Conjuncts(e.lhs)| + j;
      } else {
        i := PinIsConjunct(e.lhs, ord);
      }
    } else {
      i := 0;
    }
  }

  predicate Pinned(row: Row, ord: nat, src: Expr, args: seq<Value>) {
    ord < |row| && ResolveOperand(src, args).Some? && row[ord] == ResolveOperand(src, args).value
  }

  /** A matching row holds every pinned value, so an index probe on any of them finds it. */
  lemma MatchImpliesPins(e: Expr, row: Row, args: seq<Value>, ord: nat)
    requires BoundWithin(e, |row|) && Matches(e, row, args) && ord in EqConjuncts(e)
    ensures Pinned(row, ord, EqConjuncts(e)[ord], args)
  {
    var i := PinIsConjunct(e, ord);
    ConjunctsMatchWhere(e, row, args);
    RowMatcherAgrees(Conjuncts(e)[i], row, args);
    PinMeansEqual(Conjuncts(e)[i], row, args);
  }

  /** The single-column indexed ordinals the WHERE pins, in index order. */
  function IdxCols(singles: seq<nat>, e: Expr): seq<nat> {
    if singles == [] then []
    else (if singles[0] in EqConjuncts(e) then [singles[0]] else []) + IdxCols(singles[1..], e)
  }

  lemma {:induction false} IdxColsMembers(singles: seq<nat>, e: Expr, ord: nat)
    ensures ord in IdxCols(singles, e) <==> ord in singles && ord in EqConjuncts(e)
  {
    if singles != [] {
      IdxColsMembers(singles[1..], e, ord);
      assert singles == [singles[0]] + singles[1..];
    }
  }

  lemma {:induction false} IdxColsDistinct(singles: seq<nat>, e: Expr)
    requires Distinct(singles)
    ensures Distinct(IdxCols(singles, e))
  {
    if singles != [] {
      IdxColsDistinct(singles[1..], e);
      forall k | 0 <= k < |IdxCols(singles[1..], e)| ensures IdxCols(singles[1..], e)[k] != singles[0] {
        IdxColsMembers(singles[1..], e, IdxCols(singles[1..], e)[k]);
      }
    }
  }

  /** `idxExact`: as many conjuncts as indexed pins. */
  predicate IdxExact(singles: seq<nat>, e: Expr) {
    |Conjuncts(e)| == |IdxCols(singles, e)|
  }

  /** An injective assignment of n pins to n conjuncts reaches every conjunct. */
  lemma {:induction false} InjectionIsOnto(f: seq<nat>, n: nat, target: nat)
    requires |f| == n && target < n
    requires forall i :: 0 <= i < n ==> f[i] < n
    requires Distinct(f)
    ensures target in f
  {
    if target !in f {
      DistinctCount(f);
      var all := set x | x in f;
      assert all <= Range(n) - {target};
      SubsetCount(all, Range(n) - {target});
    }
  }

  ghost function Range(n: nat): (s: set<nat>)
    ensures |s| == n && forall x: nat {:trigger x in s} :: x in s <==> x < n
  {
    if n == 0 then {} else Range(n - 1) + {n - 1}
  }

  lemma SubsetCount<T>(a: set<T>, b: set<T>)
    requires a <= b
    ensures |a| <= |b|
  {
    assert b == a + (b - a) && a !! (b - a);
  }

  /** The row holds every value the listed columns are pinned to. */
  predicate AllPinned(cols: seq<nat>, e: Expr, row: Row, args: seq<Value>) {
    forall i :: 0 <= i < |cols| ==> cols[i] in EqConjuncts(e) && Pinned(row, cols[i], EqConjuncts(e)[cols[i]], args)
  }

  /** When the plan is exact, the WHERE is the conjunction of the indexed pins: an
      index hit needs no residual check. */
  lemma ExactWhereIsPins(singles: seq<nat>, e: Expr, row: Row, args: seq<Value>)
    requires Distinct(singles)
    requires BoundWithin(e, |row|) && IdxExact(singles, e)
    ensures Matches(e, row, args) <==> AllPinned(IdxCols(singles, e), e, row, args)
  {
    var cols := IdxCols(singles, e);
    IdxColsDistinct(singles, e);
    if Matches(e, row, args) {
      MatchImpliesAllPinned(singles, e, row, args);
    } else if AllPinned(cols, e, row, args) {
      PinsCoverWhere(e, cols, row, args);
    }
  }

  lemma MatchImpliesAllPinned(singles: seq<nat>, e: Expr, row: Row, args: seq<Value>)
    requires BoundWithin(e, |row|) && Matches(e, row, args)
    ensures AllPinned(IdxCols(singles, e), e, row, args)
  {
    var cols := IdxCols(singles, e);
    forall i | 0 <= i < |cols| ensures cols[i] in EqConjuncts(e) && Pinned(row, cols[i], EqConjuncts(e)[cols[i]], args) {
      IdxColsMembers(singles, e, cols[i]);
      MatchImpliesPins(e, row, args, cols[i]);
    }
  }

  /** As many distinct pins as conjuncts leave no conjunct unpinned. */
  lemma PinsCoverWhere(e: Expr, cols: seq<nat>, row: Row, args: seq<Value>)
    requires BoundWithin(e, |row|) && |cols| == |Conjuncts(e)|
    requires Distinct(cols)
    requires AllPinned(cols, e, row, args)
    ensures Matches(e, row, args)
  {
    var conj := Conjuncts(e);
    ConjunctsMatchWhere(e, row, args);
    var f := PinPositions(e, cols);
    forall k | 0 <= k < |conj| ensures RowMatches(conj[k], row, args) {
      InjectionIsOnto(f, |cols|, k);
      var i :| 0 <= i < |f| && f[i] == k;
      assert cols[i] in cols;
      PinMeansEqual(conj[k], row, args);
      RowMatcherAgrees(conj[k], row, args);
    }
  }

  /** The conjunct each distinct pin comes from; distinct pins, distinct conjuncts. */
  lemma {:induction false} PinPositions(e: Expr, cols: seq<nat>) returns (f: seq<nat>)
    requires forall i :: 0 <= i < |cols| ==> cols[i] in EqConjuncts(e)
    requires Distinct(cols)
    ensures |f| == |cols|
    ensures forall i :: 0 <= i < |f| ==> f[i] < |Conjuncts(e)| && ColAndLit(Conjuncts(e)[f[i]]) == Some((cols[i], EqConjuncts(e)[cols[i]]))
    ensures Distinct(f)
  {
    f := [];
    if cols != [] {
      var last := |cols| - 1;
      var g := PinPositions(e, cols[..last]);
      var p := PinIsConjunct(e, cols[last]);
      f := g + [p];
    }
  }

  /** `planCompositeWalk`'s residual: conjuncts other than the exact pins of the prefix. */
  function Residual(conj: seq<Expr>, eqs: map<nat, Expr>, prefix: set<nat>): seq<Expr> {
    if conj == [] then []
    else
      var rest := Residual(conj[1..], eqs, prefix);
      if IsPrefixPin(conj[0], eqs, prefix) then rest else [conj[0]] + rest
  }

  predicate IsPrefixPin(c: Expr, eqs: map<nat, Expr>, prefix: set<nat>) {
    match ColAndLit(c)
    case Some((ord, src)) => ord in prefix && ord in eqs && src == eqs[ord]
    case None => false
  }

  lemma {:induction false} ResidualMatches(conj: seq<Expr>, eqs: map<nat, Expr>, prefix: set<nat>, row: Row, args: seq<Value>)
    requires AllBound(conj, |row|)
    ensures AllBound(Residual(conj, eqs, prefix), |row|)
    ensures AllMatch(Residual(conj, eqs, prefix), row, args)
        <==> forall i :: 0 <= i < |conj| && !IsPrefixPin(conj[i], eqs, prefix) ==> RowMatches(conj[i], row, args)
  {
    if conj != [] {
      var rest := Residual(conj[1..], eqs, prefix);
      ResidualMatches(conj[1..], eqs, prefix, row, args);
      var all := Residual(conj, eqs, prefix);
      if !IsPrefixPin(conj[0], eqs, prefix) {
        assert all == [conj[0]] + rest;
        assert AllMatch(all, row, args) ==> RowMatches(all[0], row, args) && AllMatch(rest, row, args) by {
          if AllMatch(all, row, args) {
            forall i | 0 <= i < |rest| ensures RowMatches(rest[i], row, args) { assert all[i + 1] == rest[i]; }
          }
        }
      }
      assert forall i :: 0 <= i < |conj[1..]| ==> conj[1..][i] == conj[i + 1];
    }
  }

  /** The pinned prefix plus the residual is the WHERE: the walk re-checks nothing
      it has already guaranteed and misses nothing else. */
  lemma PrefixAndResidualAreWhere(e: Expr, prefix: set<nat>, row: Row, args: seq<Value>)
    requires BoundWithin(e, |row|) && forall ord :: ord in prefix ==> ord in EqConjuncts(e)
    ensures AllBound(Residual(Conjuncts(e), EqConjuncts(e), prefix), |row|)
    ensures Matches(e, row, args) <==>
              && (forall ord :: ord in prefix ==> Pinned(row, ord, EqConjuncts(e)[ord], args))
              && AllMatch(Residual(Conjuncts(e), EqConjuncts(e), prefix), row, args)
  {
    var conj, eqs := Conjuncts(e), EqConjuncts(e);
    ConjunctsMatchWhere(e, row, args);
    ResidualMatches(conj, eqs, prefix, row, args);
    if Matches(e, row, args) {
      forall ord | ord in prefix ensures Pinned(row, ord, eqs[ord], args) {
        MatchImpliesPins(e, row, args, ord);
      }
    } else if (forall ord :: ord in prefix ==> Pinned(row, ord, eqs[ord], args)) && AllMatch(Residual(conj, eqs, prefix), row, args) {
      forall i | 0 <= i < |conj| ensures RowMatches(conj[i], row, args) {
        if IsPrefixPin(conj[i], eqs, prefix) {
          PinMeansEqual(conj[i], row, args);
          RowMatcherAgrees(conj[i], row, args);
        }
      }
    }
  }
}
