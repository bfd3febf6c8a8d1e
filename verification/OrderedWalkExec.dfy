/** The loops behind an ordered walk: seeking the index slice to the WHERE's range,
    gathering the overlay, merging the two streams, and both result forms
    (exec_select.go). */
module OrderedWalkExec {
  import opened Wrappers
  import opened Sequences
  import opened Values
  import opened Expressions
  import opened IndexOrder
  import opened OrderedWalks

  // ---- seekOrderedSnap ----

  /** `value OP col` read as `col flip(OP) value`. */
  function FlipRangeOp(op: Op): Op {
    match op
    case OpLt => OpGt
    case OpLte => OpGte
    case OpGt => OpLt
    case OpGte => OpLte
    case _ => op
  }

  datatype RangeBound = NoBound | RangeBound(val: Value, op: Op)

  /** The column-oriented operator and value of one conjunct, if it compares `ord`
      with a literal or a resolvable parameter. */
  function RangeOf(c: Expr, ord: nat, args: seq<Value>): RangeBound {
    if !c.Bin? then NoBound
    else if c.lhs.Col? && c.lhs.ord == ord && (c.rhs.Lit? || c.rhs.Param?) then
      match ResolveOperand(c.rhs, args)
      case Some(v) => RangeBound(v, c.op)
      case None => NoBound
    else if c.rhs.Col? && c.rhs.ord == ord && (c.lhs.Lit? || c.lhs.Param?) then
      match ResolveOperand(c.lhs, args)
      case Some(v) => RangeBound(v, FlipRangeOp(c.op))
      case None => NoBound
    else NoBound
  }

  predicate IsLower(b: RangeBound) { b.RangeBound? && (b.op.OpGt? || b.op.OpGte?) }
  predicate IsUpper(b: RangeBound) { b.RangeBound? && (b.op.OpLt? || b.op.OpLte?) }

  /** A cell of the bound's kind passes the conjunct exactly when its key passes the bound. */
  lemma RangeMeansBound(c: Expr, ord: nat, row: Row, args: seq<Value>)
    requires BoundWithin(c, |row|) && ord < |row|
    requires var b := RangeOf(c, ord, args); b.RangeBound? && CompareOp(b.op) && SameKind(row[ord], b.val)
    ensures var b := RangeOf(c, ord, args); var k, bk := KeyOf(row[ord]), KeyOf(b.val);
            Matches(c, row, args) <==> LessWith(b.op, KeyLess(k, bk), k == bk)
  {
    var b := RangeOf(c, ord, args);
    CompareSameKind(row[ord], b.val);
    KeyOrderIsValueOrder(row[ord], b.val);
    EqualIsIdentity(row[ord], b.val);
    if c.lhs.Col? && c.lhs.ord == ord && (c.rhs.Lit? || c.rhs.Param?) {
      assert Eval(c, row, args) == EvalBin(c.op, row[ord], b.val);
    } else {
      assert Eval(c, row, args) == EvalBin(c.op, b.val, row[ord]);
    }
  }

  /** `orderColumnRange`: the first lower and the first upper bound among the conjuncts. */
  method OrderColumnRange(conj: seq<Expr>, ord: nat, args: seq<Value>) returns (lo: RangeBound, hi: RangeBound)
    ensures lo.RangeBound? ==> IsLower(lo) && exists i :: 0 <= i < |conj| && RangeOf(conj[i], ord, args) == lo
    ensures hi.RangeBound? ==> IsUpper(hi) && exists i :: 0 <= i < |conj| && RangeOf(conj[i], ord, args) == hi
  {
    lo, hi := NoBound, NoBound;
    for i := 0 to |conj|
      invariant lo.RangeBound? ==> IsLower(lo) && exists j :: 0 <= j < i && RangeOf(conj[j], ord, args) == lo
      invariant hi.RangeBound? ==> IsUpper(hi) && exists j :: 0 <= j < i && RangeOf(conj[j], ord, args) == hi
    {
      var b := RangeOf(conj[i], ord, args);
      if IsLower(b) && lo.NoBound? {
        lo := b;
      } else if IsUpper(b) && hi.NoBound? {
        hi := b;
      }
    }
  }

  /** Entries outside the window fail a conjunct, whatever row they stand for. */
  ghost predicate Excluded(e: OrdEntry, ord: nat, where: Expr, args: seq<Value>) {
    forall row: Row :: ord < |row| && BoundWithin(where, |row|) && KeyOf(row[ord]) == e.key ==> !Matches(where, row, args)
  }

  lemma ConjunctExcludes(e: OrdEntry, ord: nat, where: Expr, args: seq<Value>, i: nat, kind: Kind)
    requires i < |Conjuncts(where)|
    requires var b := RangeOf(Conjuncts(where)[i], ord, args);
             b.RangeBound? && CompareOp(b.op) && KeyOf(b.val).Kind() == e.key.Kind() == kind != KindNull
             && !LessWith(b.op, KeyLess(e.key, KeyOf(b.val)), e.key == KeyOf(b.val))
    ensures Excluded(e, ord, where, args)
  {
    forall row: Row | ord < |row| && BoundWithin(where, |row|) && KeyOf(row[ord]) == e.key
      ensures !Matches(where, row, args)
    {
      ConjunctsMatchWhere(where, row, args);
      RowMatcherAgrees(Conjuncts(where)[i], row, args);
      KeyOfInjective(row[ord], row[ord]);
      KeyOfInjective(RangeOf(Conjuncts(where)[i], ord, args).val, row[ord]);
      RangeMeansBound(Conjuncts(where)[i], ord, row, args);
    }
  }

  /** Clips the ascending snapshot to the window the WHERE allows on the ORDER BY
      column; every entry cut off provably fails the WHERE. */
  method SeekOrderedSnap(snap: seq<OrdEntry>, where: Expr, ord: nat, args: seq<Value>, ghost kind: Kind)
    returns (start: nat, end: nat)
    requires Increasing(snap) && OneKind(snap, kind) && kind != KindNull
    ensures start <= end <= |snap|
    ensures forall i :: 0 <= i < |snap| && !(start <= i < end) ==> Excluded(snap[i], ord, where, args)
  {
    if |snap| == 0 {
      return 0, 0;
    }
    var lo, hi := OrderColumnRange(Conjuncts(where), ord, args);
    start, end := 0, |snap|;
    if lo.RangeBound? && !lo.val.Null? && KeyOf(lo.val).Kind() == snap[0].key.Kind() {
      start := SearchFrom(snap, KeyOf(lo.val), lo.op.OpGt?, kind);
      ghost var c :| 0 <= c < |Conjuncts(where)| && RangeOf(Conjuncts(where)[c], ord, args) == lo;
      forall i | 0 <= i < start ensures Excluded(snap[i], ord, where, args) {
        KeyLessTotal(snap[i].key, KeyOf(lo.val));
        ConjunctExcludes(snap[i], ord, where, args, c, kind);
      }
    }
    if hi.RangeBound? && !hi.val.Null? && KeyOf(hi.val).Kind() == snap[0].key.Kind() {
      end := SearchFrom(snap, KeyOf(hi.val), !hi.op.OpLt?, kind);
      ghost var c :| 0 <= c < |Conjuncts(where)| && RangeOf(Conjuncts(where)[c], ord, args) == hi;
      forall i | end <= i < |snap| ensures Excluded(snap[i], ord, where, args) {
        KeyLessTotal(snap[i].key, KeyOf(hi.val));
        ConjunctExcludes(snap[i], ord, where, args, c, kind);
      }
    }
    if start >= end {
      return 0, 0;
    }
  }

  /** `sort.Search` for the first entry whose key is above `k` (strict), or at least `k`. */
  method SearchFrom(snap: seq<OrdEntry>, k: IndexKey, strict: bool, ghost kind: Kind) returns (at: nat)
    requires Increasing(snap) && OneKind(snap, kind) && k.Kind() == kind
    ensures at <= |snap|
    ensures forall i :: 0 <= i < |snap| ==> (i < at <==> KeyLess(snap[i].key, k) || (strict && snap[i].key == k))
  {
    forall i, j | 0 <= i <= j < |snap|
      ensures !KeyLess(snap[i].key, k) ==> !KeyLess(snap[j].key, k)
      ensures KeyLess(k, snap[i].key) ==> KeyLess(k, snap[j].key)
    {
      KeyLessTotal(snap[i].key, snap[j].key);
      KeyLessTotal(snap[j].key, k);
      KeyLessTotal(snap[i].key, k);
      assert i < j ==> EntryLess(snap[i], snap[j]);
      if KeyLess(snap[i].key, snap[j].key) {
        if KeyLess(snap[j].key, k) { KeyLessTransitive(snap[i].key, snap[j].key, k); }
        if KeyLess(k, snap[i].key) { KeyLessTransitive(k, snap[i].key, snap[j].key); }
      }
    }
    var past := (i: nat) => i < |snap| && if strict then KeyLess(k, snap[i].key) else !KeyLess(snap[i].key, k);
    at := Search(|snap|, past);
    forall i: nat | i < |snap| ensures !past(i) <==> KeyLess(snap[i].key, k) || (strict && snap[i].key == k) {
      KeyLessTotal(snap[i].key, k);
    }
  }

  // ---- buildDirtyCands ----

  /** The overlay rows that pass the full WHERE, sorted by key, and every dirty
      primary key, which shadows its index entry. */
  method BuildDirtyCands(q: Query, dirty: seq<Uuid>) returns (cands: seq<OrdEntry>, shadow: set<Uuid>)
    requires ValidQuery(q)
    ensures shadow == set pk | pk in dirty
    ensures EntriesInOrder(cands, q.kind, false)
    ensures forall i :: 0 <= i < |cands| ==>
              cands[i].pk in shadow && Qualifies(q, cands[i].pk) && cands[i].key == KeyAt(q, cands[i].pk)
    ensures forall pk :: pk in shadow && Qualifies(q, pk) ==> Has(cands, pk)
  {
    cands, shadow := [], {};
    for i := 0 to |dirty|
      invariant shadow == set pk | pk in dirty[..i]
      invariant forall e {:trigger e in cands} :: e in cands <==> e.pk in shadow && Qualifies(q, e.pk) && e.key == KeyAt(q, e.pk)
      invariant forall a, b :: 0 <= a < b < |cands| ==> cands[a] != cands[b]
      invariant OneKind(cands, q.kind)
    {
      var pk := dirty[i];
      assert dirty[..i + 1] == dirty[..i] + [pk];
      if pk !in shadow {
        assert OrdEntry(KeyAt(q, pk), pk) !in cands;
        shadow := shadow + {pk};
        if Qualifies(q, pk) {
          cands := cands + [OrdEntry(KeyAt(q, pk), pk)];
        }
      }
    }
    assert dirty[..|dirty|] == dirty;
    ghost var gathered := cands;
    SortedIsSorted(cands, q.kind);
    cands := Sorted(cands);
    forall e ensures e in cands <==> e.pk in shadow && Qualifies(q, e.pk) && e.key == KeyAt(q, e.pk) {
      assert e in cands <==> e in gathered;
    }
    IncreasingInOrder(cands, q.kind);
    forall pk | pk in shadow && Qualifies(q, pk) ensures Has(cands, pk) {
      assert OrdEntry(KeyAt(q, pk), pk) in cands;
    }
    forall i | 0 <= i < |cands|
      ensures cands[i].pk in shadow && Qualifies(q, cands[i].pk) && cands[i].key == KeyAt(q, cands[i].pk)
    {
      assert cands[i] in cands;
    }
    forall i, j | 0 <= i < j < |cands| ensures cands[i].pk != cands[j].pk {
      assert cands[i] in cands && cands[j] in cands;
      EntryLessTotal(cands[i], cands[i]);
    }
  }

  lemma IncreasingInOrder(s: seq<OrdEntry>, kind: Kind)
    requires Increasing(s) && OneKind(s, kind)
    ensures forall i, j :: 0 <= i < j < |s| ==> !Before(s[j].key, s[i].key, false)
  {
    forall i, j | 0 <= i < j < |s| ensures !Before(s[j].key, s[i].key, false) {
      KeyLessTotal(s[i].key, s[j].key);
      assert EntryLess(s[i], s[j]);
    }
  }

  lemma DirectedInOrder(s: seq<OrdEntry>, kind: Kind, desc: bool)
    requires EntriesInOrder(s, kind, false)
    ensures EntriesInOrder(Directed(s, desc), kind, desc)
    ensures forall pk :: Has(Directed(s, desc), pk) <==> Has(s, pk)
  {
    var d := Directed(s, desc);
    if desc {
      forall i, j | 0 <= i < j < |d| ensures !Before(d[j].key, d[i].key, desc) && d[i].pk != d[j].pk {
        assert !Before(s[|s| - 1 - i].key, s[|s| - 1 - j].key, false);
      }
      forall pk ensures Has(d, pk) <==> Has(s, pk) {
        if Has(s, pk) {
          var i :| 0 <= i < |s| && s[i].pk == pk;
          assert d[|s| - 1 - i].pk == pk;
        }
        if Has(d, pk) {
          var i :| 0 <= i < |d| && d[i].pk == pk;
          assert s[|s| - 1 - i].pk == pk;
        }
      }
    }
  }

  // ---- mergeOrderedStreams ----

  /** The part of a slice a cursor has yet to visit, in the requested direction. */
  function Rest(s: seq<OrdEntry>, at: int, desc: bool): seq<OrdEntry>
    requires if desc then -1 <= at < |s| else 0 <= at <= |s|
  {
    if desc then Reverse(s[..at + 1]) else s[at..]
  }

  predicate InRange(s: seq<OrdEntry>, at: int) {
    0 <= at < |s|
  }

  function StepBy(at: int, desc: bool): int {
    if desc then at - 1 else at + 1
  }

  lemma RestStep(s: seq<OrdEntry>, at: int, desc: bool)
    requires if desc then -1 <= at < |s| else 0 <= at <= |s|
    ensures InRange(s, at) <==> Rest(s, at, desc) != []
    ensures InRange(s, at) ==> Rest(s, at, desc)[0] == s[at] && Rest(s, at, desc)[1..] == Rest(s, StepBy(at, desc), desc)
  {
    if desc && InRange(s, at) {
      assert Reverse(s[..at + 1])[1..] == Reverse(s[..at]);
    }
  }

  lemma EmitNext(start: Sink, all: seq<Uuid>, n: nat, sink: Sink, rest: seq<Uuid>)
    requires n <= |all| && all[n..] == rest && rest != [] && sink == EmitAll(start, all[..n])
    requires Running(start, all[..n]) && !Done(sink)
    ensures n < |all| && all[n + 1..] == rest[1..] && Emit(sink, rest[0]) == EmitAll(start, all[..n + 1])
    ensures Running(start, all[..n + 1])
  {
    var pks := all[..n + 1];
    assert pks[..|pks| - 1] == all[..n] && pks[|pks| - 1] == rest[0];
    forall m | 0 <= m < |pks| ensures !Done(EmitAll(start, pks[..m])) {
      if m < n {
        assert pks[..m] == all[..n][..m];
      }
    }
  }

  /** A cursor of one stream: in range, or one past the end in the requested direction. */
  predicate Cursor(s: seq<OrdEntry>, at: int, desc: bool) {
    if desc then -1 <= at < |s| else 0 <= at <= |s|
  }

  function Start(s: seq<OrdEntry>, desc: bool): (at: int)
    ensures Cursor(s, at, desc) && Rest(s, at, desc) == Directed(s, desc)
  {
    assert s[..|s|] == s;
    if desc then |s| - 1 else 0
  }

  /** One round of the merge: skips shadowed index entries, then takes the next entry of
      one stream. `next` is the row to emit, if its residual passed; `over` says both
      streams have ended. */
  method NextInOrder(q: Query, residual: Row -> bool, snap: seq<OrdEntry>, cands: seq<OrdEntry>, dirty: set<Uuid>, ii: int, dj: int)
    returns (i: int, j: int, next: Option<Uuid>, over: bool)
    requires Cursor(snap, ii, q.desc) && Cursor(cands, dj, q.desc)
    ensures Cursor(snap, i, q.desc) && Cursor(cands, j, q.desc)
    ensures Walk(q, residual, Rest(snap, ii, q.desc), Rest(cands, dj, q.desc), dirty)
         == (if next.Some? then [next.value] else []) + Walk(q, residual, Rest(snap, i, q.desc), Rest(cands, j, q.desc), dirty)
    ensures over ==> next.None? && Walk(q, residual, Rest(snap, i, q.desc), Rest(cands, j, q.desc), dirty) == []
    ensures !over ==> |Rest(snap, i, q.desc)| + |Rest(cands, j, q.desc)| < |Rest(snap, ii, q.desc)| + |Rest(cands, dj, q.desc)|
  {
    var desc := q.desc;
    i := SkipShadowed(q, residual, snap, cands, dirty, ii, dj);
    j, next, over := dj, None, false;
    RestStep(snap, i, desc);
    RestStep(cands, j, desc);
    if InRange(cands, j) && (!InRange(snap, i) || Before(cands[j].key, snap[i].key, desc)) {
      next := Some(cands[j].pk);
      j := StepBy(j, desc);
    } else if InRange(snap, i) {
      if Passes(q, residual, snap[i].pk) { next := Some(snap[i].pk); }
      i := StepBy(i, desc);
    } else {
      over := true;
    }
  }

  method SkipShadowed(q: Query, residual: Row -> bool, snap: seq<OrdEntry>, cands: seq<OrdEntry>, dirty: set<Uuid>, ii: int, dj: int)
    returns (i: int)
    requires Cursor(snap, ii, q.desc) && Cursor(cands, dj, q.desc)
    ensures Cursor(snap, i, q.desc) && |Rest(snap, i, q.desc)| <= |Rest(snap, ii, q.desc)|
    ensures InRange(snap, i) ==> snap[i].pk !in dirty
    ensures Walk(q, residual, Rest(snap, ii, q.desc), Rest(cands, dj, q.desc), dirty)
         == Walk(q, residual, Rest(snap, i, q.desc), Rest(cands, dj, q.desc), dirty)
  {
    i := ii;
    while InRange(snap, i) && snap[i].pk in dirty
      invariant Cursor(snap, i, q.desc) && |Rest(snap, i, q.desc)| <= |Rest(snap, ii, q.desc)|
      invariant Walk(q, residual, Rest(snap, ii, q.desc), Rest(cands, dj, q.desc), dirty)
             == Walk(q, residual, Rest(snap, i, q.desc), Rest(cands, dj, q.desc), dirty)
      decreases |Rest(snap, i, q.desc)|
    {
      RestStep(snap, i, q.desc);
      i := StepBy(i, q.desc);
    }
  }

  /** Walks both streams in the requested order, skipping shadowed index entries, and
      feeds the sink until it is done or both streams end. */
  method MergeOrderedStreams(q: Query, residual: Row -> bool, snap: seq<OrdEntry>, cands: seq<OrdEntry>, dirty: set<Uuid>, start: Sink)
    returns (sink: Sink, ghost n: nat)
    ensures Fed(start, sink, Walk(q, residual, Directed(snap, q.desc), Directed(cands, q.desc), dirty), n)
  {
    var desc := q.desc;
    ghost var all := Walk(q, residual, Directed(snap, desc), Directed(cands, desc), dirty);
    var ii, dj := Start(snap, desc), Start(cands, desc);
    sink, n := start, 0;
    assert all[..0] == [];
    while !Done(sink)
      invariant Cursor(snap, ii, desc) && Cursor(cands, dj, desc)
      invariant n <= |all| && all[n..] == Walk(q, residual, Rest(snap, ii, desc), Rest(cands, dj, desc), dirty)
      invariant sink == EmitAll(start, all[..n]) && Running(start, all[..n])
      decreases |Rest(snap, ii, desc)| + |Rest(cands, dj, desc)|
    {
      var i, j, next, over := NextInOrder(q, residual, snap, cands, dirty, ii, dj);
      if over { return; }
      if next.Some? {
        EmitNext(start, all, n, sink, all[n..]);
        sink, n := Emit(sink, next.value), n + 1;
      }
      ii, dj := i, j;
    }
  }

  // ---- the two entry points ----

  /** What the index invariant guarantees about the slice a walk reads: entries of
      clean live rows are current, the residual finishes their WHERE, and no clean
      qualifying row is missing. */
  ghost predicate SliceReady(q: Query, residual: Row -> bool, snap: seq<OrdEntry>, dirty: seq<Uuid>) {
    && ValidQuery(q) && EntriesInOrder(snap, q.kind, false)
    && (forall i :: 0 <= i < |snap| && snap[i].pk !in dirty && snap[i].pk in q.rows ==>
          KeyAt(q, snap[i].pk) == snap[i].key && (residual(q.rows[snap[i].pk]) <==> Qualifies(q, snap[i].pk)))
    && (forall pk :: Qualifies(q, pk) && pk !in dirty ==> Has(snap, pk))
  }

  lemma SliceWalkIsListing(q: Query, residual: Row -> bool, snap: seq<OrdEntry>, dirty: seq<Uuid>, cands: seq<OrdEntry>, shadow: set<Uuid>)
    requires SliceReady(q, residual, snap, dirty) && shadow == set pk | pk in dirty
    requires EntriesInOrder(cands, q.kind, false)
    requires forall i :: 0 <= i < |cands| ==>
               cands[i].pk in shadow && Qualifies(q, cands[i].pk) && cands[i].key == KeyAt(q, cands[i].pk)
    requires forall pk :: pk in shadow && Qualifies(q, pk) ==> Has(cands, pk)
    ensures Listing(q, Walk(q, residual, Directed(snap, q.desc), Directed(cands, q.desc), shadow))
  {
    DirectedInOrder(snap, q.kind, q.desc);
    DirectedInOrder(cands, q.kind, q.desc);
    WalkIsListing(q, residual, Directed(snap, q.desc), Directed(cands, q.desc), shadow);
  }

  /** The result of an ordered walk: the key sequence of scan, filter, sort and slice,
      carried by distinct qualifying rows. */
  ghost predicate OrderedResult(q: Query, out: seq<Uuid>, offset: nat, limit: int, quitAt: int) {
    && Distinct(out) && (forall i :: 0 <= i < |out| ==> Qualifies(q, out[i]))
    && forall r :: Listing(q, r) ==> Keys(q, out) == Keys(q, Cut(Slice(r, offset, limit), quitAt))
  }

  /** What a sliced walk delivers is one contiguous window of the listing. */
  lemma CutIsWindow(all: seq<Uuid>, offset: nat, limit: int, quitAt: int)
    ensures var out := Cut(Slice(all, offset, limit), quitAt);
            var a := if offset > |all| then |all| else offset;
            a + |out| <= |all| && out == all[a..a + |out|]
  {}

  lemma SliceIsResult(q: Query, all: seq<Uuid>, offset: nat, limit: int, quitAt: int)
    requires ValidQuery(q) && Listing(q, all)
    ensures OrderedResult(q, Cut(Slice(all, offset, limit), quitAt), offset, limit, quitAt)
  {
    var out := Cut(Slice(all, offset, limit), quitAt);
    var a := if offset > |all| then |all| else offset;
    CutIsWindow(all, offset, limit, quitAt);
    forall i | 0 <= i < |out| ensures Qualifies(q, out[i]) { assert out[i] == all[a + i] && all[a + i] in all; }
    forall r | Listing(q, r) ensures Keys(q, out) == Keys(q, Cut(Slice(r, offset, limit), quitAt)) {
      ListingsAgree(q, all, r);
      KeysOfSlice(q, all, offset, limit, quitAt);
      KeysOfSlice(q, r, offset, limit, quitAt);
    }
  }

  lemma KeysOfSlice(q: Query, s: seq<Uuid>, offset: nat, limit: int, quitAt: int)
    ensures var k := Slice(Keys(q, s), offset, limit);
            Keys(q, Cut(Slice(s, offset, limit), quitAt)) == if 0 <= quitAt < |k| then k[..quitAt] else k
  {}

  /** `orderedWalk`: collect offset+limit rows in order, then drop the offset. */
  method OrderedWalk(q: Query, residual: Row -> bool, snap: seq<OrdEntry>, dirty: seq<Uuid>, offset: nat, limit: int)
    returns (out: seq<Uuid>)
    requires SliceReady(q, residual, snap, dirty)
    ensures OrderedResult(q, out, offset, limit, -1)
  {
    var cands, shadow := BuildDirtyCands(q, dirty);
    ghost var all := Walk(q, residual, Directed(snap, q.desc), Directed(cands, q.desc), shadow);
    SliceWalkIsListing(q, residual, snap, dirty, cands, shadow);
    SliceIsResult(q, all, offset, limit, -1);
    if limit == 0 {
      assert Slice(all, offset, 0) == [];
      return [];
    }
    var sink;
    ghost var n;
    sink, n := MergeOrderedStreams(q, residual, snap, cands, shadow, Collect([], FetchBound(limit, offset)));
    CollectedSlice(all, n, sink, limit, offset);
    out := Slice(sink.out, offset, limit);
  }

  /** `orderedWalkEach`: the rows visited, OFFSET and LIMIT applied on the way; the
      visitor may ask to stop at its `quitAt`-th row. */
  method OrderedWalkEach(q: Query, residual: Row -> bool, snap: seq<OrdEntry>, dirty: seq<Uuid>, offset: nat, limit: int, quitAt: int)
    returns (visited: seq<Uuid>)
    requires SliceReady(q, residual, snap, dirty) && quitAt != 0
    ensures OrderedResult(q, visited, offset, limit, quitAt)
  {
    var cands, shadow := BuildDirtyCands(q, dirty);
    ghost var all := Walk(q, residual, Directed(snap, q.desc), Directed(cands, q.desc), shadow);
    SliceWalkIsListing(q, residual, snap, dirty, cands, shadow);
    SliceIsResult(q, all, offset, limit, quitAt);
    if limit == 0 {
      assert Slice(all, offset, 0) == [];
      return [];
    }
    var sink;
    ghost var n;
    sink, n := MergeOrderedStreams(q, residual, snap, cands, shadow, Stream(0, [], false, offset, limit, quitAt));
    StreamedSlice(all, n, sink, limit, offset, quitAt);
    visited := sink.delivered;
  }
}
