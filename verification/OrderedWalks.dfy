/** Serving ORDER BY from a sorted index merged with the dirty overlay, clipped to
    a range and bounded by LIMIT, against scan, filter, sort and slice
    (exec_select.go). */
module OrderedWalks {
  import opened Sequences
  import opened Values
  import opened IndexOrder

  // ---- the key order in the requested direction ----

  /** `a` comes strictly before `b` in the requested order. */
  predicate Before(a: IndexKey, b: IndexKey, desc: bool) {
    if desc then KeyLess(b, a) else KeyLess(a, b)
  }

  lemma BeforeTotal(a: IndexKey, b: IndexKey, desc: bool)
    requires a.Kind() == b.Kind()
    ensures Before(a, b, desc) || a == b || Before(b, a, desc)
    ensures !Before(a, a, desc) && !(Before(a, b, desc) && Before(b, a, desc))
  {
    KeyLessTotal(a, b);
    KeyLessTotal(b, a);
  }

  lemma NotBeforeTransitive(a: IndexKey, b: IndexKey, c: IndexKey, desc: bool)
    requires a.Kind() == b.Kind() == c.Kind()
    requires !Before(b, a, desc) && !Before(c, b, desc)
    ensures !Before(c, a, desc)
  {
    BeforeTotal(a, b, desc);
    BeforeTotal(b, c, desc);
    BeforeTotal(a, c, desc);
    if Before(a, b, desc) && Before(b, c, desc) {
      if desc { KeyLessTransitive(c, b, a); } else { KeyLessTransitive(a, b, c); }
    }
  }

  /** No key of the list comes after one it should precede. */
  ghost predicate InOrder(keys: seq<IndexKey>, desc: bool) {
    forall i, j :: 0 <= i < j < |keys| ==> !Before(keys[j], keys[i], desc)
  }

  ghost predicate KeysOfKind(keys: seq<IndexKey>, kind: Kind) {
    forall i :: 0 <= i < |keys| ==> keys[i].Kind() == kind
  }

  lemma InOrderTail(keys: seq<IndexKey>, desc: bool)
    requires keys != [] && InOrder(keys, desc)
    ensures InOrder(keys[1..], desc)
  {}

  /** Two ordered arrangements of the same keys are the same sequence: ties hold
      equal keys, so ORDER BY fixes the key sequence completely. */
  lemma {:induction false} OrderFixesKeys(a: seq<IndexKey>, b: seq<IndexKey>, kind: Kind, desc: bool)
    requires InOrder(a, desc) && InOrder(b, desc) && KeysOfKind(a, kind) && KeysOfKind(b, kind)
    requires multiset(a) == multiset(b)
    ensures a == b
  {
    assert |multiset(a)| == |a| && |multiset(b)| == |b|;
    if a != [] {
      HeadsAgree(a, b, kind, desc);
      InOrderTail(a, desc);
      InOrderTail(b, desc);
      assert a == [a[0]] + a[1..] && b == [b[0]] + b[1..];
      assert multiset(a) == multiset{a[0]} + multiset(a[1..]);
      assert multiset(b) == multiset{b[0]} + multiset(b[1..]);
      assert multiset(a[1..]) == multiset(a) - multiset{a[0]};
      assert multiset(b[1..]) == multiset(b) - multiset{b[0]};
      OrderFixesKeys(a[1..], b[1..], kind, desc);
    }
  }

  lemma HeadsAgree(a: seq<IndexKey>, b: seq<IndexKey>, kind: Kind, desc: bool)
    requires a != [] && b != [] && multiset(a) == multiset(b)
    requires InOrder(a, desc) && InOrder(b, desc) && KeysOfKind(a, kind) && KeysOfKind(b, kind)
    ensures a[0] == b[0]
  {
    assert a[0] in multiset(b) && b[0] in multiset(a);
    var i :| 0 <= i < |b| && b[i] == a[0];
    var j :| 0 <= j < |a| && a[j] == b[0];
    BeforeTotal(a[0], b[0], desc);
  }

  // ---- the reference: what ORDER BY, OFFSET and LIMIT promise ----

  /** One query over a table's live rows: the WHERE, and the sort key of each row. */
  datatype Query = Query(rows: map<Uuid, Row>, where: Row -> bool, keyFn: Row -> IndexKey, kind: Kind, desc: bool)

  ghost predicate ValidQuery(q: Query) {
    forall pk :: pk in q.rows ==> q.keyFn(q.rows[pk]).Kind() == q.kind
  }

  predicate Qualifies(q: Query, pk: Uuid) {
    pk in q.rows && q.where(q.rows[pk])
  }

  function KeyAt(q: Query, pk: Uuid): IndexKey {
    if pk in q.rows then q.keyFn(q.rows[pk]) else NullKey
  }

  function Keys(q: Query, pks: seq<Uuid>): seq<IndexKey> {
    seq(|pks|, i requires 0 <= i < |pks| => KeyAt(q, pks[i]))
  }

  /** `pks` is a result of scan, filter and sort: every qualifying row once, in order. */
  ghost predicate Listing(q: Query, pks: seq<Uuid>) {
    && Distinct(pks)
    && (forall pk {:trigger pk in pks} {:trigger Qualifies(q, pk)} :: pk in pks <==> Qualifies(q, pk))
    && InOrder(Keys(q, pks), q.desc)
  }

  /** `sliceOffsetLimit`; a negative limit means none. */
  function Slice<T>(s: seq<T>, offset: nat, limit: int): seq<T> {
    var rest := if offset > 0 then (if offset >= |s| then [] else s[offset..]) else s;
    if 0 <= limit < |rest| then rest[..limit] else rest
  }

  /** The rows from `offset` on, at most `limit` of them when it is not negative. */
  lemma SliceIs<T>(s: seq<T>, offset: nat, limit: int)
    ensures var out := Slice(s, offset, limit);
            && (limit >= 0 ==> |out| <= limit) && |out| <= |s|
            && (offset < |s| ==> |out| == |s| - offset || (|out| == limit && limit < |s| - offset))
            && (offset >= |s| ==> out == [])
            && forall i :: 0 <= i < |out| ==> offset + i < |s| && out[i] == s[offset + i]
  {}

  /** All listings of one query have the same key sequence. */
  lemma ListingsAgree(q: Query, a: seq<Uuid>, b: seq<Uuid>)
    requires ValidQuery(q) && Listing(q, a) && Listing(q, b)
    ensures Keys(q, a) == Keys(q, b)
  {
    SameSetSameKeys(q, a, b);
    forall i | 0 <= i < |a| ensures Keys(q, a)[i].Kind() == q.kind { assert a[i] in a; }
    forall i | 0 <= i < |b| ensures Keys(q, b)[i].Kind() == q.kind { assert b[i] in b; }
    OrderFixesKeys(Keys(q, a), Keys(q, b), q.kind, q.desc);
  }

  predicate SameMembers(a: seq<Uuid>, b: seq<Uuid>) {
    (forall i :: 0 <= i < |a| ==> a[i] in b) && (forall i :: 0 <= i < |b| ==> b[i] in a)
  }

  lemma {:induction false} SameSetSameKeys(q: Query, a: seq<Uuid>, b: seq<Uuid>)
    requires Distinct(a) && Distinct(b) && SameMembers(a, b)
    ensures multiset(Keys(q, a)) == multiset(Keys(q, b))
    decreases |a|
  {
    assert (a != [] ==> a[0] in b) && (b != [] ==> b[0] in a);
    if a != [] {
      var i :| 0 <= i < |b| && b[i] == a[0];
      WithoutKeepsMatch(a, b, 0, i);
      SameSetSameKeys(q, Without(a, 0), Without(b, i));
      KeysWithout(q, a, 0);
      KeysWithout(q, b, i);
    }
  }

  lemma WithoutKeepsMatch(a: seq<Uuid>, b: seq<Uuid>, i: nat, j: nat)
    requires i < |a| && j < |b| && a[i] == b[j]
    requires Distinct(a) && Distinct(b) && SameMembers(a, b)
    ensures Distinct(Without(a, i)) && Distinct(Without(b, j)) && SameMembers(Without(a, i), Without(b, j))
  {
    var a', b' := Without(a, i), Without(b, j);
    forall k | 0 <= k < |a'| ensures a'[k] in b' {
      WithoutMember(b, j, a'[k]);
      WithoutMember(a, i, a'[k]);
    }
    forall k | 0 <= k < |b'| ensures b'[k] in a' {
      WithoutMember(a, i, b'[k]);
      WithoutMember(b, j, b'[k]);
    }
  }

  lemma WithoutMember(a: seq<Uuid>, i: nat, pk: Uuid)
    requires i < |a| && Distinct(a)
    ensures pk in Without(a, i) <==> pk in a && pk != a[i]
  {
    if pk in a && pk != a[i] {
      var j :| 0 <= j < |a| && a[j] == pk;
      assert j < i ==> a[..i][j] == pk;
      assert j > i ==> a[i + 1..][j - i - 1] == pk;
    }
  }

  lemma KeysWithout(q: Query, a: seq<Uuid>, i: nat)
    requires i < |a|
    ensures multiset(Keys(q, a)) == multiset(Keys(q, Without(a, i))) + multiset{KeyAt(q, a[i])}
  {
    var l, r := Keys(q, a[..i]), Keys(q, a[i + 1..]);
    assert Keys(q, a) == l + [KeyAt(q, a[i])] + r;
    assert Keys(q, Without(a, i)) == l + r;
  }

  // ---- the merge of the index slice with the overlay ----

  /** Everything a walk reads: the index slice, the sorted overlay candidates, and
      the shadowed primary keys, all in the requested direction. */
  datatype Streams = Streams(snap: seq<OrdEntry>, cands: seq<OrdEntry>, dirty: set<Uuid>)

  function Reverse<T>(s: seq<T>): seq<T> {
    seq(|s|, i requires 0 <= i < |s| => s[|s| - 1 - i])
  }

  function Directed<T>(s: seq<T>, desc: bool): seq<T> {
    if desc then Reverse(s) else s
  }

  /** `emitIdx` delivers a row only if it is live and passes the residual. */
  predicate Passes(q: Query, residual: Row -> bool, pk: Uuid) {
    pk in q.rows && residual(q.rows[pk])
  }

  /** The rows a walk delivers from the two remaining streams, in order. */
  function Walk(q: Query, residual: Row -> bool, snap: seq<OrdEntry>, cands: seq<OrdEntry>, dirty: set<Uuid>): seq<Uuid>
    decreases |snap| + |cands|
  {
    if snap != [] && snap[0].pk in dirty then Walk(q, residual, snap[1..], cands, dirty)
    else if cands != [] && (snap == [] || Before(cands[0].key, snap[0].key, q.desc)) then
      [cands[0].pk] + Walk(q, residual, snap, cands[1..], dirty)
    else if snap != [] then
      (if Passes(q, residual, snap[0].pk) then [snap[0].pk] else []) + Walk(q, residual, snap[1..], cands, dirty)
    else []
  }

  /** What the index and the overlay together know, as the index invariant gives it:
      clean entries are current, clean qualifying rows are in the slice, the
      overlay holds every qualifying dirty row. */
  ghost predicate Ready(q: Query, residual: Row -> bool, snap: seq<OrdEntry>, cands: seq<OrdEntry>, dirty: set<Uuid>) {
    && ValidQuery(q)
    && EntriesInOrder(snap, q.kind, q.desc) && EntriesInOrder(cands, q.kind, q.desc)
    && (forall i :: 0 <= i < |snap| && snap[i].pk !in dirty && snap[i].pk in q.rows ==>
          KeyAt(q, snap[i].pk) == snap[i].key && (residual(q.rows[snap[i].pk]) <==> Qualifies(q, snap[i].pk)))
    && (forall i :: 0 <= i < |cands| ==>
          cands[i].pk in dirty && Qualifies(q, cands[i].pk) && cands[i].key == KeyAt(q, cands[i].pk))
  }

  ghost predicate EntriesInOrder(s: seq<OrdEntry>, kind: Kind, desc: bool) {
    && (forall i :: 0 <= i < |s| ==> s[i].key.Kind() == kind)
    && (forall i, j :: 0 <= i < j < |s| ==> !Before(s[j].key, s[i].key, desc) && s[i].pk != s[j].pk)
  }

  ghost predicate Has(s: seq<OrdEntry>, pk: Uuid) {
    exists i :: 0 <= i < |s| && s[i].pk == pk
  }

  lemma ReadyTail(q: Query, residual: Row -> bool, snap: seq<OrdEntry>, cands: seq<OrdEntry>, dirty: set<Uuid>)
    requires Ready(q, residual, snap, cands, dirty)
    ensures snap != [] ==> Ready(q, residual, snap[1..], cands, dirty)
    ensures cands != [] ==> Ready(q, residual, snap, cands[1..], dirty)
  {}

  lemma HasTail(s: seq<OrdEntry>, kind: Kind, desc: bool, pk: Uuid)
    requires s != [] && EntriesInOrder(s, kind, desc)
    ensures Has(s[1..], pk) <==> Has(s, pk) && pk != s[0].pk
  {
    if Has(s, pk) && pk != s[0].pk {
      var i :| 0 <= i < |s| && s[i].pk == pk;
      assert s[1..][i - 1].pk == pk;
    }
  }

  /** A walk delivers exactly the clean qualifying entries and the candidates. */
  lemma {:induction false} WalkMembers(q: Query, residual: Row -> bool, snap: seq<OrdEntry>, cands: seq<OrdEntry>, dirty: set<Uuid>, pk: Uuid)
    requires Ready(q, residual, snap, cands, dirty)
    ensures pk in Walk(q, residual, snap, cands, dirty)
        <==> (Has(snap, pk) && pk !in dirty && Qualifies(q, pk)) || Has(cands, pk)
    decreases |snap| + |cands|
  {
    ReadyTail(q, residual, snap, cands, dirty);
    if snap != [] && snap[0].pk in dirty {
      HasTail(snap, q.kind, q.desc, pk);
      WalkMembers(q, residual, snap[1..], cands, dirty, pk);
    } else if cands != [] && (snap == [] || Before(cands[0].key, snap[0].key, q.desc)) {
      HasTail(cands, q.kind, q.desc, pk);
      WalkMembers(q, residual, snap, cands[1..], dirty, pk);
    } else if snap != [] {
      HasTail(snap, q.kind, q.desc, pk);
      WalkMembers(q, residual, snap[1..], cands, dirty, pk);
    }
  }

  /** Nothing a walk still delivers comes before the bound both streams respect. */
  lemma {:induction false} WalkOrder(q: Query, residual: Row -> bool, snap: seq<OrdEntry>, cands: seq<OrdEntry>, dirty: set<Uuid>)
    requires Ready(q, residual, snap, cands, dirty)
    ensures var w := Walk(q, residual, snap, cands, dirty);
            InOrder(Keys(q, w), q.desc) && Distinct(w)
    decreases |snap| + |cands|
  {
    ReadyTail(q, residual, snap, cands, dirty);
    if snap != [] && snap[0].pk in dirty {
      WalkOrder(q, residual, snap[1..], cands, dirty);
    } else if cands != [] && (snap == [] || Before(cands[0].key, snap[0].key, q.desc)) {
      WalkOrder(q, residual, snap, cands[1..], dirty);
      var rest := Walk(q, residual, snap, cands[1..], dirty);
      forall i | 0 <= i < |rest|
        ensures rest[i] != cands[0].pk && !Before(KeyAt(q, rest[i]), cands[0].key, q.desc)
      {
        CandidateFirst(q, residual, snap, cands, dirty, rest[i]);
      }
      ConsInOrder(q, cands[0].pk, rest);
    } else if snap != [] {
      WalkOrder(q, residual, snap[1..], cands, dirty);
      var rest := Walk(q, residual, snap[1..], cands, dirty);
      assert [] + rest == rest;
      if Passes(q, residual, snap[0].pk) {
        forall i | 0 <= i < |rest|
          ensures rest[i] != snap[0].pk && !Before(KeyAt(q, rest[i]), snap[0].key, q.desc)
        {
          EntryFirst(q, residual, snap, cands, dirty, rest[i]);
        }
        ConsInOrder(q, snap[0].pk, rest);
      }
    }
  }

  lemma CandidateFirst(q: Query, residual: Row -> bool, snap: seq<OrdEntry>, cands: seq<OrdEntry>, dirty: set<Uuid>, pk: Uuid)
    requires Ready(q, residual, snap, cands, dirty) && cands != []
    requires snap == [] || Before(cands[0].key, snap[0].key, q.desc)
    requires pk in Walk(q, residual, snap, cands[1..], dirty)
    ensures pk != cands[0].pk && !Before(KeyAt(q, pk), cands[0].key, q.desc)
  {
    ReadyTail(q, residual, snap, cands, dirty);
    WalkMembers(q, residual, snap, cands[1..], dirty, pk);
    if Has(cands[1..], pk) {
      var i :| 0 <= i < |cands[1..]| && cands[1..][i].pk == pk;
      assert cands[i + 1].pk == pk;
    } else {
      var i :| 0 <= i < |snap| && snap[i].pk == pk;
      BeforeTotal(cands[0].key, snap[0].key, q.desc);
      if i > 0 { NotBeforeTransitive(cands[0].key, snap[0].key, snap[i].key, q.desc); }
    }
  }

  lemma EntryFirst(q: Query, residual: Row -> bool, snap: seq<OrdEntry>, cands: seq<OrdEntry>, dirty: set<Uuid>, pk: Uuid)
    requires Ready(q, residual, snap, cands, dirty) && snap != [] && snap[0].pk !in dirty
    requires cands == [] || !Before(cands[0].key, snap[0].key, q.desc)
    requires pk in Walk(q, residual, snap[1..], cands, dirty)
    ensures pk != snap[0].pk && !Before(KeyAt(q, pk), snap[0].key, q.desc)
  {
    ReadyTail(q, residual, snap, cands, dirty);
    WalkMembers(q, residual, snap[1..], cands, dirty, pk);
    if Has(cands, pk) {
      var i :| 0 <= i < |cands| && cands[i].pk == pk;
      if i > 0 { NotBeforeTransitive(snap[0].key, cands[0].key, cands[i].key, q.desc); }
    } else {
      var i :| 0 <= i < |snap[1..]| && snap[1..][i].pk == pk;
      assert snap[i + 1].pk == pk;
    }
  }

  lemma ConsInOrder(q: Query, pk: Uuid, rest: seq<Uuid>)
    requires InOrder(Keys(q, rest), q.desc) && Distinct(rest)
    requires forall i :: 0 <= i < |rest| ==> rest[i] != pk && !Before(KeyAt(q, rest[i]), KeyAt(q, pk), q.desc)
    ensures InOrder(Keys(q, [pk] + rest), q.desc) && Distinct([pk] + rest)
  {
    var all := [pk] + rest;
    forall i, j | 0 <= i < j < |all| ensures !Before(Keys(q, all)[j], Keys(q, all)[i], q.desc) {
      if i > 0 { assert Keys(q, all)[i] == Keys(q, rest)[i - 1] && Keys(q, all)[j] == Keys(q, rest)[j - 1]; }
    }
  }

  /** When the slice holds every clean qualifying row and the overlay every dirty
      one, the unbounded walk is a listing. */
  lemma WalkIsListing(q: Query, residual: Row -> bool, snap: seq<OrdEntry>, cands: seq<OrdEntry>, dirty: set<Uuid>)
    requires Ready(q, residual, snap, cands, dirty)
    requires forall pk :: Qualifies(q, pk) ==> if pk in dirty then Has(cands, pk) else Has(snap, pk)
    ensures Listing(q, Walk(q, residual, snap, cands, dirty))
  {
    WalkOrder(q, residual, snap, cands, dirty);
    forall pk ensures pk in Walk(q, residual, snap, cands, dirty) <==> Qualifies(q, pk) {
      WalkMembers(q, residual, snap, cands, dirty, pk);
    }
  }

  // ---- the two consumers: collect offset+limit rows, or stream them ----

  /** `Collect` is orderedWalk's accumulator; `Stream` is orderedWalkEach's, whose
      visitor asks to stop at its `quitAt`-th row (negative: never). */
  datatype Sink =
    | Collect(out: seq<Uuid>, eff: int)
    | Stream(skipped: nat, delivered: seq<Uuid>, stop: bool, offset: nat, limit: int, quitAt: int)

  predicate Done(k: Sink) {
    match k
    case Collect(out, eff) => eff >= 0 && |out| >= eff
    case Stream(_, _, stop, _, _, _) => stop
  }

  function Emit(k: Sink, pk: Uuid): Sink {
    match k
    case Collect(out, eff) => Collect(out + [pk], eff)
    case Stream(skipped, delivered, stop, offset, limit, quitAt) =>
      if skipped < offset then k.(skipped := skipped + 1)
      else
        var d := delivered + [pk];
        if quitAt >= 0 && |d| >= quitAt then k.(delivered := d, stop := true)
        else k.(delivered := d, stop := stop || (limit >= 0 && |d| >= limit))
  }

  function EmitAll(k: Sink, pks: seq<Uuid>): Sink {
    if pks == [] then k else Emit(EmitAll(k, pks[..|pks| - 1]), pks[|pks| - 1])
  }

  /** The merge fed the sink a prefix of the whole walk, and stopped only because the
      sink was done or the walk was over. */
  ghost predicate Fed(start: Sink, sink: Sink, all: seq<Uuid>, n: nat) {
    n <= |all| && sink == EmitAll(start, all[..n]) && (Done(sink) || n == |all|) && Running(start, all[..n])
  }

  /** The sink was not done before the last of these rows. */
  ghost predicate Running(start: Sink, pks: seq<Uuid>) {
    forall m :: 0 <= m < |pks| ==> !Done(EmitAll(start, pks[..m]))
  }

  lemma RunningStart(start: Sink, pks: seq<Uuid>, n: nat)
    requires Running(start, pks) && n <= |pks|
    ensures Running(start, pks[..n]) && (n < |pks| ==> !Done(EmitAll(start, pks[..n])))
  {
    forall m | 0 <= m < n ensures !Done(EmitAll(start, pks[..n][..m])) {
      assert pks[..n][..m] == pks[..m];
    }
  }

  lemma {:induction false} CollectAll(eff: int, pks: seq<Uuid>)
    ensures EmitAll(Collect([], eff), pks) == Collect(pks, eff)
  {
    if pks != [] {
      CollectAll(eff, pks[..|pks| - 1]);
      assert pks == pks[..|pks| - 1] + [pks[|pks| - 1]];
    }
  }

  /** `fetchBound`. */
  function FetchBound(limit: int, offset: nat): int {
    if limit < 0 then -1 else limit + offset
  }

  /** Collecting offset+limit rows and dropping the offset is slicing the whole walk. */
  lemma CollectedSlice(all: seq<Uuid>, n: nat, sink: Sink, limit: int, offset: nat)
    requires Fed(Collect([], FetchBound(limit, offset)), sink, all, n)
    ensures sink.Collect? && Slice(sink.out, offset, limit) == Slice(all, offset, limit)
  {
    var eff := FetchBound(limit, offset);
    CollectAll(eff, all[..n]);
    if eff >= 0 && n > eff {
      RunningStart(Collect([], eff), all[..n], eff);
      assert all[..n][..eff] == all[..eff];
      CollectAll(eff, all[..eff]);
    }
  }

  /** Rows delivered by a stream: the slice, cut where the visitor quits. */
  function Cut(s: seq<Uuid>, quitAt: int): seq<Uuid> {
    if 0 <= quitAt < |s| then s[..quitAt] else s
  }

  /** How many rows a stream has delivered after `n`. */
  function Passed(n: nat, offset: nat): nat {
    if n < offset then 0 else n - offset
  }

  /** The stream's state after the rows `pks`. */
  ghost predicate Streamed(k: Sink, pks: seq<Uuid>, offset: nat, limit: int, quitAt: int) {
    var d := Passed(|pks|, offset);
    && k.Stream? && k.offset == offset && k.limit == limit && k.quitAt == quitAt
    && k.skipped == |pks| - d && k.delivered == pks[|pks| - d..]
    && (limit >= 0 ==> d <= limit) && (quitAt >= 0 ==> d <= quitAt)
    && (k.stop <==> d == limit || d == quitAt)
  }

  lemma StreamStep(k: Sink, pks: seq<Uuid>, pk: Uuid, offset: nat, limit: int, quitAt: int)
    requires limit != 0 && quitAt != 0 && Streamed(k, pks, offset, limit, quitAt) && !k.stop
    ensures Streamed(Emit(k, pk), pks + [pk], offset, limit, quitAt)
  {
    var all := pks + [pk];
    if |pks| < offset {
      assert all[|all|..] == [];
    } else {
      assert all[offset..] == pks[offset..] + [pk];
    }
  }

  lemma {:induction false} StreamAll(pks: seq<Uuid>, offset: nat, limit: int, quitAt: int)
    requires limit != 0 && quitAt != 0 && Running(Stream(0, [], false, offset, limit, quitAt), pks)
    ensures Streamed(EmitAll(Stream(0, [], false, offset, limit, quitAt), pks), pks, offset, limit, quitAt)
  {
    if pks != [] {
      var start, init, pk := Stream(0, [], false, offset, limit, quitAt), pks[..|pks| - 1], pks[|pks| - 1];
      RunningStart(start, pks, |pks| - 1);
      StreamAll(init, offset, limit, quitAt);
      StreamSnoc(start, init, pk, offset, limit, quitAt);
      assert pks == init + [pk];
    }
  }

  lemma StreamSnoc(start: Sink, init: seq<Uuid>, pk: Uuid, offset: nat, limit: int, quitAt: int)
    requires limit != 0 && quitAt != 0 && Streamed(EmitAll(start, init), init, offset, limit, quitAt) && !Done(EmitAll(start, init))
    ensures Streamed(EmitAll(start, init + [pk]), init + [pk], offset, limit, quitAt)
  {
    StreamStep(EmitAll(start, init), init, pk, offset, limit, quitAt);
    EmitSnoc(start, init, pk);
  }

  lemma EmitSnoc(k: Sink, init: seq<Uuid>, pk: Uuid)
    ensures EmitAll(k, init + [pk]) == Emit(EmitAll(k, init), pk)
  {
    assert (init + [pk])[..|init|] == init;
  }

  /** The streaming form delivers the same rows as the materialising one, cut only
      where its visitor asked. */
  lemma StreamedSlice(all: seq<Uuid>, n: nat, sink: Sink, limit: int, offset: nat, quitAt: int)
    requires limit != 0 && quitAt != 0
    requires Fed(Stream(0, [], false, offset, limit, quitAt), sink, all, n)
    ensures sink.Stream? && sink.delivered == Cut(Slice(all, offset, limit), quitAt)
  {
    StreamAll(all[..n], offset, limit, quitAt);
    var d := Passed(n, offset);
    assert all[..n][n - d..] == all[n - d..n];
    WindowIsSlice(all, n, limit, offset, quitAt);
  }

  lemma WindowIsSlice(all: seq<Uuid>, n: nat, limit: int, offset: nat, quitAt: int)
    requires limit != 0 && quitAt != 0 && n <= |all|
    requires var d := Passed(n, offset); (limit >= 0 ==> d <= limit) && (quitAt >= 0 ==> d <= quitAt)
    requires var d := Passed(n, offset); n == |all| || d == limit || d == quitAt
    ensures all[n - Passed(n, offset)..n] == Cut(Slice(all, offset, limit), quitAt)
  {
    var d := Passed(n, offset);
    if |all| > offset {
      assert Slice(all, offset, limit) == Slice(all[offset..], 0, limit);
      if d > 0 { DropThenTake(all, offset, n); }
    }
  }

  lemma DropThenTake<T>(s: seq<T>, from: nat, to: nat)
    requires from <= to <= |s|
    ensures s[from..to] == s[from..][..to - from]
  {}
}
