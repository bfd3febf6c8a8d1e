/** One secondary index: the forward and reverse maps of a hash index, and the
    reverse map plus sorted view of an ordered one (secindex.go). */
module SecIndexes {
  import opened Wrappers
  import opened ByteStrings
  import opened Values
  import opened CompositeKeys
  import opened IndexOrder
  import opened Sequences

  /** What one `apply` does to the reverse map. */
  function ApplyRev(rev: map<Uuid, IndexKey>, pk: Uuid, key: Option<IndexKey>): map<Uuid, IndexKey> {
    match key
    case Some(k) => rev[pk := k]
    case None => rev - {pk}
  }

  /** The primary keys a map of pk to key holds under `k`, as a result lists them. */
  ghost predicate ListsKey(out: seq<Uuid>, m: map<Uuid, IndexKey>, k: IndexKey) {
    && Distinct(out)
    && (forall pk {:trigger pk in out} :: pk in out <==> pk in m && m[pk] == k)
  }

  /** The same for every key of the map that starts with `prefix`. */
  ghost predicate ListsPrefix(out: seq<Uuid>, m: map<Uuid, IndexKey>, prefix: Bytes) {
    && Distinct(out)
    && (forall pk {:trigger pk in out} :: pk in out <==> pk in m && m[pk].BytesKey? && prefix <= m[pk].s)
  }

  /** Buckets of a hash index: no empty bucket, no duplicate, and the inverse of `rev`. */
  ghost predicate FwdMatches(fwd: map<IndexKey, seq<Uuid>>, rev: map<Uuid, IndexKey>) {
    && (forall k :: k in fwd ==> fwd[k] != [])
    && (forall k :: k in fwd ==> ListsKey(fwd[k], rev, k))
    && (forall pk :: pk in rev ==> rev[pk] in fwd)
  }

  // ---- the two-way merge ----

  /** The old view without the changed keys, merged with their current entries. */
  function Merge(prev: seq<OrdEntry>, add: seq<OrdEntry>, dirty: set<Uuid>): seq<OrdEntry>
    decreases |prev| + |add|
  {
    if prev == [] then add
    else if prev[0].pk in dirty then Merge(prev[1..], add, dirty)
    else if add == [] || EntryLess(prev[0], add[0]) then [prev[0]] + Merge(prev[1..], add, dirty)
    else [add[0]] + Merge(prev, add[1..], dirty)
  }

  /** What one round of the merge moves to the output. */
  lemma MergeNext(prev: seq<OrdEntry>, add: seq<OrdEntry>, dirty: set<Uuid>, i: nat, j: nat, out: seq<OrdEntry>)
    requires i < |prev| && j <= |add|
    ensures out + Merge(prev[i..], add[j..], dirty) ==
              if prev[i].pk in dirty then out + Merge(prev[i + 1..], add[j..], dirty)
              else if j == |add| || EntryLess(prev[i], add[j]) then (out + [prev[i]]) + Merge(prev[i + 1..], add[j..], dirty)
              else (out + [add[j]]) + Merge(prev[i..], add[j + 1..], dirty)
  {
    assert prev[i..][1..] == prev[i + 1..];
    if j < |add| { assert add[j..][1..] == add[j + 1..]; }
  }

  lemma {:induction false} MergeMembers(prev: seq<OrdEntry>, add: seq<OrdEntry>, dirty: set<Uuid>, e: OrdEntry)
    ensures e in Merge(prev, add, dirty) <==> (e in prev && e.pk !in dirty) || e in add
    decreases |prev| + |add|
  {
    if prev != [] {
      assert prev == [prev[0]] + prev[1..];
      if prev[0].pk in dirty || add == [] || EntryLess(prev[0], add[0]) {
        MergeMembers(prev[1..], add, dirty, e);
      } else {
        MergeMembers(prev, add[1..], dirty, e);
        assert add == [add[0]] + add[1..];
      }
    }
  }

  ghost predicate Below(x: OrdEntry, s: seq<OrdEntry>) {
    forall e :: e in s ==> EntryLess(x, e)
  }

  lemma HeadBelow(s: seq<OrdEntry>)
    requires s != [] && Increasing(s)
    ensures Below(s[0], s[1..]) && Increasing(s[1..])
  {
    forall e | e in s[1..] ensures EntryLess(s[0], e) {
      var i :| 0 <= i < |s[1..]| && s[1..][i] == e;
      assert s[i + 1] == e;
    }
  }

  lemma ConsIncreasing(x: OrdEntry, s: seq<OrdEntry>)
    requires Below(x, s) && Increasing(s)
    ensures Increasing([x] + s)
  {
    forall i | 0 <= i < |s| ensures EntryLess(x, s[i]) { assert s[i] in s; }
  }

  lemma BelowTransitive(x: OrdEntry, s: seq<OrdEntry>, kind: Kind)
    requires OneKind(s, kind) && x.key.Kind() == kind && s != [] && Increasing(s) && EntryLess(x, s[0])
    ensures Below(x, s)
  {
    HeadBelow(s);
    forall e | e in s ensures EntryLess(x, e) {
      assert e != s[0] ==> e in s[1..] by { assert s == [s[0]] + s[1..]; }
      if e != s[0] { EntryLessTransitive(x, s[0], e); }
    }
  }

  /** The merge of two increasing views is increasing: this needs the changed
      entries never to share a primary key with a kept one. */
  lemma {:induction false} MergeIncreasing(prev: seq<OrdEntry>, add: seq<OrdEntry>, dirty: set<Uuid>, kind: Kind)
    requires Increasing(prev) && Increasing(add) && OneKind(prev, kind) && OneKind(add, kind)
    requires forall e :: e in add ==> e.pk in dirty
    ensures Increasing(Merge(prev, add, dirty))
    decreases |prev| + |add|
  {
    if prev != [] {
      HeadBelow(prev);
      if prev[0].pk in dirty {
        MergeIncreasing(prev[1..], add, dirty, kind);
      } else if add == [] || EntryLess(prev[0], add[0]) {
        MergeIncreasing(prev[1..], add, dirty, kind);
        var rest := Merge(prev[1..], add, dirty);
        if add != [] { BelowTransitive(prev[0], add, kind); }
        forall e | e in rest ensures EntryLess(prev[0], e) { MergeMembers(prev[1..], add, dirty, e); }
        ConsIncreasing(prev[0], rest);
      } else {
        assert add[0] in add;
        EntryLessTotal(add[0], prev[0]);
        HeadBelow(add);
        forall e | e in add[1..] ensures e.pk in dirty { assert e in add; }
        MergeIncreasing(prev, add[1..], dirty, kind);
        var rest := Merge(prev, add[1..], dirty);
        BelowTransitive(add[0], prev, kind);
        forall e | e in rest ensures EntryLess(add[0], e) { MergeMembers(prev, add[1..], dirty, e); }
        ConsIncreasing(add[0], rest);
      }
    }
  }

  /** If `prev` is the view of `was` and only `dirty` keys changed, merging in the
      dirty keys' current entries yields the view of `rev`. */
  lemma MergeIsSortedView(prev: seq<OrdEntry>, was: map<Uuid, IndexKey>, rev: map<Uuid, IndexKey>,
                          add: seq<OrdEntry>, dirty: set<Uuid>, kind: Kind)
    requires SortedView(prev, was) && OneKind(prev, kind) && Increasing(add) && OneKind(add, kind)
    requires forall pk :: pk !in dirty ==> (pk in was <==> pk in rev) && (pk in was ==> was[pk] == rev[pk])
    requires forall e {:trigger e in add} :: e in add <==> e.pk in dirty && Holds(rev, e)
    ensures SortedView(Merge(prev, add, dirty), rev)
  {
    MergeIncreasing(prev, add, dirty, kind);
    forall e ensures e in Merge(prev, add, dirty) <==> Holds(rev, e) {
      MergeMembers(prev, add, dirty, e);
      assert e in prev <==> Holds(was, e);
    }
  }

  lemma ViewOneKind(s: seq<OrdEntry>, m: map<Uuid, IndexKey>, kind: Kind)
    requires SortedView(s, m) && forall pk :: pk in m ==> m[pk].Kind() == kind
    ensures OneKind(s, kind)
  {
    forall i | 0 <= i < |s| ensures s[i].key.Kind() == kind { assert s[i] in s && Holds(m, s[i]); }
  }

  /** Ordered entries split at any key or byte prefix into runs. */
  lemma SortedKeys(s: seq<OrdEntry>, kind: Kind, i: nat, j: nat)
    requires Increasing(s) && OneKind(s, kind) && i <= j < |s|
    ensures !KeyLess(s[j].key, s[i].key)
  {
    KeyLessTotal(s[i].key, s[j].key);
    KeyLessTotal(s[i].key, s[i].key);
    assert i < j ==> EntryLess(s[i], s[j]);
  }

  /** Positions of one run of a sorted view list each primary key of the run once. */
  lemma RunLists(s: seq<OrdEntry>, m: map<Uuid, IndexKey>, lo: nat, hi: nat, pks: seq<Uuid>)
    requires SortedView(s, m) && lo <= hi <= |s| && |pks| == hi - lo
    requires forall i :: 0 <= i < |pks| ==> pks[i] == s[lo + i].pk
    ensures Distinct(pks)
    ensures forall pk {:trigger pk in pks} :: pk in pks <==> exists i :: lo <= i < hi && s[i].pk == pk
    ensures forall i :: 0 <= i < |s| ==> s[i].pk in m && m[s[i].pk] == s[i].key
    ensures forall pk :: pk in m ==> exists i :: 0 <= i < |s| && s[i].pk == pk && s[i].key == m[pk]
  {
    forall i | 0 <= i < |s| ensures s[i].pk in m && m[s[i].pk] == s[i].key { assert s[i] in s; }
    forall i, j | 0 <= i < j < |pks| ensures pks[i] != pks[j] {
      var a, b := s[lo + i], s[lo + j];
      assert EntryLess(a, b);
      if a.pk == b.pk {
        assert a == b;
        EntryLessTotal(a, a);
      }
    }
    forall pk ensures pk in pks <==> exists i :: lo <= i < hi && s[i].pk == pk {
      if i :| lo <= i < hi && s[i].pk == pk { assert pks[i - lo] == pk; }
    }
    forall pk | pk in m ensures exists i :: 0 <= i < |s| && s[i].pk == pk && s[i].key == m[pk] {
      assert Holds(m, OrdEntry(m[pk], pk));
    }
  }

  /** `out` is what a lookup of `k` yields, each primary key once. */
  ghost predicate ListsBucket(out: seq<Uuid>, m: map<Uuid, IndexKey>, ordered: bool, k: IndexKey) {
    && Distinct(out)
    && (forall pk {:trigger pk in out} :: pk in out <==> InBucket(m, ordered, k, pk))
  }

  lemma BucketSize(out: seq<Uuid>, m: map<Uuid, IndexKey>, ordered: bool, k: IndexKey)
    requires ListsBucket(out, m, ordered, k)
    ensures out != [] <==> exists p :: InBucket(m, ordered, k, p)
    ensures |out| == 1 <==> exists p :: ListsBucket([p], m, ordered, k)
  {
    if out != [] { assert out[0] in out && InBucket(m, ordered, k, out[0]); }
    if p :| InBucket(m, ordered, k, p) { assert p in out; }
    if |out| == 1 { assert out == [out[0]]; }
    if |out| > 1 { assert out[0] in out && out[1] in out; TwoAreNotOne(out[0], out[1], m, ordered, k); }
    if out == [] && exists p :: ListsBucket([p], m, ordered, k) {
      var p :| ListsBucket([p], m, ordered, k);
      assert p in [p];
    }
  }

  lemma TwoAreNotOne(a: Uuid, b: Uuid, m: map<Uuid, IndexKey>, ordered: bool, k: IndexKey)
    requires a != b && InBucket(m, ordered, k, a) && InBucket(m, ordered, k, b)
    ensures !exists p :: ListsBucket([p], m, ordered, k)
  {
    forall p ensures !ListsBucket([p], m, ordered, k) {
      assert a in [p] <==> a == p;
      assert b in [p] <==> b == p;
    }
  }

  /** An entry the walk reaches without being stopped. */
  lemma WalkReaches(s: seq<OrdEntry>, m: map<Uuid, IndexKey>, kind: Kind, k: IndexKey, lo: nat, j: nat)
    requires SortedView(s, m) && OneKind(s, kind) && lo <= j < |s|
    requires forall i :: 0 <= i < |s| ==> (i < lo <==> LessAcross(s[i].key, k))
    requires forall i :: lo <= i <= j ==> !LessAcross(k, s[i].key)
    ensures InBucket(m, true, k, s[j].pk)
  {
    RunLists(s, m, 0, 0, []);
    forall p | p in m && Stops(m[p], k) ensures !KeyLess(m[p], m[s[j].pk]) {
      var q :| 0 <= q < |s| && s[q].pk == p && s[q].key == m[p];
      SortedKeys(s, kind, j, if q < j then j else q);
    }
  }

  /** The walk from the first entry not below `k` to the first that stops it. */
  lemma RunIsBucket(s: seq<OrdEntry>, m: map<Uuid, IndexKey>, kind: Kind, k: IndexKey, lo: nat, hi: nat, out: seq<Uuid>)
    requires SortedView(s, m) && OneKind(s, kind) && lo <= hi <= |s| && |out| == hi - lo
    requires forall i :: 0 <= i < |out| ==> out[i] == s[lo + i].pk
    requires forall i :: 0 <= i < |s| ==> (i < lo <==> LessAcross(s[i].key, k))
    requires forall i :: lo <= i < hi ==> !LessAcross(k, s[i].key)
    requires hi < |s| ==> LessAcross(k, s[hi].key)
    ensures ListsBucket(out, m, true, k)
  {
    RunLists(s, m, lo, hi, out);
    forall j | 0 <= j < |s| ensures lo <= j < hi <==> InBucket(m, true, k, s[j].pk) {
      if lo <= j < hi {
        WalkReaches(s, m, kind, k, lo, j);
      } else if j >= hi && Ties(s[j].key, k) {
        SortedKeys(s, kind, hi, j);
        KeyLessTotal(s[hi].key, s[j].key);
        assert s[hi].pk in m && m[s[hi].pk] == s[hi].key;
        assert Stops(m[s[hi].pk], k);
      }
    }
    forall pk ensures pk in out <==> InBucket(m, true, k, pk) {
      if pk in m {
        var q :| 0 <= q < |s| && s[q].pk == pk && s[q].key == m[pk];
        if i :| lo <= i < hi && s[i].pk == pk { assert InBucket(m, true, k, s[i].pk); }
      }
    }
  }

  class SecIndex {
    const ordered: bool
    /** The one kind all keys of this index share. */
    const kind: Kind
    var fwd: map<IndexKey, seq<Uuid>>
    var rev: map<Uuid, IndexKey>
    var sorted: seq<OrdEntry>
    /** What readers see: the map the buckets or the sorted slice stand for. */
    ghost var View: map<Uuid, IndexKey>

    ghost predicate Valid()
      reads this
    {
      && (forall pk :: pk in rev ==> rev[pk].Kind() == kind)
      && (forall pk :: pk in View ==> View[pk].Kind() == kind)
      && (if ordered then SortedView(sorted, View) && OneKind(sorted, kind) else FwdMatches(fwd, rev) && View == rev)
    }

    constructor (ordered: bool, kind: Kind)
      ensures Valid() && rev == map[] && View == map[]
      ensures this.ordered == ordered && this.kind == kind
    {
      this.ordered, this.kind := ordered, kind;
      fwd, rev, sorted, View := map[], map[], [], map[];
    }

    /** Records pk's current key, or drops it when the row is gone or its cell is
        NULL. An ordered index reports exactly whether its reverse map changed. */
    method Apply(pk: Uuid, newKey: Option<IndexKey>) returns (changed: bool)
      requires Valid() && (newKey.Some? ==> newKey.value.Kind() == kind)
      modifies this
      ensures Valid() && rev == ApplyRev(old(rev), pk, newKey)
      ensures ordered ==> View == old(View) && sorted == old(sorted) && (changed <==> rev != old(rev))
      ensures !ordered ==> View == rev && (!changed ==> rev == old(rev))
    {
      var had := pk in rev;
      if ordered {
        if newKey.Some? {
          if had && rev[pk] == newKey.value {
            return false;
          }
          rev := rev[pk := newKey.value];
          assert rev[pk] == newKey.value;
        } else {
          if !had {
            assert rev - {pk} == rev;
            return false;
          }
          rev := rev - {pk};
        }
        return true;
      }
      if had && newKey.Some? && rev[pk] == newKey.value {
        assert rev[pk := newKey.value] == rev;
        return false;
      }
      if had {
        RemoveFwd(rev[pk], pk);
      } else {
        assert rev - {pk} == rev;
      }
      if newKey.Some? {
        AppendFwd(newKey.value, pk);
      }
      View := rev;
      return true;
    }

    /** Swap-removes pk from k's bucket, dropping the bucket when it empties. */
    method RemoveFwd(k: IndexKey, pk: Uuid)
      requires FwdMatches(fwd, rev) && pk in rev && rev[pk] == k
      modifies this`fwd, this`rev
      ensures rev == old(rev) - {pk} && FwdMatches(fwd, rev)
    {
      var b := fwd[k];
      var i := 0;
      while i < |b| && b[i] != pk
        invariant i <= |b| && pk !in b[..i]
      {
        i := i + 1;
      }
      assert pk in b && b[..|b|] == b;
      var last := |b| - 1;
      ghost var full := b;
      b := b[i := b[last]][..last];
      SwapRemoved(full, i, b);
      if |b| == 0 {
        fwd := fwd - {k};
      } else {
        fwd := fwd[k := b];
      }
      rev := rev - {pk};
      forall p | p in rev ensures rev[p] in fwd {
        assert rev[p] == k ==> p in full && p in b;
      }
    }

    lemma SwapRemoved(full: seq<Uuid>, i: nat, b: seq<Uuid>)
      requires i < |full| && b == full[i := full[|full| - 1]][..|full| - 1]
      requires forall x, y :: 0 <= x < y < |full| ==> full[x] != full[y]
      ensures forall x, y :: 0 <= x < y < |b| ==> b[x] != b[y]
      ensures forall p {:trigger p in b} :: p in b <==> p in full && p != full[i]
    {
      forall p | p in full && p != full[i] ensures p in b {
        var x :| 0 <= x < |full| && full[x] == p;
        assert x < |b| ==> b[x] == p;
        assert x == |full| - 1 ==> b[i] == p;
      }
    }

    method AppendFwd(k: IndexKey, pk: Uuid)
      requires FwdMatches(fwd, rev) && pk !in rev
      modifies this`fwd, this`rev
      ensures rev == old(rev)[pk := k] && FwdMatches(fwd, rev)
    {
      var b := if k in fwd then fwd[k] else [];
      assert pk !in b;
      fwd := fwd[k := b + [pk]];
      rev := rev[pk := k];
      forall k' | k' in fwd ensures ListsKey(fwd[k'], rev, k') {
        assert k' != k ==> ListsKey(old(fwd)[k'], old(rev), k');
      }
    }

    /** Regenerates the sorted view from the reverse map: the cold build. */
    method RebuildSorted()
      requires Valid() && ordered
      modifies this`sorted, this`View
      ensures Valid() && View == rev
    {
      var s := Collect(rev.Keys);
      SortedIsSorted(s, kind);
      sorted := Sorted(s);
      View := rev;
    }

    /** Ranges over `keys` and gathers the entries still in the reverse map. */
    method Collect(keys: set<Uuid>) returns (s: seq<OrdEntry>)
      requires forall pk :: pk in rev ==> rev[pk].Kind() == kind
      ensures Distinct(s)
      ensures OneKind(s, kind)
      ensures forall e {:trigger e in s} :: e in s <==> e.pk in keys && Holds(rev, e)
    {
      s := [];
      var todo := keys;
      while todo != {}
        invariant todo <= keys && OneKind(s, kind)
        invariant Distinct(s)
        invariant forall e {:trigger e in s} :: e in s <==> e.pk in keys && e.pk !in todo && Holds(rev, e)
      {
        var pk :| pk in todo;
        if pk in rev {
          assert OrdEntry(rev[pk], pk) !in s;
          s := s + [OrdEntry(rev[pk], pk)];
        }
        todo := todo - {pk};
      }
    }

    /** Folds the changed primary keys into the sorted view without a full sort.
        The result is the one RebuildSorted would give, by SortedViewUnique. */
    method MergeSorted(dirtyPks: seq<Uuid>)
      requires Valid() && ordered
      requires forall pk :: pk !in dirtyPks ==> (pk in View <==> pk in rev) && (pk in View ==> View[pk] == rev[pk])
      modifies this`sorted, this`View
      ensures Valid() && View == rev
    {
      var dirty := set pk | pk in dirtyPks;
      var add := Collect(dirty);
      SortedIsSorted(add, kind);
      add := Sorted(add);
      var out := MergeStreams(sorted, add, dirty);
      MergeIsSortedView(sorted, View, rev, add, dirty, kind);
      sorted := out;
      View := rev;
      ViewOneKind(sorted, View, kind);
    }

    static method MergeStreams(prev: seq<OrdEntry>, add: seq<OrdEntry>, dirty: set<Uuid>) returns (out: seq<OrdEntry>)
      ensures out == Merge(prev, add, dirty)
    {
      out := [];
      var i, j := 0, 0;
      while i < |prev| && j < |add|
        invariant i <= |prev| && j <= |add|
        invariant out + Merge(prev[i..], add[j..], dirty) == Merge(prev, add, dirty)
        decreases |prev| - i + |add| - j
      {
        MergeNext(prev, add, dirty, i, j, out);
        if prev[i].pk in dirty {
          i := i + 1;
        } else if EntryLess(prev[i], add[j]) {
          out := out + [prev[i]];
          i := i + 1;
        } else {
          out := out + [add[j]];
          j := j + 1;
        }
      }
      while i < |prev|
        invariant i <= |prev| && j <= |add| && (i < |prev| ==> j == |add|)
        invariant out + Merge(prev[i..], add[j..], dirty) == Merge(prev, add, dirty)
      {
        MergeNext(prev, add, dirty, i, j, out);
        if prev[i].pk !in dirty {
          out := out + [prev[i]];
        }
        i := i + 1;
      }
      out := out + add[j..];
    }

    /** Two binary searches: the run of entries whose key is `k`. */
    method EqualRange(k: IndexKey) returns (lo: nat, hi: nat)
      requires Valid() && ordered && k.Kind() == kind
      ensures lo <= hi <= |sorted|
      ensures forall i :: 0 <= i < |sorted| ==> (lo <= i < hi <==> sorted[i].key == k)
    {
      forall i, j | 0 <= i <= j < |sorted|
        ensures !KeyLess(sorted[i].key, k) ==> !KeyLess(sorted[j].key, k)
        ensures KeyLess(k, sorted[i].key) ==> KeyLess(k, sorted[j].key)
      {
        SortedKeys(sorted, kind, i, j);
        KeyLessTotal(sorted[i].key, sorted[j].key);
        KeyLessTotal(sorted[j].key, k);
        if KeyLess(sorted[j].key, k) && sorted[i].key != sorted[j].key {
          KeyLessTransitive(sorted[i].key, sorted[j].key, k);
        }
        if KeyLess(k, sorted[i].key) && sorted[i].key != sorted[j].key {
          KeyLessTransitive(k, sorted[i].key, sorted[j].key);
        }
      }
      var s := sorted;
      var atLeast := (i: nat) => i < |s| && !KeyLess(s[i].key, k);
      var above := (i: nat) => i < |s| && KeyLess(k, s[i].key);
      lo := Search(|s|, atLeast);
      hi := Search(|s|, above);
      forall i: nat | i < |s| ensures (above(i) ==> atLeast(i)) && (atLeast(i) && !above(i) <==> s[i].key == k) {
        KeyLessTotal(s[i].key, k);
      }
      assert hi < |s| ==> above(hi);
    }

    /** The first entry not below `k`. */
    method RunStart(k: IndexKey) returns (lo: nat)
      requires Valid() && ordered
      ensures lo <= |sorted| && forall i :: 0 <= i < |sorted| ==> (i < lo <==> LessAcross(sorted[i].key, k))
    {
      var s := sorted;
      var atLeast := (i: nat) => i < |s| && !LessAcross(s[i].key, k);
      forall i, j | 0 <= i <= j < |s| && atLeast(i) ensures atLeast(j) {
        SortedKeys(s, kind, i, j);
        if LessAcross(s[j].key, k) { BelowIsPrefix(s[i].key, s[j].key, k); }
      }
      lo := Search(|s|, atLeast);
      forall i | 0 <= i < |s| ensures i < lo <==> LessAcross(s[i].key, k) {
        assert atLeast(i) <==> i >= lo;
      }
    }

    /** A binary search and a forward walk, or a copy of the bucket. */
    method Lookup(k: IndexKey) returns (out: seq<Uuid>)
      requires Valid()
      ensures ListsBucket(out, View, ordered, k)
      ensures k.Kind() == kind ==> ListsKey(out, View, k)
    {
      forall pk | k.Kind() == kind ensures InBucket(View, ordered, k, pk) <==> pk in View && View[pk] == k {
        BucketIsEquality(View, ordered, k, pk);
      }
      if ordered {
        var lo := RunStart(k);
        out := [];
        var i := lo;
        while i < |sorted| && !LessAcross(k, sorted[i].key)
          invariant lo <= i <= |sorted| && |out| == i - lo
          invariant forall j :: 0 <= j < |out| ==> out[j] == sorted[lo + j].pk
          invariant forall j :: lo <= j < i ==> !LessAcross(k, sorted[j].key)
        {
          out := out + [sorted[i].pk];
          i := i + 1;
        }
        RunIsBucket(sorted, View, kind, k, lo, i, out);
        return;
      }
      out := if k in fwd then fwd[k] else [];
    }

    /** Resolves `k` without a slice: whether the lookup finds any entry, and whether
        just one. */
    method LookupOne(k: IndexKey) returns (pk: Uuid, found: bool, one: bool)
      requires Valid()
      ensures found <==> exists p :: InBucket(View, ordered, k, p)
      ensures one <==> exists p :: ListsBucket([p], View, ordered, k)
      ensures one ==> found && ListsBucket([pk], View, ordered, k)
    {
      if ordered {
        var lo := RunStart(k);
        if lo >= |sorted| || LessAcross(k, sorted[lo].key) {
          RunIsBucket(sorted, View, kind, k, lo, lo, []);
          BucketSize([], View, ordered, k);
          return Uuid(0, 0), false, false;
        }
        WalkReaches(sorted, View, kind, k, lo, lo);
        if lo + 1 < |sorted| && !LessAcross(k, sorted[lo + 1].key) {
          WalkReaches(sorted, View, kind, k, lo, lo + 1);
          ghost var two := [sorted[lo].pk, sorted[lo + 1].pk];
          RunLists(sorted, View, lo, lo + 2, two);
          assert two[0] != two[1];
          TwoAreNotOne(sorted[lo].pk, sorted[lo + 1].pk, View, ordered, k);
          return Uuid(0, 0), true, false;
        }
        RunIsBucket(sorted, View, kind, k, lo, lo + 1, [sorted[lo].pk]);
        BucketSize([sorted[lo].pk], View, ordered, k);
        return sorted[lo].pk, true, true;
      }
      var b := if k in fwd then fwd[k] else [];
      BucketSize(b, View, ordered, k);
      if |b| == 1 { assert b == [b[0]]; return b[0], true, true; }
      return Uuid(0, 0), b != [], false;
    }

    /** How many primary keys are under `k`. */
    method CountKey(k: IndexKey) returns (n: nat)
      requires Valid() && k.Kind() == kind
      ensures n == |set pk | pk in View && View[pk] == k|
    {
      if ordered {
        var lo, hi := EqualRange(k);
        var s := sorted;
        ghost var run := seq(hi - lo, i requires 0 <= i < hi - lo => s[lo + i].pk);
        RunLists(s, View, lo, hi, run);
        CountListed(run, View, k);
        return hi - lo;
      }
      if k in fwd {
        CountListed(fwd[k], View, k);
        return |fwd[k]|;
      }
      CountListed([], View, k);
      return 0;
    }

    lemma CountListed(out: seq<Uuid>, m: map<Uuid, IndexKey>, k: IndexKey)
      requires ListsKey(out, m, k)
      ensures |out| == |set pk | pk in m && m[pk] == k|
    {
      DistinctCount(out);
      assert (set pk | pk in out) == set pk | pk in m && m[pk] == k;
    }

    /** The slice of the sorted view whose composite keys start with `prefix`:
        exactly those entries, in order. */
    method SnapshotPrefix(prefix: Bytes) returns (lo: nat, hi: nat)
      requires Valid() && ordered && kind == KindBytes
      ensures lo <= hi <= |sorted|
      ensures forall i :: 0 <= i < |sorted| ==> (lo <= i < hi <==> prefix <= sorted[i].key.s)
    {
      var s := sorted;
      FromIsMonotone(prefix);
      var from := (i: nat) => i < |s| && s[i].key.BytesKey? && !Less(s[i].key.s, prefix);
      lo := Search(|s|, from);
      hi := |s|;
      var ub := PrefixUpperBound(prefix);
      if ub != [] {
        FromIsMonotone(ub);
        var beyond := (i: nat) => i < |s| && s[i].key.BytesKey? && !Less(s[i].key.s, ub);
        hi := Search(|s|, beyond);
        forall i: nat | i < |s| ensures prefix <= s[i].key.s <==> from(i) && !beyond(i) {
          PrefixRange(prefix, ub, s[i].key.s);
        }
        if hi < lo {
          assert beyond(hi) && !from(hi);
          PrefixRange(prefix, ub, prefix);
          assert prefix <= prefix && Less(s[hi].key.s, prefix);
          LessTransitive(s[hi].key.s, prefix, ub);
        }
      } else {
        forall i: nat | i < |s| ensures prefix <= s[i].key.s <==> from(i) {
          AllOnesPrefix(prefix, s[i].key.s);
        }
      }
    }

    /** "The key is at least p" is monotone along the sorted view. */
    lemma FromIsMonotone(p: Bytes)
      requires Valid() && ordered && kind == KindBytes
      ensures forall i, j :: 0 <= i <= j < |sorted| && !Less(sorted[i].key.s, p) ==> !Less(sorted[j].key.s, p)
    {
      forall i, j | 0 <= i <= j < |sorted| && !Less(sorted[i].key.s, p) ensures !Less(sorted[j].key.s, p) {
        SortedKeys(sorted, kind, i, j);
        LessTotal(sorted[i].key.s, sorted[j].key.s);
        if Less(sorted[j].key.s, p) && sorted[i].key != sorted[j].key {
          LessTransitive(sorted[i].key.s, sorted[j].key.s, p);
        }
      }
    }

    /** The forward walk from the lower bound while the prefix matches; it finds what
        SnapshotPrefix's two searches find. */
    method PrefixLookup(prefix: Bytes) returns (out: seq<Uuid>)
      requires Valid() && ordered && kind == KindBytes
      ensures ListsPrefix(out, View, prefix)
    {
      var s := sorted;
      FromIsMonotone(prefix);
      var from := (i: nat) => i < |s| && s[i].key.BytesKey? && !Less(s[i].key.s, prefix);
      var lo := Search(|s|, from);
      out := [];
      var i := lo;
      while i < |s| && prefix <= s[i].key.s
        invariant lo <= i <= |s| && |out| == i - lo
        invariant forall j :: 0 <= j < |out| ==> out[j] == s[lo + j].pk && prefix <= s[lo + j].key.s
      {
        out := out + [s[i].pk];
        i := i + 1;
      }
      forall j | 0 <= j < |s| ensures lo <= j < i <==> prefix <= s[j].key.s {
        if prefix <= s[j].key.s {
          PrefixNotLess(prefix, s[j].key.s);
          assert from(j);
        }
        if lo <= j < i {
          assert out[j - lo] == s[lo + (j - lo)].pk;
        }
        if i <= j && prefix <= s[j].key.s {
          assert from(i);
          SortedKeys(s, kind, i, j);
          PrefixConvex(prefix, s[i].key.s, s[j].key.s);
        }
      }
      RunLists(s, View, lo, i, out);
    }

    /** Strings with one prefix are contiguous in the order. */
    lemma {:induction false} PrefixConvex(prefix: Bytes, a: Bytes, b: Bytes)
      requires !Less(a, prefix) && !Less(b, a) && prefix <= b
      ensures prefix <= a
    {
      if prefix != [] {
        assert a != [] && a[0] == prefix[0];
        PrefixConvex(prefix[1..], a[1..], b[1..]);
        assert prefix == [prefix[0]] + prefix[1..] && a == [a[0]] + a[1..];
      }
    }

    lemma PrefixNotLess(prefix: Bytes, t: Bytes)
      requires prefix <= t
      ensures !Less(t, prefix)
    {
      var rest := t[|prefix|..];
      assert t == prefix + rest && prefix == prefix + [];
      LessCommonPrefix(prefix, rest, []);
    }
  }

  /** Set of the smaller side probed with the larger. */
  method IntersectPks(a: seq<Uuid>, b: seq<Uuid>) returns (out: seq<Uuid>)
    requires Distinct(a)
    requires Distinct(b)
    ensures Distinct(out)
    ensures forall pk {:trigger pk in out} :: pk in out <==> pk in a && pk in b
  {
    var x, y := a, b;
    if |x| > |y| {
      x, y := y, x;
    }
    out := [];
    if |x| == 0 {
      return;
    }
    var members := set pk | pk in x;
    for k := 0 to |y|
      invariant Distinct(out)
      invariant forall pk {:trigger pk in out} :: pk in out <==> pk in x && pk in y[..k]
    {
      assert y[..k + 1] == y[..k] + [y[k]];
      if y[k] in members {
        assert y[k] !in y[..k] && y[k] !in out;
        out := out + [y[k]];
      }
    }
  }
}
