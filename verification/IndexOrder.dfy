/** Index keys and sorted index entries: their order, and the one sorted slice
    a reverse map stands for (secindex.go). */
module IndexOrder {
  import opened Wrappers
  import opened ByteStrings
  import opened Values
  import opened CompositeKeys

  /** A comparable encoding of the indexed cells; a composite key is a byte key. */
  datatype IndexKey =
    | NullKey
    | IntKey(w: Int64)
    | BoolKey(w: Int64)
    | UuidKey(hi: Word, lo: Word)
    | StringKey(s: Bytes)
    | BytesKey(s: Bytes)
  {
    function Kind(): Kind {
      match this
      case NullKey => KindNull
      case IntKey(_) => KindInt
      case BoolKey(_) => KindBool
      case UuidKey(_, _) => KindUuid
      case StringKey(_) => KindString
      case BytesKey(_) => KindBytes
    }
  }

  function KeyOf(v: Value): IndexKey {
    match v
    case Int(_) => IntKey(v.AsWord())
    case Bool(_) => BoolKey(v.AsWord())
    case Str(s) => StringKey(s)
    case Blob(b) => BytesKey(b)
    case Id(u) => UuidKey(u.hi, u.lo)
    case Null => NullKey
  }

  /** `indexKey.less` within one kind, where it is an order. */
  predicate KeyLess(k: IndexKey, o: IndexKey) {
    match (k, o)
    case (IntKey(a), IntKey(b)) => a < b
    case (BoolKey(a), BoolKey(b)) => a < b
    case (UuidKey(ah, al), UuidKey(bh, bl)) => if ah != bh then ah < bh else al < bl
    case (StringKey(a), StringKey(b)) => Less(a, b)
    case (BytesKey(a), BytesKey(b)) => Less(a, b)
    case _ => false
  }

  // ---- keys of different kinds ----

  function Bits(w: Int64): Word { if w < 0 then w + 0x1_0000_0000_0000_0000 else w }

  function Signed(w: Word): Int64 { if w < 0x8000_0000_0000_0000 then w else w - 0x1_0000_0000_0000_0000 }

  /** The fields of the key struct: two words and a string, zero where a kind leaves
      them unset. */
  function High(k: IndexKey): Word {
    match k
    case IntKey(w) => Bits(w)
    case BoolKey(w) => Bits(w)
    case UuidKey(hi, _) => hi
    case _ => 0
  }

  function Low(k: IndexKey): Word {
    if k.UuidKey? then k.lo else 0
  }

  function Text(k: IndexKey): Bytes {
    if k.StringKey? || k.BytesKey? then k.s else []
  }

  /** `indexKey.less` on any two keys: the receiver's kind picks the fields compared. */
  predicate LessAcross(k: IndexKey, o: IndexKey) {
    match k
    case IntKey(w) => w < Signed(High(o))
    case BoolKey(w) => w < Signed(High(o))
    case UuidKey(hi, lo) => if hi != High(o) then hi < High(o) else lo < Low(o)
    case _ => Less(Text(k), Text(o))
  }

  lemma LessWithinKind(a: IndexKey, b: IndexKey)
    requires a.Kind() == b.Kind()
    ensures LessAcross(a, b) <==> KeyLess(a, b)
  {}

  /** Neither key is below the other: within one kind, they are equal. */
  predicate Ties(a: IndexKey, k: IndexKey) {
    !LessAcross(a, k) && !LessAcross(k, a)
  }

  /** A walk looking for `k` ends at such an entry. */
  predicate Stops(a: IndexKey, k: IndexKey) {
    !LessAcross(a, k) && LessAcross(k, a)
  }

  /** What a lookup of `k` finds. A hash bucket holds the equal keys; a walk of the
      sorted view takes ties until the first entry that stops it. */
  ghost predicate InBucket(m: map<Uuid, IndexKey>, ordered: bool, k: IndexKey, pk: Uuid) {
    && pk in m
    && if ordered then Ties(m[pk], k) && forall p :: p in m && Stops(m[p], k) ==> !KeyLess(m[p], m[pk])
       else m[pk] == k
  }

  /** For a key of the index's own kind that is equality. */
  lemma BucketIsEquality(m: map<Uuid, IndexKey>, ordered: bool, k: IndexKey, pk: Uuid)
    requires pk in m ==> m[pk].Kind() == k.Kind()
    ensures InBucket(m, ordered, k, pk) <==> pk in m && m[pk] == k
  {
    if pk in m {
      KeyLessTotal(m[pk], k);
      LessWithinKind(m[pk], k);
      LessWithinKind(k, m[pk]);
      forall p | m[pk] == k && p in m && Stops(m[p], k) ensures !KeyLess(m[p], m[pk]) {
        if m[p].Kind() == k.Kind() { LessWithinKind(m[p], k); }
      }
    }
  }

  /** Entries below `k` form a prefix of one kind's order. */
  lemma BelowIsPrefix(a: IndexKey, b: IndexKey, k: IndexKey)
    requires a.Kind() == b.Kind() && !KeyLess(b, a) && LessAcross(b, k)
    ensures LessAcross(a, k)
  {
    KeyLessTotal(a, b);
    if KeyLess(a, b) && (a.StringKey? || a.BytesKey?) { LessTransitive(a.s, b.s, Text(k)); }
  }

  /** Index order is cell order, and equal keys mean equal cells. */
  lemma KeyOrderIsValueOrder(a: Value, b: Value)
    requires SameKind(a, b)
    ensures KeyLess(KeyOf(a), KeyOf(b)) <==> Compare(a, b).value < 0
    ensures KeyOf(a) == KeyOf(b) <==> a.Equal(b)
  {
    CompareSameKind(a, b);
  }

  lemma KeyOfInjective(a: Value, b: Value)
    ensures KeyOf(a) == KeyOf(b) <==> a == b
    ensures KeyOf(a).Kind() == a.Kind()
  {}

  /** The key of a row in an index over `ords`; None when a cell is NULL. */
  function RowKey(ords: seq<nat>, row: Row): Option<IndexKey>
    requires forall i :: 0 <= i < |ords| ==> ords[i] < |row|
  {
    var cells := seq(|ords|, i requires 0 <= i < |ords| => row[ords[i]]);
    KeyFromCells(cells)
  }

  /** `keyFromCells`: one column keys by its scalar, several by the composite encoding. */
  function KeyFromCells(cells: seq<Value>): Option<IndexKey> {
    if |cells| == 1 then
      if cells[0].Null? then None else Some(KeyOf(cells[0]))
    else if exists i :: 0 <= i < |cells| && cells[i].Null? then None
    else Some(BytesKey(EncodeTuple(cells)))
  }

  lemma KeyLessTransitive(a: IndexKey, b: IndexKey, c: IndexKey)
    requires KeyLess(a, b) && KeyLess(b, c)
    ensures KeyLess(a, c)
  {
    match a
    case StringKey(s) => LessTransitive(s, b.s, c.s);
    case BytesKey(s) => LessTransitive(s, b.s, c.s);
    case _ =>
  }

  lemma KeyLessTotal(a: IndexKey, b: IndexKey)
    requires a.Kind() == b.Kind()
    ensures KeyLess(a, b) || a == b || KeyLess(b, a)
    ensures !KeyLess(a, a) && !(KeyLess(a, b) && KeyLess(b, a))
  {
    match a
    case StringKey(s) => LessTotal(s, b.s); StrictOrder(s, b.s);
    case BytesKey(s) => LessTotal(s, b.s); StrictOrder(s, b.s);
    case _ =>
  }

  datatype OrdEntry = OrdEntry(key: IndexKey, pk: Uuid)

  /** `ordCmp(a, b) < 0`: by key, then by primary-key bytes. */
  predicate EntryLess(a: OrdEntry, b: OrdEntry) {
    if KeyLess(a.key, b.key) then true
    else if KeyLess(b.key, a.key) then false
    else Less(UuidBytes(a.pk), UuidBytes(b.pk))
  }

  lemma EntryLessByWords(a: OrdEntry, b: OrdEntry)
    ensures Less(UuidBytes(a.pk), UuidBytes(b.pk)) <==> UuidLess(a.pk, b.pk)
  {
    UuidLessIsByteOrder(a.pk, b.pk, [], []);
    assert UuidBytes(a.pk) + [] == UuidBytes(a.pk) && UuidBytes(b.pk) + [] == UuidBytes(b.pk);
  }

  lemma EntryLessTotal(a: OrdEntry, b: OrdEntry)
    requires a.key.Kind() == b.key.Kind()
    ensures EntryLess(a, b) || a == b || EntryLess(b, a)
    ensures !(EntryLess(a, b) && EntryLess(b, a)) && !EntryLess(a, a)
  {
    KeyLessTotal(a.key, b.key);
    EntryLessByWords(a, b);
    EntryLessByWords(b, a);
    EntryLessByWords(a, a);
  }

  lemma EntryLessTransitive(a: OrdEntry, b: OrdEntry, c: OrdEntry)
    requires a.key.Kind() == b.key.Kind() == c.key.Kind()
    requires EntryLess(a, b) && EntryLess(b, c)
    ensures EntryLess(a, c)
  {
    KeyLessTotal(a.key, b.key);
    KeyLessTotal(b.key, c.key);
    KeyLessTotal(a.key, c.key);
    if KeyLess(a.key, b.key) && KeyLess(b.key, c.key) {
      KeyLessTransitive(a.key, b.key, c.key);
    }
    EntryLessByWords(a, b);
    EntryLessByWords(b, c);
    EntryLessByWords(a, c);
  }

  ghost predicate OneKind(s: seq<OrdEntry>, kind: Kind) {
    forall i :: 0 <= i < |s| ==> s[i].key.Kind() == kind
  }

  /** Strictly increasing in (key, primary key). */
  ghost predicate Increasing(s: seq<OrdEntry>) {
    forall i, j :: 0 <= i < j < |s| ==> EntryLess(s[i], s[j])
  }

  predicate Holds(m: map<Uuid, IndexKey>, e: OrdEntry) {
    e.pk in m && m[e.pk] == e.key
  }

  /** `s` is the sorted view of `m`: ordered, and each pair of `m` once. */
  ghost predicate SortedView(s: seq<OrdEntry>, m: map<Uuid, IndexKey>) {
    Increasing(s) && forall e {:trigger Holds(m, e)} {:trigger e in s} :: e in s <==> Holds(m, e)
  }

  /** A map has one sorted view, so any two ways of computing it agree. */
  lemma {:induction false} SortedSeqUnique(s: seq<OrdEntry>, t: seq<OrdEntry>, kind: Kind)
    requires Increasing(s) && Increasing(t) && OneKind(s, kind) && OneKind(t, kind)
    requires forall e :: e in s <==> e in t
    ensures s == t
  {
    assert (s != [] ==> s[0] in t) && (t != [] ==> t[0] in s);
    if s != [] {
      assert s[0] in t && t[0] in s;
      EntryLessTotal(s[0], t[0]);
      assert s[0] == t[0];
      forall e ensures e in s[1..] <==> e in t[1..] {
        TailMembers(s, e, kind);
        TailMembers(t, e, kind);
      }
      SortedSeqUnique(s[1..], t[1..], kind);
      assert s == [s[0]] + s[1..] && t == [t[0]] + t[1..];
    }
  }

  lemma TailMembers(s: seq<OrdEntry>, e: OrdEntry, kind: Kind)
    requires s != [] && Increasing(s) && OneKind(s, kind)
    ensures e in s[1..] <==> e in s && e != s[0]
  {
    EntryLessTotal(s[0], s[0]);
    if e in s && e != s[0] {
      var i :| 0 <= i < |s| && s[i] == e;
      assert s[1..][i - 1] == e;
    }
  }

  lemma SortedViewUnique(s: seq<OrdEntry>, t: seq<OrdEntry>, m: map<Uuid, IndexKey>, kind: Kind)
    requires SortedView(s, m) && SortedView(t, m)
    requires forall pk :: pk in m ==> m[pk].Kind() == kind
    ensures s == t
  {
    forall i | 0 <= i < |s| ensures s[i].key.Kind() == kind { assert s[i] in s && Holds(m, s[i]); }
    forall i | 0 <= i < |t| ensures t[i].key.Kind() == kind { assert t[i] in t && Holds(m, t[i]); }
    forall e ensures e in s <==> e in t { assert Holds(m, e) <==> e in s; }
    SortedSeqUnique(s, t, kind);
  }

  /** `sort.Search`: the least index where the monotone `f` holds. */
  method Search(n: nat, f: nat -> bool) returns (i: nat)
    requires forall a: nat, b: nat :: a <= b < n && f(a) ==> f(b)
    ensures i <= n
    ensures forall k: nat :: k < i ==> !f(k)
    ensures forall k: nat :: i <= k < n ==> f(k)
  {
    var j := n;
    i := 0;
    while i < j
      invariant i <= j <= n
      invariant forall k :: 0 <= k < i ==> !f(k)
      invariant forall k :: j <= k < n ==> f(k)
    {
      var h := (i + j) / 2;
      if !f(h) {
        i := h + 1;
      } else {
        j := h;
      }
    }
  }

  /** Stands for `slices.SortFunc(s, ordCmp)` on distinct entries. */
  function Sorted(s: seq<OrdEntry>): seq<OrdEntry> {
    if s == [] then [] else Insert(s[0], Sorted(s[1..]))
  }

  function Insert(e: OrdEntry, s: seq<OrdEntry>): seq<OrdEntry> {
    if s == [] || EntryLess(e, s[0]) then [e] + s else [s[0]] + Insert(e, s[1..])
  }

  lemma {:induction false} InsertIncreasing(e: OrdEntry, s: seq<OrdEntry>, kind: Kind)
    requires Increasing(s) && OneKind(s, kind) && e.key.Kind() == kind && e !in s
    ensures Increasing(Insert(e, s)) && OneKind(Insert(e, s), kind)
    ensures forall x :: x in Insert(e, s) <==> x == e || x in s
  {
    if s == [] {
    } else if EntryLess(e, s[0]) {
      forall i | 0 <= i < |s| ensures EntryLess(e, s[i]) {
        if i > 0 { EntryLessTransitive(e, s[0], s[i]); }
      }
    } else {
      EntryLessTotal(e, s[0]);
      InsertIncreasing(e, s[1..], kind);
      var t := Insert(e, s[1..]);
      forall i | 0 <= i < |t| ensures EntryLess(s[0], t[i]) && t[i].key.Kind() == kind {
        assert t[i] in t;
        if t[i] != e {
          var j :| 0 <= j < |s[1..]| && s[1..][j] == t[i];
          assert EntryLess(s[0], s[j + 1]);
        }
      }
      assert s == [s[0]] + s[1..];
    }
  }

  lemma {:induction false} SortedIsSorted(s: seq<OrdEntry>, kind: Kind)
    requires OneKind(s, kind) && forall i, j :: 0 <= i < j < |s| ==> s[i] != s[j]
    ensures Increasing(Sorted(s)) && OneKind(Sorted(s), kind)
    ensures forall x :: x in Sorted(s) <==> x in s
  {
    if s != [] {
      SortedIsSorted(s[1..], kind);
      InsertIncreasing(s[0], Sorted(s[1..]), kind);
      assert s == [s[0]] + s[1..];
    }
  }
}
