/** Composite index keys: an order-preserving byte encoding of a tuple of
    indexed cells (composite_key.go), and the prefix bound of a sorted index
    walk (secindex.go). */
module CompositeKeys {
  import opened ByteStrings
  import opened Values

  const SIGN_BIT: int := 0x8000_0000_0000_0000

  /** The field a string or byte column contributes: NUL escaped, then a double-NUL terminator. */
  function Escaped(s: Bytes): Bytes {
    if s == [] then []
    else if s[0] == 0 then [0, 0xFF] + Escaped(s[1..])
    else [s[0]] + Escaped(s[1..])
  }

  function Field(s: Bytes): Bytes { Escaped(s) + [0, 0] }

  lemma {:induction false} EscapedConcat(a: Bytes, b: Bytes)
    ensures Escaped(a + b) == Escaped(a) + Escaped(b)
  {
    if a == [] {
      assert a + b == b;
    } else {
      assert (a + b)[1..] == a[1..] + b;
      EscapedConcat(a[1..], b);
    }
  }

  lemma {:induction false} EscapedNoNul(s: Bytes)
    requires forall i :: 0 <= i < |s| ==> s[i] != 0
    ensures Escaped(s) == s
  {
    if s != [] {
      EscapedNoNul(s[1..]);
      assert s == [s[0]] + s[1..];
    }
  }

  /** Copies the spans between NUL bytes in bulk, escaping at each NUL. */
  method AppendEscapedTerminated(buf: Bytes, s: Bytes) returns (out: Bytes)
    ensures out == buf + Field(s)
  {
    out := buf;
    var last := 0;
    for i := 0 to |s|
      invariant 0 <= last <= i
      invariant forall k :: last <= k < i ==> s[k] != 0
      invariant out == buf + Escaped(s[..last])
    {
      if s[i] == 0 {
        AppendSpan(s, last, i);
        assert s[..i + 1] == s[..i] + [0];
        EscapedConcat(s[..i], [0]);
        out := out + s[last..i];
        out := out + [0, 0xFF];
        last := i + 1;
      }
    }
    AppendSpan(s, last, |s|);
    assert s[..|s|] == s;
    out := out + s[last..];
    out := out + [0, 0];
  }

  lemma AppendSpan(s: Bytes, last: nat, i: nat)
    requires last <= i <= |s|
    requires forall k :: last <= k < i ==> s[k] != 0
    ensures Escaped(s[..i]) == Escaped(s[..last]) + s[last..i]
  {
    EscapedNoNul(s[last..i]);
    EscapedConcat(s[..last], s[last..i]);
    assert s[..i] == s[..last] + s[last..i];
  }

  /** One column's contribution; a NULL, which callers exclude, contributes nothing. */
  function EncodeColumn(v: Value): Bytes {
    match v
    case Int(i) => BigEndian(8, i + SIGN_BIT)
    case Bool(f) => if f then [1] else [0]
    case Id(u) => UuidBytes(u)
    case Str(s) => Field(s)
    case Blob(b) => Field(b)
    case Null => []
  }

  function EncodeTuple(vals: seq<Value>): Bytes {
    if vals == [] then [] else EncodeColumn(vals[0]) + EncodeTuple(vals[1..])
  }

  lemma {:induction false} EncodeTupleConcat(a: seq<Value>, b: seq<Value>)
    ensures EncodeTuple(a + b) == EncodeTuple(a) + EncodeTuple(b)
  {
    if a == [] {
      assert a + b == b;
    } else {
      assert (a + b)[1..] == a[1..] + b;
      EncodeTupleConcat(a[1..], b);
    }
  }

  method AppendOrderedColumn(buf: Bytes, v: Value) returns (out: Bytes)
    ensures out == buf + EncodeColumn(v)
  {
    match v
    case Int(i) => out := buf + BigEndian(8, i + SIGN_BIT);
    case Bool(f) => out := buf + [if f then 1 else 0];
    case Id(u) => out := buf + (BigEndian(8, u.hi) + BigEndian(8, u.lo));
    case Str(s) => out := AppendEscapedTerminated(buf, s);
    case Blob(b) => out := AppendEscapedTerminated(buf, b);
    case Null => out := buf;
  }

  method EncodeCompositeKey(vals: seq<Value>) returns (key: Bytes)
    ensures key == EncodeTuple(vals)
  {
    key := [];
    for i := 0 to |vals|
      invariant key == EncodeTuple(vals[..i])
    {
      assert vals[..i + 1] == vals[..i] + [vals[i]];
      EncodeTupleConcat(vals[..i], [vals[i]]);
      key := AppendOrderedColumn(key, vals[i]);
    }
    assert vals[..|vals|] == vals;
  }

  // ---- the encoding is an order embedding ----

  /** Two tuples of one schema, no NULL among them. */
  predicate SameSchema(a: seq<Value>, b: seq<Value>) {
    |a| == |b| && forall i :: 0 <= i < |a| ==> SameKind(a[i], b[i])
  }

  /** Column-by-column order by the scalar comparison. */
  predicate TupleLess(a: seq<Value>, b: seq<Value>)
    requires SameSchema(a, b)
  {
    if a == [] then false
    else if a[0] == b[0] then TupleLess(a[1..], b[1..])
    else Compare(a[0], b[0]).value < 0
  }

  /** A field orders as its content does and never bleeds into what follows. */
  lemma {:induction false} FieldOrder(a: Bytes, b: Bytes, u: Bytes, v: Bytes)
    ensures Less(Field(a) + u, Field(b) + v) <==> Less(a, b) || (a == b && Less(u, v))
  {
    var x, y := Field(a) + u, Field(b) + v;
    if a == [] && b == [] {
      LessCommonPrefix([0, 0], u, v);
    } else if a == [] {
      assert x[0] == 0 && x[1] == 0;
      assert y[0] == b[0] && (b[0] == 0 ==> y[1] == 0xFF);
      assert b[0] == 0 ==> x[1..][0] < y[1..][0];
    } else if b == [] {
      assert y[0] == 0 && y[1] == 0;
      assert x[0] == a[0] && (a[0] == 0 ==> x[1] == 0xFF);
      assert a[0] == 0 ==> y[1..][0] < x[1..][0];
    } else if a[0] == b[0] {
      FieldOrder(a[1..], b[1..], u, v);
      var p := if a[0] == 0 then [0, 0xFF] else [a[0]];
      assert x == p + (Field(a[1..]) + u) && y == p + (Field(b[1..]) + v);
      LessCommonPrefix(p, Field(a[1..]) + u, Field(b[1..]) + v);
      assert a == [a[0]] + a[1..] && b == [b[0]] + b[1..];
    }
  }

  lemma ColumnOrder(a: Value, b: Value, u: Bytes, v: Bytes)
    requires SameKind(a, b)
    ensures Less(EncodeColumn(a) + u, EncodeColumn(b) + v)
        <==> Compare(a, b).value < 0 || (a == b && Less(u, v))
  {
    Pow256Values();
    match a
    case Int(i) => BigEndianOrder(8, i + SIGN_BIT, b.i + SIGN_BIT, u, v);
    case Bool(f) =>
      assert (EncodeColumn(a) + u)[1..] == u && (EncodeColumn(b) + v)[1..] == v;
    case Id(x) => UuidLessIsByteOrder(x, b.u, u, v);
    case Str(s) => FieldOrder(s, b.s, u, v);
    case Blob(s) => FieldOrder(s, b.b, u, v);
  }

  lemma {:induction false} TupleOrderBefore(a: seq<Value>, b: seq<Value>, u: Bytes, v: Bytes)
    requires SameSchema(a, b)
    ensures Less(EncodeTuple(a) + u, EncodeTuple(b) + v) <==> TupleLess(a, b) || (a == b && Less(u, v))
  {
    if a == [] {
      assert EncodeTuple(a) + u == u && EncodeTuple(b) + v == v;
    } else {
      var u', v' := EncodeTuple(a[1..]) + u, EncodeTuple(b[1..]) + v;
      assert EncodeTuple(a) + u == EncodeColumn(a[0]) + u';
      assert EncodeTuple(b) + v == EncodeColumn(b[0]) + v';
      ColumnOrder(a[0], b[0], u', v');
      CompareSameKind(a[0], b[0]);
      TupleOrderBefore(a[1..], b[1..], u, v);
      assert a == [a[0]] + a[1..] && b == [b[0]] + b[1..];
    }
  }

  /** Bytewise order of two encodings is column-by-column order of the tuples. */
  lemma EncodingIsOrderEmbedding(a: seq<Value>, b: seq<Value>)
    requires SameSchema(a, b)
    ensures Less(EncodeTuple(a), EncodeTuple(b)) <==> TupleLess(a, b)
  {
    TupleOrderBefore(a, b, [], []);
    assert EncodeTuple(a) + [] == EncodeTuple(a) && EncodeTuple(b) + [] == EncodeTuple(b);
  }

  /** After equal leading columns, the next column decides. */
  lemma {:induction false} NextColumnDecides(a: seq<Value>, b: seq<Value>, k: nat)
    requires SameSchema(a, b) && k < |a| && a[..k] == b[..k] && Compare(a[k], b[k]).value < 0
    ensures TupleLess(a, b)
  {
    CompareSameKind(a[0], b[0]);
    if k > 0 {
      assert a[0] == a[..k][0] && b[0] == b[..k][0];
      assert a[1..][..k - 1] == a[..k][1..] && b[1..][..k - 1] == b[..k][1..];
      NextColumnDecides(a[1..], b[1..], k - 1);
    }
  }

  lemma {:induction false} TupleLessTotal(a: seq<Value>, b: seq<Value>)
    requires SameSchema(a, b)
    ensures a == b || TupleLess(a, b) || TupleLess(b, a)
  {
    if a != [] {
      CompareSameKind(a[0], b[0]);
      TupleLessTotal(a[1..], b[1..]);
      assert a == [a[0]] + a[1..] && b == [b[0]] + b[1..];
    }
  }

  lemma EncodingIsInjective(a: seq<Value>, b: seq<Value>)
    requires SameSchema(a, b)
    ensures EncodeTuple(a) == EncodeTuple(b) <==> a == b
  {
    if EncodeTuple(a) == EncodeTuple(b) {
      LessIrreflexive(EncodeTuple(a));
      EncodingIsOrderEmbedding(a, b);
      EncodingIsOrderEmbedding(b, a);
      TupleLessTotal(a, b);
    }
  }

  /** Encodings of one schema are uniquely readable from the front. */
  lemma EncodingIsPrefixFree(p: seq<Value>, q: seq<Value>, u: Bytes, v: Bytes)
    requires SameSchema(p, q) && EncodeTuple(p) + u == EncodeTuple(q) + v
    ensures p == q
  {
    LessIrreflexive(EncodeTuple(p) + u);
    TupleOrderBefore(p, q, u, v);
    TupleOrderBefore(q, p, v, u);
    TupleLessTotal(p, q);
  }

  lemma PrefixOfConcat(a: Bytes, b: Bytes, c: Bytes)
    ensures a <= b + c ==> a + (b + c)[|a|..] == b + c
    ensures b <= b + c
  {}

  /** The encoding of pinned leading columns is a byte prefix of a row's key exactly
      when the row's leading columns equal them. */
  lemma PrefixMeansLeadingColumnsEqual(p: seq<Value>, t: seq<Value>)
    requires |p| <= |t| && SameSchema(p, t[..|p|])
    ensures EncodeTuple(p) <= EncodeTuple(t) <==> p == t[..|p|]
  {
    var q, rest := t[..|p|], t[|p|..];
    assert t == q + rest;
    EncodeTupleConcat(q, rest);
    PrefixOfConcat(EncodeTuple(p), EncodeTuple(q), EncodeTuple(rest));
    if EncodeTuple(p) <= EncodeTuple(q) + EncodeTuple(rest) {
      var tail := (EncodeTuple(q) + EncodeTuple(rest))[|EncodeTuple(p)|..];
      EncodingIsPrefixFree(p, q, tail, EncodeTuple(rest));
    }
  }

  // ---- the least string above every string with a prefix ----

  /** None when every byte is 0xFF: no string is above them all. The empty string
      is the source's spelling of None. */
  method PrefixUpperBound(p: Bytes) returns (ub: Bytes)
    ensures ub == [] <==> forall i :: 0 <= i < |p| ==> p[i] == 0xFF
    ensures ub != [] ==> IsPrefixBound(p, ub)
  {
    var i := |p| - 1;
    while i >= 0
      invariant -1 <= i < |p|
      invariant forall k :: i < k < |p| ==> p[k] == 0xFF
    {
      if p[i] != 0xFF {
        ub := p[..i] + [p[i] + 1];
        return;
      }
      i := i - 1;
    }
    ub := [];
  }

  /** `ub` is `p` cut after some byte below 0xFF that is followed by 0xFF only, that byte incremented. */
  ghost predicate IsPrefixBound(p: Bytes, ub: Bytes) {
    && 0 < |ub| <= |p| && p[|ub| - 1] != 0xFF
    && ub == p[..|ub| - 1] + [p[|ub| - 1] + 1]
    && forall k :: |ub| <= k < |p| ==> p[k] == 0xFF
  }

  /** With no bound, everything from `p` on starts with `p`. */
  lemma {:induction false} AllOnesPrefix(p: Bytes, s: Bytes)
    requires forall i :: 0 <= i < |p| ==> p[i] == 0xFF
    ensures !Less(s, p) <==> p <= s
  {
    if p != [] && s != [] && s[0] == p[0] {
      AllOnesPrefix(p[1..], s[1..]);
      assert p == [p[0]] + p[1..] && s == [s[0]] + s[1..];
      assert p <= s <==> p[1..] <= s[1..];
    }
  }

  /** A string starts with `p` exactly when it lies in `[p, ub)`. */
  lemma {:induction false} PrefixRange(p: Bytes, ub: Bytes, s: Bytes)
    requires IsPrefixBound(p, ub)
    ensures p <= s <==> !Less(s, p) && Less(s, ub)
  {
    if s == [] || s[0] != p[0] {
      if s != [] && |ub| == 1 && s[0] == ub[0] {
        assert ub[1..] == [];
      }
    } else {
      assert p == [p[0]] + p[1..] && s == [s[0]] + s[1..];
      assert p <= s <==> p[1..] <= s[1..];
      if |ub| == 1 {
        AllOnesPrefix(p[1..], s[1..]);
      } else {
        assert ub[1..] == p[1..][..|ub| - 2] + [p[|ub| - 1] + 1];
        PrefixRange(p[1..], ub[1..], s[1..]);
      }
    }
  }

  /** No smaller string is above every string with prefix `p`. */
  lemma PrefixBoundIsLeast(p: Bytes, ub: Bytes, t: Bytes)
    requires IsPrefixBound(p, ub)
    requires forall s :: p <= s ==> Less(s, t)
    ensures !Less(t, ub)
  {
    if Less(t, ub) {
      assert p <= p;
      LessAsymmetric(p, t);
      PrefixRange(p, ub, t);
      LessIrreflexive(t);
    }
  }

  /** When `p` is all 0xFF no finite bound exists. */
  lemma NoBoundForAllOnes(p: Bytes, t: Bytes)
    requires forall i :: 0 <= i < |p| ==> p[i] == 0xFF
    ensures exists s :: p <= s && !Less(s, t)
  {
    if Less(p, t) {
      LessAsymmetric(p, t);
      AllOnesPrefix(p, t);
      LessIrreflexive(t);
      assert p <= t && !Less(t, t);
    } else {
      assert p <= p && !Less(p, t);
    }
  }
}
