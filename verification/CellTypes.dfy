/** What a column takes: cells of its declared type, NULL where it may be missing, and only
    well-formed text (schema.go). */
module CellTypes {
  import opened ByteStrings
  import opened Values

  // ---- UTF-8, section 3 of RFC 3629 ----

  /** A Unicode code point that is not a surrogate. */
  predicate Scalar(c: nat) {
    c < 0xD800 || 0xE000 <= c < 0x11_0000
  }

  function EncodeRune(c: nat): (b: Bytes)
    requires Scalar(c)
    ensures b != []
  {
    if c < 0x80 then [c]
    else if c < 0x800 then [0xC0 + c / 64, 0x80 + c % 64]
    else if c < 0x1_0000 then [0xE0 + c / 4096, 0x80 + c / 64 % 64, 0x80 + c % 64]
    else [0xF0 + c / 262144, 0x80 + c / 4096 % 64, 0x80 + c / 64 % 64, 0x80 + c % 64]
  }

  predicate AllScalar(cs: seq<nat>) {
    forall i :: 0 <= i < |cs| ==> Scalar(cs[i])
  }

  function EncodeText(cs: seq<nat>): Bytes
    requires AllScalar(cs)
  {
    if cs == [] then [] else EncodeRune(cs[0]) + EncodeText(cs[1..])
  }

  /** Text that encodes some code points. */
  ghost predicate IsText(s: Bytes) {
    exists cs :: AllScalar(cs) && EncodeText(cs) == s
  }

  lemma RuneThenText(c: nat, rest: Bytes)
    requires Scalar(c)
    ensures ValidUtf8(EncodeRune(c) + rest) <==> ValidUtf8(rest)
  {
    var b := EncodeRune(c);
    assert (b + rest)[|b|..] == rest;
    if c < 0x800 { ShortRune(c); } else { LongRune(c); }
  }

  lemma ShortRune(c: nat)
    requires c < 0x800
    ensures var b := EncodeRune(c);
            if c < 0x80 then |b| == 1 && b[0] < 0x80 else |b| == 2 && 0xC2 <= b[0] <= 0xDF && Continuation(b[1])
  {}

  lemma LongRune(c: nat)
    requires Scalar(c) && c >= 0x800
    ensures var b := EncodeRune(c);
            if c < 0x1_0000 then
              && |b| == 3 && 0xE0 <= b[0] <= 0xEF && Continuation(b[1]) && Continuation(b[2])
              && (b[0] == 0xE0 ==> b[1] >= 0xA0) && (b[0] == 0xED ==> b[1] <= 0x9F)
            else
              && |b| == 4 && 0xF0 <= b[0] <= 0xF4 && Continuation(b[1]) && Continuation(b[2]) && Continuation(b[3])
              && (b[0] == 0xF0 ==> b[1] >= 0x90) && (b[0] == 0xF4 ==> b[1] <= 0x8F)
  {}

  lemma {:induction false} TextIsValid(cs: seq<nat>)
    requires AllScalar(cs)
    ensures ValidUtf8(EncodeText(cs))
  {
    if cs != [] {
      TextIsValid(cs[1..]);
      RuneThenText(cs[0], EncodeText(cs[1..]));
    }
  }

  /** The code points behind two, three and four bytes. */
  lemma TwoBytes(a: int, x: int)
    requires 2 <= a < 32 && 0 <= x < 64
    ensures Scalar(a * 64 + x) && EncodeRune(a * 64 + x) == [0xC0 + a, 0x80 + x]
  {}

  lemma ThreeBytes(a: int, x: int, y: int)
    requires 0 <= a < 16 && 0 <= x < 64 && 0 <= y < 64 && (a == 0 ==> x >= 32) && (a == 13 ==> x < 32)
    ensures var c := (a * 64 + x) * 64 + y; Scalar(c) && EncodeRune(c) == [0xE0 + a, 0x80 + x, 0x80 + y]
  {
    var c := (a * 64 + x) * 64 + y;
    assert c / 64 == a * 64 + x && c % 64 == y;
    assert c / 4096 == a;
  }

  lemma FourBytes(a: int, x: int, y: int, z: int)
    requires 0 <= a <= 4 && 0 <= x < 64 && 0 <= y < 64 && 0 <= z < 64 && (a == 0 ==> x >= 16) && (a == 4 ==> x < 16)
    ensures var c := ((a * 64 + x) * 64 + y) * 64 + z; Scalar(c) && EncodeRune(c) == [0xF0 + a, 0x80 + x, 0x80 + y, 0x80 + z]
  {
    var c := ((a * 64 + x) * 64 + y) * 64 + z;
    assert c / 64 == (a * 64 + x) * 64 + y && c % 64 == z;
    assert c / 4096 == a * 64 + x;
    assert c / 262144 == a;
  }

  /** The code point that valid text begins with. */
  lemma FirstRune(s: Bytes) returns (c: nat)
    requires ValidUtf8(s) && s != []
    ensures Scalar(c) && |EncodeRune(c)| <= |s| && s[..|EncodeRune(c)|] == EncodeRune(c) && ValidUtf8(s[|EncodeRune(c)|..])
  {
    var lead: int := s[0];
    if lead < 0x80 {
      c := lead;
    } else if lead <= 0xDF {
      var x: int := s[1];
      TwoBytes(lead - 0xC0, x - 0x80);
      c := (lead - 0xC0) * 64 + x - 0x80;
      assert s[..2] == [s[0], s[1]];
    } else if lead <= 0xEF {
      var x: int, y: int := s[1], s[2];
      ThreeBytes(lead - 0xE0, x - 0x80, y - 0x80);
      c := ((lead - 0xE0) * 64 + x - 0x80) * 64 + y - 0x80;
      assert s[..3] == [s[0], s[1], s[2]];
    } else {
      var x: int, y: int, z: int := s[1], s[2], s[3];
      FourBytes(lead - 0xF0, x - 0x80, y - 0x80, z - 0x80);
      c := (((lead - 0xF0) * 64 + x - 0x80) * 64 + y - 0x80) * 64 + z - 0x80;
      assert s[..4] == [s[0], s[1], s[2], s[3]];
    }
  }

  lemma {:induction false} ValidIsText(s: Bytes) returns (cs: seq<nat>)
    requires ValidUtf8(s)
    ensures AllScalar(cs) && EncodeText(cs) == s
    decreases |s|
  {
    if s == [] {
      cs := [];
    } else {
      var c := FirstRune(s);
      var n := |EncodeRune(c)|;
      var rest := ValidIsText(s[n..]);
      cs := [c] + rest;
      assert cs[1..] == rest && s == s[..n] + s[n..];
    }
  }

  /** The check accepts exactly the encodings of code point sequences: no overlong form, no
      surrogate, nothing past U+10FFFF, nothing cut short. */
  lemma Utf8IsText(s: Bytes)
    ensures ValidUtf8(s) <==> IsText(s)
  {
    if ValidUtf8(s) { var cs := ValidIsText(s); }
    if IsText(s) {
      var cs :| AllScalar(cs) && EncodeText(cs) == s;
      TextIsValid(cs);
    }
  }

  // ---- columns ----

  /** What a column takes. */
  lemma ColumnTakes(c: Column, v: Value)
    ensures ValidValue(c, v) <==>
              match v
              case Null => c.nullable
              case Int(_) => c.typ == TypeInt || c.typ.TypeOther?
              case Str(s) => (c.typ == TypeString || c.typ.TypeOther?) && (c.typ == TypeString ==> IsText(s))
              case Blob(_) => c.typ == TypeBytes || c.typ.TypeOther?
              case Bool(_) => c.typ == TypeBool || c.typ.TypeOther?
              case Id(_) => c.typ == TypeUuid || c.typ.TypeOther?
  {
    if v.Str? { Utf8IsText(v.s); }
  }
}
