/** What the text forms of cells are, character by character, and that every comparison but
    that of two numbers is the order of the texts (value.go, uuid.go). */
module TextForms {
  import opened Wrappers
  import opened ByteStrings
  import opened Values

  /** The bytes of an ASCII literal. */
  function Ascii(s: string): (b: Bytes)
    requires forall i :: 0 <= i < |s| ==> s[i] < 128 as char
    ensures |b| == |s| && forall i :: 0 <= i < |s| ==> b[i] == s[i] as int
  {
    seq(|s|, i requires 0 <= i < |s| => s[i] as int)
  }

  // ---- decimal numerals ----

  predicate Digit(c: Byte) { '0' as int <= c <= '9' as int }

  predicate Digits(s: Bytes) {
    s != [] && Digit(s[0]) && (|s| > 1 ==> Digits(s[1..]))
  }

  /** The number the digits stand for, most significant first. */
  function Positional(s: Bytes): int {
    if s == [] then 0 else 10 * Positional(s[..|s| - 1]) + s[|s| - 1] - '0' as int
  }

  /** `s` writes `n`: digits, perhaps after a sign. */
  predicate Numeral(s: Bytes, n: int) {
    s != [] &&
    if s[0] == '-' as int then Digits(s[1..]) && Positional(s[1..]) == -n
    else if s[0] == '+' as int then Digits(s[1..]) && Positional(s[1..]) == n
    else Digits(s) && Positional(s) == n
  }

  lemma {:induction false} PositionalSnoc(s: Bytes, d: Byte)
    ensures Positional(s + [d]) == 10 * Positional(s) + d - '0' as int
  {
    assert (s + [d])[..|s|] == s;
  }

  /** Folding left to right reads the positional value behind what was read before. */
  lemma {:induction false} ParseDigitsFolds(done: Bytes, s: Bytes)
    requires Positional(done) >= 0
    ensures ParseDigits(s, Positional(done))
         == if s == [] || Digits(s) then Some(Positional(done + s)) else None
    ensures s == [] || Digits(s) ==> Positional(done + s) >= 0
    decreases |s|
  {
    if s == [] {
      assert done + s == done;
    } else if Digit(s[0]) {
      PositionalSnoc(done, s[0]);
      ParseDigitsFolds(done + [s[0]], s[1..]);
      assert done + [s[0]] + s[1..] == done + s;
    }
  }

  lemma {:induction false} DigitsSnoc(s: Bytes, d: Byte)
    requires Digits(s) && Digit(d)
    ensures Digits(s + [d])
  {
    assert (s + [d])[1..] == s[1..] + [d];
    if |s| > 1 { DigitsSnoc(s[1..], d); }
  }

  /** `strconv.ParseInt` accepts exactly the decimal numerals of a 64-bit integer, at their
      value. */
  lemma ParseIntReads(s: Bytes, n: Int64)
    ensures ParseInt(s) == Some(n) <==> Numeral(s, n)
  {
    if s != [] {
      var digits := if s[0] == 45 || s[0] == 43 then s[1..] else s;
      ParseDigitsFolds([], digits);
      assert [] + digits == digits;
    }
  }

  lemma {:induction false} DecimalDigits(n: nat)
    ensures Digits(Decimal(n)) && Positional(Decimal(n)) == n
    ensures n > 0 ==> Decimal(n)[0] != '0' as int
    decreases n
  {
    if n < 10 {
      PositionalSnoc([], 48 + n);
      assert [] + [48 + n] == Decimal(n);
    } else {
      DecimalDigits(n / 10);
      PositionalSnoc(Decimal(n / 10), 48 + n % 10);
      DigitsSnoc(Decimal(n / 10), 48 + n % 10);
    }
  }

  /** `strconv.FormatInt` writes the shortest numeral: no leading zero and no plus sign. */
  lemma FormatIntWrites(n: Int64)
    ensures Numeral(FormatInt(n), n) && ParseInt(FormatInt(n)) == Some(n)
    ensures FormatInt(n)[0] != '+' as int
    ensures n == 0 ==> FormatInt(n) == Ascii("0")
    ensures n > 0 ==> FormatInt(n)[0] != '0' as int
    ensures n < 0 ==> |FormatInt(n)| > 1 && FormatInt(n)[1] != '0' as int
  {
    var k: int := n;
    DecimalDigits(if k < 0 then -k else k);
    if k < 0 { assert FormatInt(n)[1..] == Decimal(-k); }
    ParseIntReads(FormatInt(n), n);
  }

  // ---- identifiers ----

  const HEX := "0123456789abcdef"

  /** The j-th hexadecimal digit of 16 bytes, high nibble first. */
  function Nibble(b: Bytes, j: nat): (n: nat)
    requires j < 2 * |b|
    ensures n < 16
  {
    if j % 2 == 0 then b[j / 2] / 16 else b[j / 2] % 16
  }

  /** Where that digit stands in the 8-4-4-4-12 form. */
  function DigitAt(j: nat): nat {
    j + (if j >= 8 then 1 else 0) + (if j >= 12 then 1 else 0) + (if j >= 16 then 1 else 0) + (if j >= 20 then 1 else 0)
  }

  lemma {:induction false} HexDigits(b: Bytes, j: nat)
    requires j < 2 * |b|
    ensures Hex(b)[j] == HEX[Nibble(b, j)] as int
  {
    if j >= 2 {
      HexDigits(b[1..], j - 2);
      assert Hex(b)[j] == Hex(b[1..])[j - 2];
    }
  }

  /** The canonical text: lower-case digits of the 16 bytes in order, and four dashes. */
  lemma UuidTextForm(u: Uuid)
    ensures |UuidText(u)| == 36
    ensures forall i :: i in {8, 13, 18, 23} ==> UuidText(u)[i] == '-' as int
    ensures forall j :: 0 <= j < 32 ==> DigitAt(j) < 36 && UuidText(u)[DigitAt(j)] == HEX[Nibble(UuidBytes(u), j)] as int
  {
    forall j | 0 <= j < 32 ensures UuidText(u)[DigitAt(j)] == HEX[Nibble(UuidBytes(u), j)] as int {
      HexDigits(UuidBytes(u), j);
      assert UuidText(u)[DigitAt(j)] == Hex(UuidBytes(u))[j];
    }
  }

  const HEX_UPPER := "0123456789ABCDEF"

  /** A digit in either letter case. */
  predicate WritesNibble(c: Byte, n: nat)
    requires n < 16
  {
    c == HEX[n] as int || c == HEX_UPPER[n] as int
  }

  lemma HexNibbleReads(c: Byte, n: nat)
    requires n < 16
    ensures HexNibble(c) == Some(n) <==> WritesNibble(c, n)
  {}

  predicate WritesByte(c: Byte, d: Byte, b: Byte) {
    WritesNibble(c, b / 16) && WritesNibble(d, b % 16)
  }

  predicate WritesBytes(h: Bytes, b: Bytes)
    requires |h| == 2 * |b|
  {
    forall k {:trigger b[k]} :: 0 <= k < |b| ==> WritesByte(h[2 * k], h[2 * k + 1], b[k])
  }

  lemma WritesTail(h: Bytes, b: Bytes)
    requires |h| == 2 * |b| && b != []
    ensures WritesBytes(h, b) <==> WritesByte(h[0], h[1], b[0]) && WritesBytes(h[2..], b[1..])
  {
    if WritesByte(h[0], h[1], b[0]) && WritesBytes(h[2..], b[1..]) {
      forall k | 0 <= k < |b| ensures WritesByte(h[2 * k], h[2 * k + 1], b[k]) {
        if k > 0 { assert b[1..][k - 1] == b[k]; }
      }
    }
    if WritesBytes(h, b) {
      forall k | 0 <= k < |b[1..]| ensures WritesByte(h[2..][2 * k], h[2..][2 * k + 1], b[1..][k]) { assert b[k + 1] == b[1..][k]; }
    }
  }

  lemma ByteReads(c: Byte, d: Byte, b: Byte)
    ensures WritesByte(c, d, b) <==>
              var hi, lo := HexNibble(c), HexNibble(d);
              hi.Some? && lo.Some? && hi.value < 16 && lo.value < 16 && 16 * hi.value + lo.value == b
  {
    HexNibbleReads(c, b / 16);
    HexNibbleReads(d, b % 16);
  }

  lemma {:induction false} UnhexReads(h: Bytes, b: Bytes)
    requires |h| == 2 * |b|
    ensures Unhex(h) == Some(b) <==> WritesBytes(h, b)
    decreases |b|
  {
    if b != [] {
      UnhexReads(h[2..], b[1..]);
      WritesTail(h, b);
      ByteReads(h[0], h[1], b[0]);
      assert b == [b[0]] + b[1..];
    }
  }

  /** Where the k-th byte's two digits stand. */
  function ByteAt(k: nat): nat {
    2 * k + (if k >= 4 then 1 else 0) + (if k >= 6 then 1 else 0) + (if k >= 8 then 1 else 0) + (if k >= 10 then 1 else 0)
  }

  /** What parses as an identifier: two digits a byte, in either case, dashed in the
      canonical places. */
  lemma ParseUuidReads(s: Bytes, u: Uuid)
    ensures ParseUuid(s) == Some(u) <==>
              && |s| == 36 && s[8] == s[13] == s[18] == s[23] == '-' as int
              && forall k {:trigger ByteAt(k)} :: 0 <= k < 16 ==> WritesByte(s[ByteAt(k)], s[ByteAt(k) + 1], UuidBytes(u)[k])
  {
    if |s| == 36 {
      var h := Undashed(s);
      UnhexReads(h, UuidBytes(u));
      UuidBytesRoundTrip(u);
      if Unhex(h).Some? { UuidFromBytesRoundTrip(Unhex(h).value); }
      PlacesAgree(s, UuidBytes(u));
    }
  }

  function Undashed(s: Bytes): (h: Bytes)
    requires |s| == 36
    ensures |h| == 32
  {
    s[..8] + s[9..13] + s[14..18] + s[19..23] + s[24..]
  }

  lemma PlacesAgree(s: Bytes, b: Bytes)
    requires |s| == 36 && |b| == 16
    ensures WritesBytes(Undashed(s), b) <==> forall k {:trigger ByteAt(k)} :: 0 <= k < 16 ==> WritesByte(s[ByteAt(k)], s[ByteAt(k) + 1], b[k])
  {
    var h := Undashed(s);
    forall k | 0 <= k < 16 ensures h[2 * k] == s[ByteAt(k)] && h[2 * k + 1] == s[ByteAt(k) + 1] {}
    if WritesBytes(h, b) {
      forall k | 0 <= k < 16 ensures WritesByte(s[ByteAt(k)], s[ByteAt(k) + 1], b[k]) { assert b[k] == b[k]; }
    }
    if forall k {:trigger ByteAt(k)} :: 0 <= k < 16 ==> WritesByte(s[ByteAt(k)], s[ByteAt(k) + 1], b[k]) {
      forall k | 0 <= k < |b| ensures WritesByte(h[2 * k], h[2 * k + 1], b[k]) {
        assert WritesByte(s[ByteAt(k)], s[ByteAt(k) + 1], b[k]);
      }
    }
  }

  /** The text of a cell of each kind. */
  lemma TextOf(v: Value)
    ensures v == Null ==> AsString(v) == Ascii("")
    ensures v == Bool(true) ==> AsString(v) == Ascii("true")
    ensures v == Bool(false) ==> AsString(v) == Ascii("false")
    ensures v.Str? ==> AsString(v) == v.s
    ensures v.Blob? ==> AsString(v) == v.b
    ensures v.Int? ==> Numeral(AsString(v), v.i) && ParseInt(AsString(v)) == Some(v.i)
    ensures v.Id? ==> AsString(v) == UuidText(v.u) && ParseUuid(AsString(v)) == Some(v.u)
  {
    if v.Int? { FormatIntWrites(v.i); }
    if v.Id? { UuidTextRoundTrip(v.u); }
  }

  // ---- the order of texts ----

  /** Two strings of one length are ordered by the first place where they differ. */
  lemma {:induction false} FirstDifference(a: Bytes, b: Bytes) returns (i: nat)
    requires |a| == |b| && a != b
    ensures i < |a| && a[i] != b[i] && (forall k :: 0 <= k < i ==> a[k] == b[k])
    ensures Less(a, b) <==> a[i] < b[i]
  {
    if a[0] != b[0] { return 0; }
    assert a == [a[0]] + a[1..] && b == [b[0]] + b[1..];
    i := FirstDifference(a[1..], b[1..]);
    i := i + 1;
    forall k | 0 <= k < i ensures a[k] == b[k] { if k > 0 { assert a[1..][k - 1] == b[1..][k - 1]; } }
  }

  lemma {:induction false} LessAt(a: Bytes, b: Bytes, i: nat)
    requires i < |a| == |b| && a[i] != b[i] && forall k :: 0 <= k < i ==> a[k] == b[k]
    ensures Less(a, b) <==> a[i] < b[i]
  {
    if i > 0 {
      assert a[1..][i - 1] == a[i] && b[1..][i - 1] == b[i];
      LessAt(a[1..], b[1..], i - 1);
    }
  }

  /** The digit at a place that holds no dash. */
  function DigitOf(i: nat): (j: nat)
    requires i < 36 && i !in {8, 13, 18, 23}
    ensures j < 32 && DigitAt(j) == i
  {
    i - (if i > 8 then 1 else 0) - (if i > 13 then 1 else 0) - (if i > 18 then 1 else 0) - (if i > 23 then 1 else 0)
  }

  lemma HexOrder(m: nat, n: nat)
    requires m < 16 && n < 16
    ensures HEX[m] as int == HexDigit(m) && HEX[n] as int == HexDigit(n)
    ensures HEX[m] as int < HEX[n] as int <==> m < n
  {}

  /** The first nibble that differs decides the bytes. */
  lemma NibbleOrder(a: Bytes, b: Bytes, j: nat)
    requires |a| == |b| && j < 2 * |a| && Nibble(a, j) != Nibble(b, j)
    requires forall k :: 0 <= k < j ==> Nibble(a, k) == Nibble(b, k)
    ensures Less(a, b) <==> Nibble(a, j) < Nibble(b, j)
  {
    forall k | 0 <= k < j / 2 ensures a[k] == b[k] {
      assert Nibble(a, 2 * k) == Nibble(b, 2 * k) && Nibble(a, 2 * k + 1) == Nibble(b, 2 * k + 1);
    }
    if j % 2 == 1 { assert Nibble(a, j - 1) == Nibble(b, j - 1); }
    LessAt(a, b, j / 2);
  }

  /** The canonical texts of identifiers are ordered as the identifiers. */
  lemma UuidTextOrder(a: Uuid, b: Uuid)
    ensures Less(UuidText(a), UuidText(b)) <==> UuidLess(a, b)
    ensures UuidText(a) == UuidText(b) <==> a == b
  {
    UuidTextRoundTrip(a);
    UuidTextRoundTrip(b);
    if a == b {
      LessIrreflexive(UuidText(a));
    } else {
      var x, y := UuidBytes(a), UuidBytes(b);
      UuidTextForm(a);
      UuidTextForm(b);
      var i := FirstDifference(UuidText(a), UuidText(b));
      var j := DigitOf(i);
      forall k | 0 <= k < j ensures Nibble(x, k) == Nibble(y, k) { SameDigit(a, b, k); }
      HexOrder(Nibble(x, j), Nibble(y, j));
      NibbleOrder(x, y, j);
      UuidLessIsByteOrder(a, b, [], []);
      assert x + [] == x && y + [] == y;
    }
  }

  lemma SameDigit(a: Uuid, b: Uuid, k: nat)
    requires k < 32 && UuidText(a)[DigitAt(k)] == UuidText(b)[DigitAt(k)]
    ensures Nibble(UuidBytes(a), k) == Nibble(UuidBytes(b), k)
  {
    UuidTextForm(a);
    UuidTextForm(b);
    HexOrder(Nibble(UuidBytes(a), k), Nibble(UuidBytes(b), k));
    HexOrder(Nibble(UuidBytes(b), k), Nibble(UuidBytes(a), k));
  }

  /** Every fast path of the comparison but the numeric one is the order of the texts, and
      so is the comparison of different kinds. */
  lemma CompareIsTextOrder(v: Value, o: Value)
    ensures Compare(v, o).None? <==> v == Null || o == Null
    ensures v.Int? && o.Int? ==>
              Compare(v, o) == Some(if v.i < o.i then -1 else if v.i == o.i then 0 else 1)
    ensures Compare(v, o).Some? && !(v.Int? && o.Int?) ==>
              Compare(v, o) == Some(if Less(AsString(v), AsString(o)) then -1 else if AsString(v) == AsString(o) then 0 else 1)
  {
    if v.Id? && o.Id? { UuidTextOrder(v.u, o.u); }
    if v.Bool? && o.Bool? {
      var f, t := AsString(Bool(false)), AsString(Bool(true));
      assert f[0] < t[0] && Less(f, t) && !Less(t, f);
      LessIrreflexive(f);
      LessIrreflexive(t);
    }
  }
}
