/** Cells, rows, column validation, and the comparison primitives every other
    part of the engine shares (value.go, schema.go, uuid.go). */
module Values {
  import opened Wrappers
  import opened ByteStrings

  type Int64 = i: int | -0x8000_0000_0000_0000 <= i < 0x8000_0000_0000_0000
  type Word = w: int | 0 <= w < 0x1_0000_0000_0000_0000

  /** A 128-bit identifier as its two big-endian words. */
  datatype Uuid = Uuid(hi: Word, lo: Word)

  datatype Kind = KindNull | KindInt | KindString | KindBytes | KindBool | KindUuid

  datatype Value =
    | Null
    | Int(i: Int64)
    | Str(s: Bytes)
    | Blob(b: Bytes)
    | Bool(flag: bool)
    | Id(u: Uuid)
  {
    function Kind(): Kind {
      match this
      case Null => KindNull
      case Int(_) => KindInt
      case Str(_) => KindString
      case Blob(_) => KindBytes
      case Bool(_) => KindBool
      case Id(_) => KindUuid
    }

    /** The integer accessor: an INT's value, or a BOOL as 0 or 1. */
    function AsWord(): Int64
      requires Int? || Bool?
    {
      if Int? then i else if flag then 1 else 0
    }

    /** Kind-strict equality; NULL equals NULL. */
    predicate Equal(o: Value) {
      Kind() == o.Kind() &&
      match this
      case Null => true
      case Int(x) => x == o.i
      case Str(x) => x == o.s
      case Blob(x) => x == o.b
      case Bool(x) => x == o.flag
      case Id(x) => x.hi == o.u.hi && x.lo == o.u.lo
    }
  }

  type Row = seq<Value>

  /** The zero value of a kind. */
  function Default(kind: Kind): (v: Value)
    ensures v.Kind() == kind
  {
    match kind
    case KindNull => Null
    case KindInt => Int(0)
    case KindString => Str([])
    case KindBytes => Blob([])
    case KindBool => Bool(false)
    case KindUuid => Id(Uuid(0, 0))
  }

  function Sign(less: bool, equal: bool): int {
    if less then -1 else if equal then 0 else 1
  }

  predicate UuidLess(a: Uuid, b: Uuid) {
    a.hi < b.hi || (a.hi == b.hi && a.lo < b.lo)
  }

  function UuidBytes(u: Uuid): (b: Bytes)
    ensures |b| == 16
  {
    BigEndian(8, u.hi) + BigEndian(8, u.lo)
  }

  /** Comparing words high-then-low is comparing the 16 bytes. */
  lemma UuidLessIsByteOrder(a: Uuid, b: Uuid, x: Bytes, y: Bytes)
    ensures Less(UuidBytes(a) + x, UuidBytes(b) + y) <==> UuidLess(a, b) || (a == b && Less(x, y))
  {
    Pow256Values();
    assert UuidBytes(a) + x == BigEndian(8, a.hi) + (BigEndian(8, a.lo) + x);
    assert UuidBytes(b) + y == BigEndian(8, b.hi) + (BigEndian(8, b.lo) + y);
    BigEndianOrder(8, a.hi, b.hi, BigEndian(8, a.lo) + x, BigEndian(8, b.lo) + y);
    BigEndianOrder(8, a.lo, b.lo, x, y);
  }

  function UuidFromBytes(b: Bytes): Uuid
    requires |b| == 16
  {
    Pow256Values();
    Uuid(FromBigEndian(b[..8]), FromBigEndian(b[8..]))
  }

  lemma UuidBytesRoundTrip(u: Uuid)
    ensures UuidFromBytes(UuidBytes(u)) == u
  {
    Pow256Values();
    assert UuidBytes(u)[..8] == BigEndian(8, u.hi) && UuidBytes(u)[8..] == BigEndian(8, u.lo);
    BigEndianRoundTrip(8, u.hi);
    BigEndianRoundTrip(8, u.lo);
  }

  lemma UuidFromBytesRoundTrip(b: Bytes)
    requires |b| == 16
    ensures UuidBytes(UuidFromBytes(b)) == b
  {
    Pow256Values();
    FromBigEndianRoundTrip(b[..8]);
    FromBigEndianRoundTrip(b[8..]);
    assert b == b[..8] + b[8..];
  }

  // ---- text forms, reached only by mixed-kind comparison and coercion ----

  function Decimal(n: nat): Bytes {
    if n < 10 then [48 + n] else Decimal(n / 10) + [48 + n % 10]
  }

  function FormatInt(i: Int64): Bytes {
    var n: int := i;
    if n < 0 then [45] + Decimal(-n) else Decimal(n)
  }

  function HexDigit(n: nat): Byte
    requires n < 16
  {
    if n < 10 then 48 + n else 87 + n
  }

  /** `hex.Encode`: two lower-case digits per byte. */
  function Hex(b: Bytes): (h: Bytes)
    ensures |h| == 2 * |b|
  {
    if b == [] then [] else [HexDigit(b[0] / 16), HexDigit(b[0] % 16)] + Hex(b[1..])
  }

  /** The canonical 8-4-4-4-12 form of RFC 9562, section 4. */
  function UuidText(u: Uuid): (t: Bytes)
    ensures |t| == 36
  {
    var h := Hex(UuidBytes(u));
    h[..8] + [45] + h[8..12] + [45] + h[12..16] + [45] + h[16..20] + [45] + h[20..]
  }

  function HexNibble(c: Byte): Option<nat> {
    if 48 <= c <= 57 then Some(c - 48)
    else if 97 <= c <= 102 then Some(c - 87)
    else if 65 <= c <= 70 then Some(c - 55)
    else None
  }

  function Unhex(h: Bytes): (r: Option<Bytes>)
    requires |h| % 2 == 0
    ensures r.Some? ==> 2 * |r.value| == |h|
  {
    if h == [] then Some([])
    else
      var rest := Unhex(h[2..]);
      match (HexNibble(h[0]), HexNibble(h[1]), rest)
      case (Some(hi), Some(lo), Some(bs)) =>
        if hi < 16 && lo < 16 then Some([16 * hi + lo] + bs) else None
      case _ => None
  }

  function ParseUuid(s: Bytes): Option<Uuid> {
    if |s| != 36 || s[8] != 45 || s[13] != 45 || s[18] != 45 || s[23] != 45 then None
    else
      match Unhex(s[..8] + s[9..13] + s[14..18] + s[19..23] + s[24..])
      case Some(b) => Some(UuidFromBytes(b))
      case None => None
  }

  /** `coerceToUUID`: a UUID, or text that parses as one. */
  function CoerceToUuid(v: Value): Option<Uuid> {
    match v
    case Id(u) => Some(u)
    case Str(s) => ParseUuid(s)
    case _ => None
  }

  lemma {:induction false} UnhexHex(b: Bytes)
    ensures Unhex(Hex(b)) == Some(b)
  {
    if b != [] {
      assert Hex(b)[2..] == Hex(b[1..]);
      UnhexHex(b[1..]);
      assert b == [b[0]] + b[1..];
    }
  }

  /** The text form parses back to the identifier it was written from. */
  lemma UuidTextRoundTrip(u: Uuid)
    ensures ParseUuid(UuidText(u)) == Some(u)
  {
    var b, t := UuidBytes(u), UuidText(u);
    assert t[..8] + t[9..13] + t[14..18] + t[19..23] + t[24..] == Hex(b);
    UnhexHex(b);
    UuidBytesRoundTrip(u);
  }

  function AsString(v: Value): Bytes {
    match v
    case Null => []
    case Int(i) => FormatInt(i)
    case Str(s) => s
    case Blob(b) => b
    case Id(u) => UuidText(u)
    case Bool(f) => if f then [116, 114, 117, 101] else [102, 97, 108, 115, 101]
  }

  /** Decimal digits folded left to right; None on anything but digits. */
  function ParseDigits(s: Bytes, acc: nat): Option<nat> {
    if s == [] then Some(acc)
    else if 48 <= s[0] <= 57 then ParseDigits(s[1..], 10 * acc + (s[0] - 48))
    else None
  }

  /** `strconv.ParseInt(s, 10, 64)`. */
  function ParseInt(s: Bytes): Option<Int64> {
    var negative := s != [] && s[0] == 45;
    var digits := if s != [] && (s[0] == 45 || s[0] == 43) then s[1..] else s;
    if digits == [] then None
    else
      match ParseDigits(digits, 0)
      case None => None
      case Some(n) =>
        var signed: int := if negative then 0 - n else n;
        if -0x8000_0000_0000_0000 <= signed < 0x8000_0000_0000_0000 then Some(signed) else None
  }

  function AsInt(v: Value): Option<Int64> {
    match v
    case Int(_) => Some(v.AsWord())
    case Bool(_) => Some(v.AsWord())
    case Str(s) => ParseInt(s)
    case _ => None
  }

  /** Three-way comparison; None when either side is NULL. Mixed kinds compare
      their text forms. */
  function Compare(v: Value, o: Value): Option<int> {
    if v.Null? || o.Null? then None
    else if (v.Int? && o.Int?) || (v.Bool? && o.Bool?) then
      var a, b := v.AsWord(), o.AsWord();
      Some(Sign(a < b, a == b))
    else if v.Id? && o.Id? then
      if v.u.hi != o.u.hi then Some(Sign(v.u.hi < o.u.hi, false))
      else Some(Sign(v.u.lo < o.u.lo, v.u.lo == o.u.lo))
    else if v.Blob? && o.Blob? then Some(Sign(Less(v.b, o.b), v.b == o.b))
    else if v.Str? && o.Str? then Some(Sign(Less(v.s, o.s), v.s == o.s))
    else
      var a, b := AsString(v), AsString(o);
      Some(Sign(Less(a, b), a == b))
  }

  predicate SameKind(a: Value, b: Value) {
    a.Kind() == b.Kind() && !a.Null?
  }

  /** Within one kind, Compare is a total order whose zero is Equal. */
  lemma CompareSameKind(a: Value, b: Value)
    requires SameKind(a, b)
    ensures Compare(a, b).Some? && -1 <= Compare(a, b).value <= 1
    ensures Compare(a, b).value == 0 <==> a == b
    ensures Compare(a, b).value == -Compare(b, a).value
  {
    match a
    case Str(s) => LessTotal(s, b.s); StrictOrder(s, b.s);
    case Blob(s) => LessTotal(s, b.b); StrictOrder(s, b.b);
    case _ =>
  }

  lemma StrictOrder(a: Bytes, b: Bytes)
    ensures !Less(a, a) && !(Less(a, b) && Less(b, a))
  {
    LessIrreflexive(a);
    if Less(a, b) {
      LessAsymmetric(a, b);
    }
  }

  lemma CompareTransitive(a: Value, b: Value, c: Value)
    requires SameKind(a, b) && SameKind(b, c)
    requires Compare(a, b).value <= 0 && Compare(b, c).value <= 0
    ensures Compare(a, c).value <= 0
  {
    CompareSameKind(a, b);
    CompareSameKind(b, c);
    CompareSameKind(a, c);
    if a != b && b != c {
      match a
      case Str(s) => LessTransitive(s, b.s, c.s);
      case Blob(s) => LessTransitive(s, b.b, c.b);
      case _ =>
    }
  }

  lemma EqualIsIdentity(a: Value, b: Value)
    ensures a.Equal(b) <==> a == b
  {}

  // ---- schema ----

  /** A declared type; a catalog record may carry a code no declaration writes. */
  datatype ColumnType = TypeInt | TypeString | TypeBytes | TypeBool | TypeUuid | TypeOther(code: Byte)

  datatype Column = Column(name: Bytes, typ: ColumnType, pk: bool, immutable: bool, partitionKey: bool, nullable: bool)

  /** The kind a declared type holds; an unknown code restricts nothing. */
  function KindOfType(t: ColumnType): Option<Kind> {
    match t
    case TypeInt => Some(KindInt)
    case TypeString => Some(KindString)
    case TypeBytes => Some(KindBytes)
    case TypeBool => Some(KindBool)
    case TypeUuid => Some(KindUuid)
    case TypeOther(_) => None
  }

  predicate Continuation(b: Byte) { 0x80 <= b <= 0xBF }

  /** Well-formed UTF-8 (`utf8.ValidString`): RFC 3629, section 4. */
  predicate ValidUtf8(s: Bytes) {
    if s == [] then true
    else if s[0] < 0x80 then ValidUtf8(s[1..])
    else if 0xC2 <= s[0] <= 0xDF then |s| >= 2 && Continuation(s[1]) && ValidUtf8(s[2..])
    else if 0xE0 <= s[0] <= 0xEF then
      && |s| >= 3 && Continuation(s[1]) && Continuation(s[2])
      && (s[0] == 0xE0 ==> s[1] >= 0xA0)
      && (s[0] == 0xED ==> s[1] <= 0x9F)
      && ValidUtf8(s[3..])
    else if 0xF0 <= s[0] <= 0xF4 then
      && |s| >= 4 && Continuation(s[1]) && Continuation(s[2]) && Continuation(s[3])
      && (s[0] == 0xF0 ==> s[1] >= 0x90)
      && (s[0] == 0xF4 ==> s[1] <= 0x8F)
      && ValidUtf8(s[4..])
    else false
  }

  /** The check every cell passes on the write path and again on recovery. */
  predicate ValidValue(c: Column, v: Value) {
    if v.Null? then c.nullable
    else KindOfType(c.typ).Some? ==> v.Kind() == KindOfType(c.typ).value && (v.Str? ==> ValidUtf8(v.s))
  }

  predicate ValidRow(cols: seq<Column>, row: Row) {
    |row| == |cols| && forall i :: 0 <= i < |row| ==> ValidValue(cols[i], row[i])
  }
}
