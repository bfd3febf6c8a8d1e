/** The payloads inside log envelopes: cells, rows, mutations, transactions and
    catalog records, and their decoders (mutation_codec.go, catalog.go). */
module Codec {
  import opened Wrappers
  import opened ByteStrings
  import opened Values

  // ---- what the log records ----

  datatype IndexDecl = IndexDecl(name: Bytes, columns: seq<Bytes>, ordered: bool)

  datatype TableDef = TableDef(name: Bytes, columns: seq<Column>, indexes: seq<IndexDecl>)

  /** One changed column of an UPDATE. */
  datatype Assign = Assign(ord: nat, value: Value)

  datatype Op = Insert(row: Row) | Update(pk: Value, sets: seq<Assign>) | Delete(pk: Value)

  datatype Mutation = Mutation(table: nat, op: Op)

  // ---- fixed-width fields ----

  function U16(x: nat): (b: Bytes)
    ensures |b| == 2
  {
    LittleEndian(2, x % 0x1_0000)
  }

  function U32(x: nat): (b: Bytes)
    ensures |b| == 4
  {
    LittleEndian(4, x % 0x1_0000_0000)
  }

  function Word64(i: Int64): nat {
    if i < 0 then i + 0x1_0000_0000_0000_0000 else i
  }

  function Signed64(w: Word): Int64 {
    if w < 0x8000_0000_0000_0000 then w else w - 0x1_0000_0000_0000_0000
  }

  lemma U16RoundTrip(x: nat)
    ensures FromLittleEndian(U16(x)) == x % 0x1_0000
  {
    Pow256Values();
    LittleEndianRoundTrip(2, x % 0x1_0000);
  }

  lemma U32RoundTrip(x: nat)
    ensures FromLittleEndian(U32(x)) == x % 0x1_0000_0000
  {
    Pow256Values();
    LittleEndianRoundTrip(4, x % 0x1_0000_0000);
  }

  // ---- cell encoding ----

  function EncodeCell(v: Value): (b: Bytes)
    ensures |b| >= 1
  {
    match v
    case Null => [0]
    case Int(i) => [1] + LittleEndian(8, Word64(i))
    case Str(s) => [2] + U32(|s|) + s
    case Blob(s) => [3] + U32(|s|) + s
    case Bool(f) => [4, if f then 1 else 0]
    case Id(u) => [5] + UuidBytes(u)
  }

  // ---- decoding: what a decoder accepts, and how precisely ----

  /** A decoded item and the bytes it consumed; None is a corrupt record. */
  type Parsed<+T> = Option<(T, nat)>

  type Parser<!T> = Bytes -> Parsed<T>

  /** `b` and `c` share their first `n` bytes, as far as `c` reaches. */
  predicate Agree(b: Bytes, c: Bytes, n: nat) {
    n <= |b| && if |c| < n then c == b[..|c|] else c[..n] == b[..n]
  }

  /** The decoder is decided by the bytes it consumes: the same bytes decode the same
      whatever follows, and every shorter prefix is rejected. */
  ghost predicate Precise<T(!new)>(p: Parser<T>) {
    (forall b :: Bounded(p, b)) && (forall b, c :: PreciseAt(p, b, c))
  }

  predicate Bounded<T>(p: Parser<T>, b: Bytes) {
    p(b).Some? ==> p(b).value.1 <= |b|
  }

  ghost predicate PreciseAt<T>(p: Parser<T>, b: Bytes, c: Bytes) {
    p(b).Some? && Agree(b, c, p(b).value.1) ==> p(c) == if |c| < p(b).value.1 then None else p(b)
  }

  /** The decoder undoes the encoder on every fitting item, whatever follows it. */
  ghost predicate Inverts<T(!new)>(p: Parser<T>, enc: T -> Bytes, fits: T -> bool) {
    forall x, rest :: InvertsAt(p, enc, fits, x, rest)
  }

  ghost predicate InvertsAt<T>(p: Parser<T>, enc: T -> Bytes, fits: T -> bool, x: T, rest: Bytes) {
    fits(x) ==> p(enc(x) + rest) == Some((x, |enc(x)|))
  }

  function Many<T>(p: Parser<T>, b: Bytes, n: nat): (r: Parsed<seq<T>>)
    ensures r.Some? ==> |r.value.0| == n
    decreases n
  {
    if n == 0 then Some(([], 0))
    else
      match p(b)
      case None => None
      case Some((x, k)) =>
        if k > |b| then None
        else
          match Many(p, b[k..], n - 1)
          case None => None
          case Some((xs, m)) => Some(([x] + xs, k + m))
  }

  /** A 16-bit count, then that many items. */
  function Counted<T>(p: Parser<T>): Parser<seq<T>> {
    (b: Bytes) => if |b| < 2 then None else CountedFrom(p, FromLittleEndian(b[..2]), b[2..])
  }

  function CountedFrom<T>(p: Parser<T>, n: nat, b: Bytes): Parsed<seq<T>> {
    match Many(p, b, n)
    case None => None
    case Some((xs, m)) => Some((xs, 2 + m))
  }

  function Then<S, T>(p: Parser<S>, q: Parser<T>): Parser<(S, T)> {
    (b: Bytes) =>
      match p(b)
      case None => None
      case Some((x, k)) =>
        if k > |b| then None
        else
          match q(b[k..])
          case None => None
          case Some((y, m)) => Some(((x, y), k + m))
  }

  /** The item must be everything there is. */
  function Whole<T>(p: Parser<T>, b: Bytes): Option<T> {
    match p(b)
    case None => None
    case Some((x, k)) => if k == |b| then Some(x) else None
  }

  function EncodeMany<T>(enc: T -> Bytes, xs: seq<T>): Bytes {
    if xs == [] then [] else enc(xs[0]) + EncodeMany(enc, xs[1..])
  }

  /** The written count is cut to 16 bits. */
  function EncodeCounted<T>(enc: T -> Bytes, xs: seq<T>): Bytes {
    U16(|xs|) + EncodeMany(enc, xs)
  }

  predicate AllFit<T>(fits: T -> bool, xs: seq<T>) {
    forall i :: 0 <= i < |xs| ==> fits(xs[i])
  }

  // ---- encoders built the way the decoders are ----

  function EncThen<S, T>(e: S -> Bytes, f: T -> Bytes): ((S, T)) -> Bytes {
    (x: (S, T)) => e(x.0) + f(x.1)
  }

  function BothFit<S, T>(u: S -> bool, v: T -> bool): ((S, T)) -> bool {
    (x: (S, T)) => u(x.0) && v(x.1)
  }

  function EncCounted<T>(enc: T -> Bytes): seq<T> -> Bytes {
    (xs: seq<T>) => EncodeCounted(enc, xs)
  }

  function CountFits<T>(fits: T -> bool): seq<T> -> bool {
    (xs: seq<T>) => |xs| < 0x1_0000 && AllFit(fits, xs)
  }

  function Mapped<S, T>(p: Parser<S>, f: S -> T): Parser<T> {
    (b: Bytes) =>
      match p(b)
      case None => None
      case Some((x, k)) => Some((f(x), k))
  }

  function Via<S, T>(enc: S -> Bytes, g: T -> S): T -> Bytes {
    (y: T) => enc(g(y))
  }

  lemma AgreeTail(b: Bytes, c: Bytes, k: nat, m: nat)
    requires k <= m && Agree(b, c, m)
    ensures Agree(b, c, k) && (|c| >= k ==> Agree(b[k..], c[k..], m - k))
  {
    if |c| < m {
      assert |c| >= k ==> c[..k] == b[..k] && c[k..] == b[k..][..|c| - k];
    } else {
      assert c[..k] == c[..m][..k] && b[..k] == b[..m][..k];
      assert c[k..][..m - k] == c[..m][k..] && b[k..][..m - k] == b[..m][k..];
    }
  }

  lemma {:induction false} ManyIsPrecise<T(!new)>(p: Parser<T>, b: Bytes, c: Bytes, n: nat)
    requires Precise(p) && Many(p, b, n).Some? && Agree(b, c, Many(p, b, n).value.1)
    ensures Many(p, c, n) == if |c| < Many(p, b, n).value.1 then None else Many(p, b, n)
    decreases n
  {
    if n > 0 {
      var k, m := p(b).value.1, Many(p, b, n).value.1;
      AgreeTail(b, c, k, m);
      assert PreciseAt(p, b, c) && Bounded(p, b);
      if |c| >= k {
        ManyIsPrecise(p, b[k..], c[k..], n - 1);
        assert Many(p, b[k..], n - 1).value.1 == m - k;
      }
    }
  }

  lemma {:induction false} ManyIsBounded<T(!new)>(p: Parser<T>, b: Bytes, n: nat)
    requires Precise(p) && Many(p, b, n).Some?
    ensures Many(p, b, n).value.1 <= |b|
    decreases n
  {
    if n > 0 {
      var k := p(b).value.1;
      ManyIsBounded(p, b[k..], n - 1);
    }
  }

  lemma CountedIsPrecise<T(!new)>(p: Parser<T>)
    requires Precise(p)
    ensures Precise(Counted(p))
  {
    var q := Counted(p);
    forall b ensures Bounded(q, b) {
      if q(b).Some? { ManyIsBounded(p, b[2..], FromLittleEndian(b[..2])); }
    }
    forall b, c ensures PreciseAt(q, b, c) {
      if q(b).Some? && Agree(b, c, q(b).value.1) {
        AgreeTail(b, c, 2, q(b).value.1);
        if |c| >= 2 { ManyIsPrecise(p, b[2..], c[2..], FromLittleEndian(b[..2])); }
      }
    }
  }

  lemma ThenIsPrecise<S(!new), T(!new)>(p: Parser<S>, q: Parser<T>)
    requires Precise(p) && Precise(q)
    ensures Precise(Then(p, q))
  {
    var r := Then(p, q);
    forall b ensures Bounded(r, b) {
      if r(b).Some? { assert Bounded(p, b) && Bounded(q, b[p(b).value.1..]); }
    }
    forall b, c ensures PreciseAt(r, b, c) {
      if r(b).Some? && Agree(b, c, r(b).value.1) {
        var k := p(b).value.1;
        AgreeTail(b, c, k, r(b).value.1);
        assert PreciseAt(p, b, c);
        if |c| >= k { assert PreciseAt(q, b[k..], c[k..]); }
      }
    }
  }

  /** No proper prefix of an accepted record is accepted. */
  lemma WholePrefixRejected<T(!new)>(p: Parser<T>, b: Bytes, k: nat)
    requires Precise(p) && Whole(p, b).Some? && k < |b|
    ensures Whole(p, b[..k]) == None
  {
    assert PreciseAt(p, b, b[..k]) && Agree(b, b[..k], |b|);
  }

  lemma {:induction false} ManyInverts<T(!new)>(p: Parser<T>, enc: T -> Bytes, fits: T -> bool, xs: seq<T>, rest: Bytes)
    requires Inverts(p, enc, fits) && AllFit(fits, xs)
    ensures Many(p, EncodeMany(enc, xs) + rest, |xs|) == Some((xs, |EncodeMany(enc, xs)|))
  {
    if xs != [] {
      var first, last := enc(xs[0]), EncodeMany(enc, xs[1..]);
      ManyInverts(p, enc, fits, xs[1..], rest);
      assert InvertsAt(p, enc, fits, xs[0], last + rest);
      SkipFirst(first, last, rest);
      assert [xs[0]] + xs[1..] == xs;
    }
  }

  lemma SkipFirst(a: Bytes, b: Bytes, c: Bytes)
    ensures a + b + c == a + (b + c) && (a + (b + c))[|a|..] == b + c
  {}

  lemma CountedInverts<T(!new)>(p: Parser<T>, enc: T -> Bytes, fits: T -> bool, xs: seq<T>, rest: Bytes)
    requires Inverts(p, enc, fits) && AllFit(fits, xs) && |xs| < 0x1_0000
    ensures Counted(p)(EncodeCounted(enc, xs) + rest) == Some((xs, |EncodeCounted(enc, xs)|))
  {
    var items := EncodeMany(enc, xs);
    ManyInverts(p, enc, fits, xs, rest);
    CountField(|xs|, items, rest);
    assert CountedFrom(p, |xs|, items + rest) == Some((xs, 2 + |items|));
  }

  lemma CountedInvertsAll<T(!new)>(p: Parser<T>, enc: T -> Bytes, fits: T -> bool)
    requires Inverts(p, enc, fits)
    ensures Inverts(Counted(p), EncCounted(enc), CountFits(fits))
  {
    forall xs, rest ensures InvertsAt(Counted(p), EncCounted(enc), CountFits(fits), xs, rest) {
      if CountFits(fits)(xs) { CountedInverts(p, enc, fits, xs, rest); }
    }
  }

  /** Reading one field after another undoes writing one after another. */
  lemma ThenInverts<S(!new), T(!new)>(p: Parser<S>, q: Parser<T>, e: S -> Bytes, f: T -> Bytes, u: S -> bool, v: T -> bool)
    requires Inverts(p, e, u) && Inverts(q, f, v)
    ensures Inverts(Then(p, q), EncThen(e, f), BothFit(u, v))
  {
    forall x: (S, T), rest ensures InvertsAt(Then(p, q), EncThen(e, f), BothFit(u, v), x, rest) {
      if u(x.0) && v(x.1) {
        SkipFirst(e(x.0), f(x.1), rest);
        assert InvertsAt(p, e, u, x.0, f(x.1) + rest) && InvertsAt(q, f, v, x.1, rest);
      }
    }
  }

  lemma MappedInverts<S(!new), T(!new)>(p: Parser<S>, enc: S -> Bytes, fits: S -> bool, f: S -> T, g: T -> S, ok: T -> bool)
    requires Inverts(p, enc, fits) && forall y :: ok(y) ==> fits(g(y)) && f(g(y)) == y
    ensures Inverts(Mapped(p, f), Via(enc, g), ok)
  {
    forall y, rest ensures InvertsAt(Mapped(p, f), Via(enc, g), ok, y, rest) {
      assert InvertsAt(p, enc, fits, g(y), rest);
    }
  }

  lemma MappedIsPrecise<S(!new), T(!new)>(p: Parser<S>, f: S -> T)
    requires Precise(p)
    ensures Precise(Mapped(p, f))
  {
    var q := Mapped(p, f);
    forall b ensures Bounded(q, b) { assert Bounded(p, b); }
    forall b, c ensures PreciseAt(q, b, c) { assert PreciseAt(p, b, c); }
  }

  /** A whole record decodes to the item it was written from. */
  lemma WholeInverts<T(!new)>(p: Parser<T>, enc: T -> Bytes, fits: T -> bool, x: T)
    requires Inverts(p, enc, fits) && fits(x)
    ensures Whole(p, enc(x)) == Some(x)
  {
    assert InvertsAt(p, enc, fits, x, []) && enc(x) + [] == enc(x);
  }

  lemma CountField(n: nat, items: Bytes, rest: Bytes)
    requires n < 0x1_0000
    ensures var b := U16(n) + items + rest;
            |b| >= 2 && FromLittleEndian(b[..2]) == n && b[2..] == items + rest
  {
    U16RoundTrip(n);
    assert (U16(n) + items + rest)[..2] == U16(n);
  }

  // ---- cells ----

  function DecodeCell(b: Bytes): (r: Parsed<Value>)
    ensures r.Some? ==> 1 <= r.value.1 <= |b|
  {
    if b == [] then None
    else if b[0] == 0 then Some((Null, 1))
    else if b[0] == 1 then
      if 9 > |b| then None
      else
        Pow256Values();
        Some((Int(Signed64(FromLittleEndian(b[1..9]))), 9))
    else if b[0] == 2 || b[0] == 3 then
      if 5 > |b| then None
      else
        var n := FromLittleEndian(b[1..5]);
        if 5 + n > |b| then None
        else Some((if b[0] == 2 then Str(b[5..5 + n]) else Blob(b[5..5 + n]), 5 + n))
    else if b[0] == 5 then
      if 17 > |b| then None else Some((Id(UuidFromBytes(b[1..17])), 17))
    else if b[0] == 4 then
      if 2 > |b| then None else Some((Bool(b[1] == 1), 2))
    else None
  }

  /** A text or byte cell shorter than the 32-bit length field counts. */
  predicate CellFits(v: Value) {
    (v.Str? ==> |v.s| < 0x1_0000_0000) && (v.Blob? ==> |v.b| < 0x1_0000_0000)
  }

  lemma CellRoundTrip(v: Value, rest: Bytes)
    requires CellFits(v)
    ensures DecodeCell(EncodeCell(v) + rest) == Some((v, |EncodeCell(v)|))
  {
    match v
    case Null =>
    case Int(i) => IntRoundTrip(i, rest);
    case Str(s) => TextRoundTrip(2, s, rest);
    case Blob(s) => TextRoundTrip(3, s, rest);
    case Bool(_) =>
    case Id(u) => IdRoundTrip(u, rest);
  }

  lemma IntRoundTrip(i: Int64, rest: Bytes)
    ensures DecodeCell(EncodeCell(Int(i)) + rest) == Some((Int(i), 9))
  {
    Pow256Values();
    LittleEndianRoundTrip(8, Word64(i));
    assert (EncodeCell(Int(i)) + rest)[1..9] == LittleEndian(8, Word64(i));
  }

  lemma TextRoundTrip(kind: Byte, s: Bytes, rest: Bytes)
    requires (kind == 2 || kind == 3) && |s| < 0x1_0000_0000
    ensures DecodeCell([kind] + U32(|s|) + s + rest) == Some((if kind == 2 then Str(s) else Blob(s), 5 + |s|))
  {
    var b := [kind] + U32(|s|) + s + rest;
    U32RoundTrip(|s|);
    assert b[1..5] == U32(|s|) && b[5..5 + |s|] == s;
  }

  lemma IdRoundTrip(u: Uuid, rest: Bytes)
    ensures DecodeCell(EncodeCell(Id(u)) + rest) == Some((Id(u), 17))
  {
    UuidBytesRoundTrip(u);
    assert (EncodeCell(Id(u)) + rest)[1..17] == UuidBytes(u);
  }

  lemma CellIsPrecise(b: Bytes, c: Bytes)
    requires DecodeCell(b).Some? && Agree(b, c, DecodeCell(b).value.1)
    ensures DecodeCell(c) == if |c| < DecodeCell(b).value.1 then None else DecodeCell(b)
  {
    var n := DecodeCell(b).value.1;
    if |c| < n {
      if |c| >= 5 && (b[0] == 2 || b[0] == 3) { assert c[1..5] == b[1..5]; }
    } else {
      assert forall i {:trigger b[i]} {:trigger c[i]} :: 0 <= i < n ==> b[i] == b[..n][i] == c[..n][i] == c[i];
      SameSlices(b, c, n);
    }
  }

  lemma SameSlices(b: Bytes, c: Bytes, n: nat)
    requires n <= |b| && n <= |c| && forall i :: 0 <= i < n ==> b[i] == c[i]
    ensures forall i, j {:trigger b[i..j]} {:trigger c[i..j]} :: 0 <= i <= j <= n ==> b[i..j] == c[i..j]
  {}

  lemma CellsPrecise()
    ensures Precise(DecodeCell)
  {
    forall b ensures Bounded(DecodeCell, b) {}
    forall b, c ensures PreciseAt(DecodeCell, b, c) {
      if DecodeCell(b).Some? && Agree(b, c, DecodeCell(b).value.1) { CellIsPrecise(b, c); }
    }
  }

  lemma CellsInvert()
    ensures Inverts(DecodeCell, EncodeCell, CellFits)
  {
    forall v, rest ensures InvertsAt(DecodeCell, EncodeCell, CellFits, v, rest) {
      if CellFits(v) { CellRoundTrip(v, rest); }
    }
  }

  /** The encoding is the only one for its value, except that every BOOL byte other
      than 1 reads as false. */
  lemma CellIsCanonical(b: Bytes)
    requires DecodeCell(b).Some?
    ensures var (v, n) := DecodeCell(b).value;
            EncodeCell(v) == b[..n] <==> (b[0] == 4 ==> b[1] <= 1)
  {
    var (v, n) := DecodeCell(b).value;
    KindThenRest(b, n);
    match v
    case Null =>
    case Int(_) => WordIsCanonical(b[1..9]);
    case Str(_) => LengthIsCanonical(b[1..5]);
    case Blob(_) => LengthIsCanonical(b[1..5]);
    case Bool(_) => assert b[1..2] == [b[1]];
    case Id(_) => UuidFromBytesRoundTrip(b[1..17]);
  }

  lemma KindThenRest(b: Bytes, n: nat)
    requires 1 <= n <= |b|
    ensures b[..n] == [b[0]] + b[1..n]
    ensures n >= 5 ==> b[..n] == [b[0]] + b[1..5] + b[5..n]
  {}

  lemma WordIsCanonical(b: Bytes)
    requires |b| == 8
    ensures FromLittleEndian(b) < 0x1_0000_0000_0000_0000 && LittleEndian(8, Word64(Signed64(FromLittleEndian(b)))) == b
  {
    Pow256Values();
    FromLittleEndianRoundTrip(b);
  }

  lemma LengthIsCanonical(b: Bytes)
    requires |b| == 4
    ensures U32(FromLittleEndian(b)) == b
  {
    Pow256Values();
    FromLittleEndianRoundTrip(b);
  }

  // ---- rows ----

  function EncodeRowBytes(row: Row): Bytes {
    EncodeCounted(EncodeCell, row)
  }

  function DecodeRowBytes(b: Bytes): Option<Row> {
    Whole(Counted(DecodeCell), b)
  }

  predicate RowFits(row: Row) {
    |row| < 0x1_0000 && AllFit(CellFits, row)
  }

  /** Decoding undoes encoding. */
  lemma RowRoundTrip(row: Row)
    requires RowFits(row)
    ensures DecodeRowBytes(EncodeRowBytes(row)) == Some(row)
  {
    CellsInvert();
    CountedInvertsAll(DecodeCell, EncodeCell, CellFits);
    WholeInverts(Counted(DecodeCell), EncCounted(EncodeCell), CountFits(CellFits), row);
  }

  /** Nothing is left over after an accepted row, and no proper prefix of it is a row. */
  lemma RowPrefixRejected(b: Bytes, k: nat)
    requires DecodeRowBytes(b).Some? && k < |b|
    ensures DecodeRowBytes(b[..k]) == None
  {
    CellsPrecise();
    CountedIsPrecise(DecodeCell);
    WholePrefixRejected(Counted(DecodeCell), b, k);
  }

  // ---- fields ----

  function ReadU16(b: Bytes): Parsed<nat> {
    if |b| < 2 then None else Some((FromLittleEndian(b[..2]), 2))
  }

  function ReadByte(b: Bytes): Parsed<Byte> {
    if b == [] then None else Some((b[0], 1))
  }

  /** `getLenStr`: a string behind its 16-bit length. */
  function LenStr(b: Bytes): Parsed<Bytes> {
    if |b| < 2 then None
    else
      var n := FromLittleEndian(b[..2]);
      if 2 + n > |b| then None else Some((b[2..2 + n], 2 + n))
  }

  function OneByte(x: Byte): Bytes {
    [x]
  }

  function EncodeStr(s: Bytes): Bytes {
    U16(|s|) + s
  }

  predicate FitsU16(x: nat) {
    x < 0x1_0000
  }

  predicate AnyByte(x: Byte) {
    true
  }

  predicate StrFits(s: Bytes) {
    |s| < 0x1_0000
  }

  lemma FieldsPrecise()
    ensures Precise(LenStr) && Precise(ReadU16) && Precise(ReadByte)
  {
    forall b ensures Bounded(LenStr, b) && Bounded(ReadU16, b) && Bounded(ReadByte, b) {}
    forall b, c ensures PreciseAt(LenStr, b, c) {
      if LenStr(b).Some? && Agree(b, c, LenStr(b).value.1) {
        var n := LenStr(b).value.1;
        AgreeTail(b, c, 2, n);
        if |c| >= n { assert c[2..n] == c[..n][2..] && b[2..n] == b[..n][2..]; }
      }
    }
    forall b, c ensures PreciseAt(ReadU16, b, c) {}
    forall b, c ensures PreciseAt(ReadByte, b, c) {
      if ReadByte(b).Some? && Agree(b, c, 1) && c != [] { assert c[..1][0] == b[..1][0]; }
    }
  }

  lemma StrsInvert()
    ensures Inverts(LenStr, EncodeStr, StrFits)
  {
    forall s: Bytes, rest ensures InvertsAt(LenStr, EncodeStr, StrFits, s, rest) {
      U16RoundTrip(|s|);
      assert (EncodeStr(s) + rest)[..2] == U16(|s|);
    }
  }

  lemma NumbersInvert()
    ensures Inverts(ReadU16, U16, FitsU16) && Inverts(ReadByte, OneByte, AnyByte)
  {
    forall x: nat, rest ensures InvertsAt(ReadU16, U16, FitsU16, x, rest) {
      U16RoundTrip(x);
      assert (U16(x) + rest)[..2] == U16(x);
    }
    forall x: Byte, rest ensures InvertsAt(ReadByte, OneByte, AnyByte, x, rest) {}
  }

  // ---- mutations ----

  function AssignOf(x: (nat, Value)): Assign {
    Assign(x.0, x.1)
  }

  function AssignFields(s: Assign): (nat, Value) {
    (s.ord, s.value)
  }

  /** One changed column: its ordinal, then its new cell. */
  const SetParser: Parser<Assign> := Mapped(Then(ReadU16, DecodeCell), AssignOf)
  const EncodeSet: Assign -> Bytes := Via(EncThen(U16, EncodeCell), AssignFields)

  predicate SetFits(s: Assign) {
    s.ord < 0x1_0000 && CellFits(s.value)
  }

  lemma SetsPrecise()
    ensures Precise(SetParser)
  {
    FieldsPrecise();
    CellsPrecise();
    ThenIsPrecise(ReadU16, DecodeCell);
    MappedIsPrecise(Then(ReadU16, DecodeCell), AssignOf);
  }

  lemma SetsInvert()
    ensures Inverts(SetParser, EncodeSet, SetFits)
  {
    NumbersInvert();
    CellsInvert();
    ThenInverts(ReadU16, DecodeCell, U16, EncodeCell, FitsU16, CellFits);
    MappedInverts(Then(ReadU16, DecodeCell), EncThen(U16, EncodeCell), BothFit(FitsU16, CellFits), AssignOf, AssignFields, SetFits);
  }

  /** An UPDATE's body: the primary key cell, then the changed columns. */
  const UpdateBody: Parser<(Value, seq<Assign>)> := Then(DecodeCell, Counted(SetParser))
  const EncodeUpdate: ((Value, seq<Assign>)) -> Bytes := EncThen(EncodeCell, EncCounted(EncodeSet))

  function EncodeBody(op: Op): Bytes {
    match op
    case Insert(row) => EncodeRowBytes(row)
    case Update(pk, sets) => EncodeUpdate((pk, sets))
    case Delete(pk) => EncodeCell(pk)
  }

  function OpCode(op: Op): Byte {
    match op
    case Insert(_) => 1
    case Update(_, _) => 2
    case Delete(_) => 3
  }

  function EncodeMutation(m: Mutation): Bytes {
    [OpCode(m.op)] + U16(m.table) + EncodeBody(m.op)
  }

  function DecodeBody(code: Byte, b: Bytes): Option<Op> {
    if code == 1 then
      match DecodeRowBytes(b)
      case Some(row) => Some(Insert(row))
      case None => None
    else if code == 2 then
      match Whole(UpdateBody, b)
      case Some(body) => Some(Update(body.0, body.1))
      case None => None
    else if code == 3 then
      match Whole(DecodeCell, b)
      case Some(pk) => Some(Delete(pk))
      case None => None
    else None
  }

  function DecodeMutation(b: Bytes): Option<Mutation> {
    if |b| < 3 then None
    else
      match DecodeBody(b[0], b[3..])
      case Some(op) => Some(Mutation(FromLittleEndian(b[1..3]), op))
      case None => None
  }

  predicate OpFits(op: Op) {
    match op
    case Insert(row) => RowFits(row)
    case Update(pk, sets) => CellFits(pk) && |sets| < 0x1_0000 && AllFit(SetFits, sets)
    case Delete(pk) => CellFits(pk)
  }

  predicate MutationFits(m: Mutation) {
    m.table < 0x1_0000 && OpFits(m.op)
  }

  lemma UpdateRoundTrip(pk: Value, sets: seq<Assign>)
    requires CellFits(pk) && |sets| < 0x1_0000 && AllFit(SetFits, sets)
    ensures Whole(UpdateBody, EncodeUpdate((pk, sets))) == Some((pk, sets))
  {
    CellsInvert();
    SetsInvert();
    CountedInvertsAll(SetParser, EncodeSet, SetFits);
    ThenInverts(DecodeCell, Counted(SetParser), EncodeCell, EncCounted(EncodeSet), CellFits, CountFits(SetFits));
    WholeInverts(UpdateBody, EncodeUpdate, BothFit(CellFits, CountFits(SetFits)), (pk, sets));
  }

  lemma BodyRoundTrip(op: Op)
    requires OpFits(op)
    ensures DecodeBody(OpCode(op), EncodeBody(op)) == Some(op)
  {
    match op
    case Insert(row) => RowRoundTrip(row);
    case Update(pk, sets) => UpdateRoundTrip(pk, sets);
    case Delete(pk) =>
      CellsInvert();
      WholeInverts(DecodeCell, EncodeCell, CellFits, pk);
  }

  lemma UpdatePrefixRejected(b: Bytes, k: nat)
    requires Whole(UpdateBody, b).Some? && k < |b|
    ensures Whole(UpdateBody, b[..k]) == None
  {
    CellsPrecise();
    SetsPrecise();
    CountedIsPrecise(SetParser);
    ThenIsPrecise(DecodeCell, Counted(SetParser));
    WholePrefixRejected(UpdateBody, b, k);
  }

  lemma BodyPrefixRejected(code: Byte, b: Bytes, k: nat)
    requires DecodeBody(code, b).Some? && k < |b|
    ensures DecodeBody(code, b[..k]) == None
  {
    if code == 1 {
      RowPrefixRejected(b, k);
    } else if code == 2 {
      UpdatePrefixRejected(b, k);
    } else {
      CellsPrecise();
      WholePrefixRejected(DecodeCell, b, k);
    }
  }

  /** A mutation decodes to itself. */
  lemma MutationRoundTrip(m: Mutation)
    requires MutationFits(m)
    ensures DecodeMutation(EncodeMutation(m)) == Some(m)
  {
    var b := EncodeMutation(m);
    U16RoundTrip(m.table);
    assert b[1..3] == U16(m.table) && b[3..] == EncodeBody(m.op);
    BodyRoundTrip(m.op);
  }

  /** No proper prefix of an accepted mutation is accepted. */
  lemma MutationPrefixRejected(b: Bytes, k: nat)
    requires DecodeMutation(b).Some? && k < |b|
    ensures DecodeMutation(b[..k]) == None
  {
    if k >= 3 {
      assert b[..k][3..] == b[3..][..k - 3];
      BodyPrefixRejected(b[0], b[3..], k - 3);
    }
  }

  // ---- transaction envelopes ----

  /** A sub-mutation behind its 32-bit length. */
  function EncodePart(m: Bytes): (b: Bytes)
    ensures |b| == 4 + |m|
  {
    U32(|m|) + m
  }

  function DecodePart(b: Bytes): Parsed<Bytes> {
    if 4 > |b| then None
    else
      var n := FromLittleEndian(b[..4]);
      if 4 + n > |b| then None else Some((b[4..4 + n], 4 + n))
  }

  predicate PartFits(m: Bytes) {
    |m| < 0x1_0000_0000
  }

  function EncodeTxnBytes(ms: seq<Bytes>): Bytes {
    EncodeCounted(EncodePart, ms)
  }

  function DecodeTxnBytes(b: Bytes): Option<seq<Bytes>> {
    Whole(Counted(DecodePart), b)
  }

  lemma PartsPrecise()
    ensures Precise(DecodePart)
  {
    forall b ensures Bounded(DecodePart, b) {}
    forall b, c ensures PreciseAt(DecodePart, b, c) {
      if DecodePart(b).Some? && Agree(b, c, DecodePart(b).value.1) {
        var n := DecodePart(b).value.1;
        AgreeTail(b, c, 4, n);
        if |c| >= n { assert c[4..n] == c[..n][4..] && b[4..n] == b[..n][4..]; }
      }
    }
  }

  lemma PartsInvert()
    ensures Inverts(DecodePart, EncodePart, PartFits)
  {
    forall m: Bytes, rest ensures InvertsAt(DecodePart, EncodePart, PartFits, m, rest) {
      U32RoundTrip(|m|);
      assert (EncodePart(m) + rest)[..4] == U32(|m|);
    }
  }

  lemma {:induction false} EncodeManyConcat<T>(enc: T -> Bytes, a: seq<T>, b: seq<T>)
    ensures EncodeMany(enc, a + b) == EncodeMany(enc, a) + EncodeMany(enc, b)
  {
    if a == [] {
      assert a + b == b && EncodeMany(enc, a) + EncodeMany(enc, b) == EncodeMany(enc, b);
    } else {
      assert (a + b)[1..] == a[1..] + b;
      EncodeManyConcat(enc, a[1..], b);
    }
  }

  /** An envelope decodes to the mutations it was built from exactly when there are at
      most 65535 of them; beyond that the written count has wrapped and the envelope
      is rejected as corrupt. */
  lemma TxnRoundTrip(ms: seq<Bytes>)
    requires AllFit(PartFits, ms)
    ensures DecodeTxnBytes(EncodeTxnBytes(ms)) == if |ms| < 0x1_0000 then Some(ms) else None
  {
    PartsInvert();
    if |ms| < 0x1_0000 {
      CountedInvertsAll(DecodePart, EncodePart, PartFits);
      WholeInverts(Counted(DecodePart), EncCounted(EncodePart), CountFits(PartFits), ms);
    } else {
      TxnCountWraps(ms);
    }
  }

  lemma TxnCountWraps(ms: seq<Bytes>)
    requires AllFit(PartFits, ms) && |ms| >= 0x1_0000
    ensures DecodeTxnBytes(EncodeTxnBytes(ms)) == None
  {
    var b, n := EncodeTxnBytes(ms), |ms| % 0x1_0000;
    PartsInvert();
    U16RoundTrip(|ms|);
    assert ms == ms[..n] + ms[n..];
    EncodeManyConcat(EncodePart, ms[..n], ms[n..]);
    var kept, lost := EncodeMany(EncodePart, ms[..n]), EncodeMany(EncodePart, ms[n..]);
    assert b[..2] == U16(|ms|) && b[2..] == kept + lost;
    ManyInverts(DecodePart, EncodePart, PartFits, ms[..n], lost);
    assert |lost| >= |EncodePart(ms[n..][0])| > 0;
  }

  /** No proper prefix of an accepted envelope is accepted: a torn transaction is never
      a shorter transaction. */
  lemma TxnPrefixRejected(b: Bytes, k: nat)
    requires DecodeTxnBytes(b).Some? && k < |b|
    ensures DecodeTxnBytes(b[..k]) == None
  {
    PartsPrecise();
    CountedIsPrecise(DecodePart);
    WholePrefixRejected(Counted(DecodePart), b, k);
  }
}
