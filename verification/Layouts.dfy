/** The log's bytes, place by place: which byte of a record holds what (wal.go,
    mutation_codec.go, catalog.go). */
module Layouts {
  import opened ByteStrings
  import opened Values
  import opened Codec
  import opened Catalog
  import opened Framing
  import opened Records

  /** The `n` bytes at `at` are the low bytes of `x`, least significant first. */
  ghost predicate Holds(b: Bytes, at: nat, n: nat, x: nat) {
    at + n <= |b| && forall k {:trigger b[at + k]} :: 0 <= k < n ==> b[at + k] == x / Pow256(k) % 256
  }

  ghost predicate HoldsBigEndian(b: Bytes, at: nat, n: nat, x: nat) {
    at + n <= |b| && forall k {:trigger b[at + k]} :: 0 <= k < n ==> b[at + k] == x / Pow256(n - 1 - k) % 256
  }

  lemma DivideTwice(x: nat, p: nat)
    requires p > 0
    ensures x / 256 / p == x / (256 * p)
  {
    var y := x / 256;
    var q, r := y / p, y % p;
    assert y == p * q + r;
    assert x == 256 * y + x % 256;
    assert x == (256 * p) * q + (256 * r + x % 256);
    QuotientIs(x, 256 * p, q, 256 * r + x % 256);
  }

  lemma QuotientIs(x: nat, d: nat, q: nat, r: nat)
    requires d > 0 && r < d && x == d * q + r
    ensures x / d == q
  {
    var e := x / d - q;
    assert d * (x / d) + x % d == d * q + r;
    assert d * e == r - x % d;
    if e != 0 { TimesAtLeast(d, e); }
  }

  lemma TimesAtLeast(d: nat, e: int)
    requires d > 0 && e != 0
    ensures d * e >= d || d * e <= 0 - d
  {
    if e > 0 {
      assert d * (e - 1) >= 0;
    } else {
      assert d * (0 - e - 1) >= 0;
    }
  }

  lemma {:induction false} LittleEndianByte(n: nat, x: nat, k: nat)
    requires k < n
    ensures LittleEndian(n, x)[k] == x / Pow256(k) % 256
    decreases n
  {
    if k > 0 {
      LittleEndianByte(n - 1, x / 256, k - 1);
      DivideTwice(x, Pow256(k - 1));
    }
  }

  lemma {:induction false} BigEndianByte(n: nat, x: nat, k: nat)
    requires k < n
    ensures BigEndian(n, x)[k] == x / Pow256(n - 1 - k) % 256
    decreases n
  {
    if k < n - 1 {
      BigEndianByte(n - 1, x / 256, k);
      DivideTwice(x, Pow256(n - 2 - k));
    }
  }

  lemma HoldsAfter(p: Bytes, n: nat, x: nat, rest: Bytes)
    ensures Holds(p + LittleEndian(n, x) + rest, |p|, n, x)
  {
    forall k | 0 <= k < n ensures (p + LittleEndian(n, x) + rest)[|p| + k] == x / Pow256(k) % 256 { LittleEndianByte(n, x, k); }
  }

  lemma HoldsBigEndianAfter(p: Bytes, n: nat, x: nat, rest: Bytes)
    ensures HoldsBigEndian(p + BigEndian(n, x) + rest, |p|, n, x)
  {
    var b := BigEndian(n, x);
    forall k | 0 <= k < n ensures b[k] == x / Pow256(n - 1 - k) % 256 { BigEndianByte(n, x, k); }
    forall k | 0 <= k < n ensures (p + b + rest)[|p| + k] == b[k] {}
  }

  // ---- cells ----

  /** A cell: its kind, then its contents. */
  lemma CellLayout(v: Value)
    ensures var b := EncodeCell(v);
            match v
            case Null => b == [0]
            case Int(i) => |b| == 9 && b[0] == 1 && Holds(b, 1, 8, if i < 0 then i + 0x1_0000_0000_0000_0000 else i)
            case Str(s) => |b| == 5 + |s| && b[0] == 2 && Holds(b, 1, 4, |s| % 0x1_0000_0000) && b[5..] == s
            case Blob(s) => |b| == 5 + |s| && b[0] == 3 && Holds(b, 1, 4, |s| % 0x1_0000_0000) && b[5..] == s
            case Bool(f) => b == [4, if f then 1 else 0]
            case Id(u) => |b| == 17 && b[0] == 5 && HoldsBigEndian(b, 1, 8, u.hi) && HoldsBigEndian(b, 9, 8, u.lo)
  {
    match v
    case Int(i) =>
      HoldsAfter([1], 8, Word64(i), []);
      assert EncodeCell(v) == [1] + LittleEndian(8, Word64(i)) + [];
    case Str(s) => HoldsAfter([2], 4, |s| % 0x1_0000_0000, s);
    case Blob(s) => HoldsAfter([3], 4, |s| % 0x1_0000_0000, s);
    case Id(u) => IdLayout(u);
    case _ =>
  }

  lemma IdLayout(u: Uuid)
    ensures var b := EncodeCell(Id(u)); |b| == 17 && b[0] == 5 && HoldsBigEndian(b, 1, 8, u.hi) && HoldsBigEndian(b, 9, 8, u.lo)
  {
    var b := EncodeCell(Id(u));
    HoldsBigEndianAfter([5], 8, u.hi, BigEndian(8, u.lo));
    assert [5] + BigEndian(8, u.hi) + BigEndian(8, u.lo) == b;
    HoldsBigEndianAfter([5] + BigEndian(8, u.hi), 8, u.lo, []);
    assert [5] + BigEndian(8, u.hi) + BigEndian(8, u.lo) + [] == b;
  }

  // ---- counted items ----

  /** Where the i-th item begins. */
  function ItemAt<T>(enc: T -> Bytes, xs: seq<T>, i: nat): nat
    requires i <= |xs|
  {
    if i == 0 then 2 else ItemAt(enc, xs, i - 1) + |enc(xs[i - 1])|
  }

  /** A row, an update's columns, an envelope's parts, a definition's columns and indexes: a
      16-bit count, then the items one after another and nothing else. */
  lemma CountedLayout<T>(enc: T -> Bytes, xs: seq<T>)
    ensures var b := EncodeCounted(enc, xs);
            && Holds(b, 0, 2, |xs| % 0x1_0000) && |b| == ItemAt(enc, xs, |xs|)
            && forall i {:trigger xs[i]} :: 0 <= i < |xs| ==>
                 ItemAt(enc, xs, i) + |enc(xs[i])| <= |b| && b[ItemAt(enc, xs, i)..ItemAt(enc, xs, i) + |enc(xs[i])|] == enc(xs[i])
  {
    var b := EncodeCounted(enc, xs);
    HoldsAfter([], 2, |xs| % 0x1_0000, EncodeMany(enc, xs));
    assert [] + U16(|xs|) + EncodeMany(enc, xs) == b;
    assert xs[..|xs|] == xs;
    UpTo(enc, xs, |xs|);
    forall i | 0 <= i < |xs|
      ensures ItemAt(enc, xs, i) + |enc(xs[i])| <= |b| && b[ItemAt(enc, xs, i)..ItemAt(enc, xs, i) + |enc(xs[i])|] == enc(xs[i])
    {
      ItemIn(enc, xs, i);
    }
  }

  lemma {:induction false} UpTo<T>(enc: T -> Bytes, xs: seq<T>, i: nat)
    requires i <= |xs|
    ensures 2 + |EncodeMany(enc, xs[..i])| == ItemAt(enc, xs, i)
  {
    if i > 0 {
      UpTo(enc, xs, i - 1);
      TakeOne(enc, xs, i - 1);
    }
  }

  lemma TakeOne<T>(enc: T -> Bytes, xs: seq<T>, i: nat)
    requires i < |xs|
    ensures EncodeMany(enc, xs[..i + 1]) == EncodeMany(enc, xs[..i]) + enc(xs[i])
  {
    assert xs[..i + 1] == xs[..i] + [xs[i]];
    EncodeManyConcat(enc, xs[..i], [xs[i]]);
    assert EncodeMany(enc, [xs[i]]) == enc(xs[i]) + [];
  }

  lemma ItemIn<T>(enc: T -> Bytes, xs: seq<T>, i: nat)
    requires i < |xs|
    ensures var b, at := EncodeCounted(enc, xs), ItemAt(enc, xs, i);
            at + |enc(xs[i])| <= |b| && b[at..at + |enc(xs[i])|] == enc(xs[i])
  {
    UpTo(enc, xs, i);
    SplitAt(enc, xs, i);
    Between(U16(|xs|), EncodeMany(enc, xs[..i]), enc(xs[i]), EncodeMany(enc, xs[i + 1..]));
  }

  lemma SplitAt<T>(enc: T -> Bytes, xs: seq<T>, i: nat)
    requires i < |xs|
    ensures EncodeMany(enc, xs) == EncodeMany(enc, xs[..i]) + enc(xs[i]) + EncodeMany(enc, xs[i + 1..])
  {
    TakeOne(enc, xs, i);
    assert xs == xs[..i + 1] + xs[i + 1..];
    EncodeManyConcat(enc, xs[..i + 1], xs[i + 1..]);
  }

  lemma Between(a: Bytes, b: Bytes, x: Bytes, c: Bytes)
    ensures var all := a + (b + x + c); all[|a| + |b|..|a| + |b| + |x|] == x
  {}

  // ---- mutations ----

  /** A mutation: its code, its table, then a row, a key and the changed columns, or a key. */
  lemma MutationLayout(m: Mutation)
    ensures var b := EncodeMutation(m);
            && |b| >= 3 && Holds(b, 1, 2, m.table % 0x1_0000)
            && match m.op
               case Insert(row) => b[0] == 1 && b[3..] == EncodeRowBytes(row)
               case Update(pk, sets) => b[0] == 2 && b[3..] == EncodeCell(pk) + EncodeCounted(EncodeSet, sets)
               case Delete(pk) => b[0] == 3 && b[3..] == EncodeCell(pk)
  {
    HoldsAfter([OpCode(m.op)], 2, m.table % 0x1_0000, EncodeBody(m.op));
  }

  /** A changed column: its ordinal in two bytes, then its cell. */
  lemma SetLayout(s: Assign)
    ensures |EncodeSet(s)| == 2 + |EncodeCell(s.value)| && Holds(EncodeSet(s), 0, 2, s.ord % 0x1_0000) && EncodeSet(s)[2..] == EncodeCell(s.value)
  {
    HoldsAfter([], 2, s.ord % 0x1_0000, EncodeCell(s.value));
    assert AssignFields(s) == (s.ord, s.value);
    assert EncThen(U16, EncodeCell)((s.ord, s.value)) == U16(s.ord) + EncodeCell(s.value);
    assert [] + U16(s.ord) + EncodeCell(s.value) == EncodeSet(s);
  }

  /** A part of a transaction: four bytes of length, then the mutation. */
  lemma PartLayout(m: Bytes)
    ensures Holds(EncodePart(m), 0, 4, |m| % 0x1_0000_0000) && EncodePart(m)[4..] == m
  {
    HoldsAfter([], 4, |m| % 0x1_0000_0000, m);
    assert [] + U32(|m|) + m == EncodePart(m);
  }

  // ---- definitions ----

  lemma StrLayout(s: Bytes)
    ensures Holds(EncodeStr(s), 0, 2, |s| % 0x1_0000) && EncodeStr(s)[2..] == s
  {
    HoldsAfter([], 2, |s| % 0x1_0000, s);
    assert [] + U16(|s|) + s == EncodeStr(s);
  }

  /** A column: its name, its type's code, and one bit for each of its four properties. */
  lemma ColumnLayout(c: Column)
    ensures var b, n := EncodeColumn(c), |c.name|;
            && |b| == n + 4 && b[..2 + n] == EncodeStr(c.name)
            && (match c.typ
                case TypeInt => b[2 + n] == 1
                case TypeString => b[2 + n] == 2
                case TypeBytes => b[2 + n] == 3
                case TypeBool => b[2 + n] == 4
                case TypeUuid => b[2 + n] == 5
                case TypeOther(code) => b[2 + n] == code)
            && (b[3 + n] % 2 == 1 <==> c.pk) && (b[3 + n] / 2 % 2 == 1 <==> c.partitionKey)
            && (b[3 + n] / 4 % 2 == 1 <==> c.immutable) && (b[3 + n] / 8 % 2 == 1 <==> c.nullable) && b[3 + n] < 16
  {
    var code, flags := TypeCode(c.typ), Flags(c);
    assert ColumnFields(c) == (c.name, (code, flags));
    assert EncThen(OneByte, OneByte)((code, flags)) == [code] + [flags];
    assert EncodeWire((c.name, (code, flags))) == EncodeStr(c.name) + ([code] + [flags]);
    assert EncodeColumn(c) == EncodeStr(c.name) + ([code] + [flags]);
  }

  /** An index: its name, its columns, and whether it is ordered in bit 1 of the last byte. */
  lemma IndexLayout(ix: IndexDecl)
    ensures EncodeIndex(ix) == EncodeStr(ix.name) + EncodeCounted(EncodeStr, ix.columns) + [if ix.ordered then 2 else 0]
  {
    var flag: Byte := if ix.ordered then 2 else 0;
    assert IndexFields(ix) == (ix.name, (ix.columns, flag));
    assert EncThen(EncCounted(EncodeStr), OneByte)((ix.columns, flag)) == EncodeCounted(EncodeStr, ix.columns) + [flag];
    assert EncodeWireIndex((ix.name, (ix.columns, flag))) == EncodeStr(ix.name) + (EncodeCounted(EncodeStr, ix.columns) + [flag]);
    assert EncodeIndex(ix) == EncodeStr(ix.name) + (EncodeCounted(EncodeStr, ix.columns) + [flag]);
  }

  /** A definition: its slot, its name, its columns, its indexes. */
  lemma CreateTableLayout(id: nat, def: TableDef)
    ensures var b := EncodeCreateTable(id, def);
            && Holds(b, 0, 2, id % 0x1_0000)
            && b[2..] == EncodeStr(def.name) + EncodeCounted(EncodeColumn, def.columns) + EncodeCounted(EncodeIndex, def.indexes)
  {
    var rest := EncodeStr(def.name) + EncodeCounted(EncodeColumn, def.columns) + EncodeCounted(EncodeIndex, def.indexes);
    HoldsAfter([], 2, id % 0x1_0000, rest);
    assert [] + U16(id) + rest == EncodeCreateTable(id, def);
  }

  // ---- envelopes ----

  /** An envelope: "HZ" with the low byte first, the type, version 2, the payload's length, the payload, and
      the checksum of everything before it. */
  lemma FrameLayout(crc: Bytes -> Checksum, e: Envelope)
    requires Frameable(e)
    ensures var f, n := Frame(crc, e), |e.payload|;
            && |f| == n + 12 && f[0] == 'Z' as int && f[1] == 'H' as int && f[2] == e.recType && f[3] == 2
            && Holds(f, 4, 4, n) && f[8..8 + n] == e.payload && Holds(f, 8 + n, 4, crc(f[..8 + n]))
  {
    var f, n := Frame(crc, e), |e.payload|;
    LittleEndianByte(2, WAL_MAGIC, 0);
    LittleEndianByte(2, WAL_MAGIC, 1);
    assert Pow256(1) == 256;
    var sum := LittleEndian(4, crc(Header(e) + e.payload));
    HoldsAfter(LittleEndian(2, WAL_MAGIC) + [e.recType, WAL_VERSION], 4, n, e.payload + sum);
    assert LittleEndian(2, WAL_MAGIC) + [e.recType, WAL_VERSION] + LittleEndian(4, n) + (e.payload + sum) == f;
    HoldsAfter(Header(e) + e.payload, 4, crc(Header(e) + e.payload), []);
    assert Header(e) + e.payload + sum + [] == f;
    assert f[..8 + n] == Header(e) + e.payload;
  }

  /** The type byte of each kind of record. */
  lemma RecordLayout(crc: Bytes -> Checksum, r: Record)
    requires RecordFits(r)
    ensures var f := Frame(crc, EncodeRecord(r));
            match r
            case Single(_) => f[2] == 1
            case Txn(_) => f[2] == 2
            case Checkpoint => f[2] == 3 && |f| == 12
            case CreateTable(_, _) => f[2] == 4
            case DropTable(_) => f[2] == 5
  {
    FrameLayout(crc, EncodeRecord(r));
  }
}
