/** The write-ahead log's record envelope and the scan that reads a segment back
    (wal.go). The checksum is an uninterpreted function of the bytes it covers. */
module Framing {
  import opened Wrappers
  import opened ByteStrings

  const WAL_MAGIC: nat := 0x485A
  const WAL_VERSION: Byte := 2

  type Checksum = c: int | 0 <= c < 0x1_0000_0000

  datatype Envelope = Envelope(recType: Byte, payload: Bytes)

  /** How a scan ends: at the end of the file, at unreadable framing, at a version
      this code does not write, or because the consumer refused a record. */
  datatype ScanEnd<+E> = Eof | BrokenFraming | BadVersion | Refused(error: E)

  function Header(e: Envelope): (h: Bytes)
    ensures |h| == 8
  {
    LittleEndian(2, WAL_MAGIC) + [e.recType, WAL_VERSION] + LittleEndian(4, |e.payload|)
  }

  /** `writeRecord`'s bytes: magic, type, version, length, payload, checksum. */
  function Frame(crc: Bytes -> Checksum, e: Envelope): (f: Bytes)
    ensures |f| == |e.payload| + 12
  {
    Header(e) + e.payload + LittleEndian(4, crc(Header(e) + e.payload))
  }

  function FrameAll(crc: Bytes -> Checksum, es: seq<Envelope>): Bytes {
    if es == [] then [] else Frame(crc, es[0]) + FrameAll(crc, es[1..])
  }

  /** The length field holds 32 bits. */
  predicate Frameable(e: Envelope) {
    |e.payload| < 0x1_0000_0000
  }

  ghost predicate AllFrameable(es: seq<Envelope>) {
    forall i :: 0 <= i < |es| ==> Frameable(es[i])
  }

  /** One record read from the front of `b`: the envelope, or why the scan stops.
      The fields are checked in the order the code checks them. */
  function ReadOne(crc: Bytes -> Checksum, b: Bytes): (r: Result<Envelope, ScanEnd<()>>)
    ensures r.Ok? ==> |r.value.payload| + 12 <= |b|
  {
    if b == [] then Err(Eof)
    else if |b| < 8 then Err(BrokenFraming)
    else if FromLittleEndian(b[..2]) != WAL_MAGIC then Err(BrokenFraming)
    else if b[3] != WAL_VERSION then Err(BadVersion)
    else
      var n := FromLittleEndian(b[4..8]);
      if n + 4 > |b| - 8 then Err(BrokenFraming)
      else if FromLittleEndian(b[8 + n..12 + n]) != crc(b[..8 + n]) then Err(BrokenFraming)
      else Ok(Envelope(b[2], b[8..8 + n]))
  }

  /** Everything a scan hands over, and how it ends. */
  function Scan(crc: Bytes -> Checksum, b: Bytes): (seq<Envelope>, ScanEnd<()>)
    decreases |b|
  {
    match ReadOne(crc, b)
    case Err(end) => ([], end)
    case Ok(e) =>
      var (es, end) := Scan(crc, b[|e.payload| + 12..]);
      ([e] + es, end)
  }

  /** A frame is read back as its envelope, whatever follows it. */
  lemma ReadsFrame(crc: Bytes -> Checksum, e: Envelope, rest: Bytes)
    requires Frameable(e)
    ensures ReadOne(crc, Frame(crc, e) + rest) == Ok(e)
  {
    Pow256Values();
    var b, n := Frame(crc, e) + rest, |e.payload|;
    assert b[..2] == LittleEndian(2, WAL_MAGIC) && b[4..8] == LittleEndian(4, n);
    assert b[8..8 + n] == e.payload && b[..8 + n] == Header(e) + e.payload;
    assert b[8 + n..12 + n] == LittleEndian(4, crc(Header(e) + e.payload));
    LittleEndianRoundTrip(2, WAL_MAGIC);
    LittleEndianRoundTrip(4, n);
    LittleEndianRoundTrip(4, crc(Header(e) + e.payload));
  }

  /** Whatever is read as an envelope was that envelope's frame. */
  lemma ReadIsFrame(crc: Bytes -> Checksum, b: Bytes)
    requires ReadOne(crc, b).Ok?
    ensures var e := ReadOne(crc, b).value; Frameable(e) && b[..|e.payload| + 12] == Frame(crc, e)
  {
    Pow256Values();
    var e := ReadOne(crc, b).value;
    var n := |e.payload|;
    FromLittleEndianRoundTrip(b[..2]);
    FromLittleEndianRoundTrip(b[4..8]);
    FromLittleEndianRoundTrip(b[8 + n..12 + n]);
    assert b[..8] == b[..2] + [b[2], b[3]] + b[4..8] == Header(e);
    assert b[..8 + n] == b[..8] + b[8..8 + n] == Header(e) + e.payload;
    assert b[..12 + n] == b[..8 + n] + b[8 + n..12 + n];
  }

  lemma Regroup<T>(a: seq<T>, b: seq<T>, c: seq<T>)
    ensures (a + b) + c == a + (b + c)
  {}

  lemma ScanOfFrame(crc: Bytes -> Checksum, e: Envelope, rest: Bytes)
    requires Frameable(e)
    ensures Scan(crc, Frame(crc, e) + rest) == ([e] + Scan(crc, rest).0, Scan(crc, rest).1)
  {
    ReadsFrame(crc, e, rest);
    assert (Frame(crc, e) + rest)[|e.payload| + 12..] == rest;
  }

  /** Whole frames are handed over in order, and the scan goes on with what follows. */
  lemma {:induction false} ScanSkipsFrames(crc: Bytes -> Checksum, es: seq<Envelope>, rest: Bytes)
    requires AllFrameable(es)
    ensures Scan(crc, FrameAll(crc, es) + rest) == (es + Scan(crc, rest).0, Scan(crc, rest).1)
  {
    if es == [] {
      assert FrameAll(crc, es) + rest == rest && es + Scan(crc, rest).0 == Scan(crc, rest).0;
    } else {
      var tail, found := FrameAll(crc, es[1..]), Scan(crc, rest).0;
      ScanSkipsFrames(crc, es[1..], rest);
      ScanOfFrame(crc, es[0], tail + rest);
      Regroup(Frame(crc, es[0]), tail, rest);
      Regroup([es[0]], es[1..], found);
      assert es == [es[0]] + es[1..];
    }
  }

  /** A segment of concatenated envelopes is handed over exactly, and ends cleanly. */
  lemma FramedIsScanned(crc: Bytes -> Checksum, es: seq<Envelope>)
    requires AllFrameable(es)
    ensures Scan(crc, FrameAll(crc, es)) == (es, Eof)
  {
    ScanSkipsFrames(crc, es, []);
    assert FrameAll(crc, es) + [] == FrameAll(crc, es) && es + [] == es;
  }

  /** Conversely, what a scan hands over is framed at the front of the file, and a
      scan that ends cleanly consumed nothing else. */
  lemma {:induction false} ScannedIsFramed(crc: Bytes -> Checksum, b: Bytes)
    ensures var (es, end) := Scan(crc, b);
            AllFrameable(es) && FrameAll(crc, es) <= b && (end == Eof <==> FrameAll(crc, es) == b)
    decreases |b|
  {
    var r := ReadOne(crc, b);
    if r.Ok? {
      var n := |r.value.payload| + 12;
      ReadIsFrame(crc, b);
      ScannedIsFramed(crc, b[n..]);
      FrameThenRest(crc, r.value, Scan(crc, b[n..]).0, b, n);
    }
  }

  /** A first frame, and frames at the front of what follows it. */
  lemma FrameThenRest(crc: Bytes -> Checksum, e: Envelope, es: seq<Envelope>, b: Bytes, n: nat)
    requires n <= |b| && b[..n] == Frame(crc, e) && FrameAll(crc, es) <= b[n..] && Frameable(e) && AllFrameable(es)
    ensures AllFrameable([e] + es) && FrameAll(crc, [e] + es) <= b
    ensures FrameAll(crc, [e] + es) == b <==> FrameAll(crc, es) == b[n..]
  {
    var rest := FrameAll(crc, es);
    assert ([e] + es)[1..] == es;
    assert FrameAll(crc, [e] + es) == b[..n] + rest;
    assert b == b[..n] + b[n..];
    if b[..n] + rest == b { assert b[n..] == (b[..n] + rest)[n..] == rest; }
  }

  lemma {:induction false} FrameAllConcat(crc: Bytes -> Checksum, a: seq<Envelope>, b: seq<Envelope>)
    ensures FrameAll(crc, a + b) == FrameAll(crc, a) + FrameAll(crc, b)
  {
    if a == [] {
      assert a + b == b && FrameAll(crc, a) + FrameAll(crc, b) == FrameAll(crc, b);
    } else {
      assert (a + b)[1..] == a[1..] + b;
      FrameAllConcat(crc, a[1..], b);
    }
  }

  // ---- a segment cut short ----

  /** How many envelopes lie wholly within the first `k` bytes. */
  function WholeBefore(crc: Bytes -> Checksum, es: seq<Envelope>, k: nat): (w: nat)
    ensures w <= |es|
  {
    if es == [] || k < |Frame(crc, es[0])| then 0
    else 1 + WholeBefore(crc, es[1..], k - |Frame(crc, es[0])|)
  }

  lemma {:induction false} WholeBeforeIsMaximal(crc: Bytes -> Checksum, es: seq<Envelope>, k: nat)
    ensures var w := WholeBefore(crc, es, k);
            |FrameAll(crc, es[..w])| <= k && (w < |es| ==> k < |FrameAll(crc, es[..w + 1])|)
  {
    if es != [] && k >= |Frame(crc, es[0])| {
      var w := WholeBefore(crc, es[1..], k - |Frame(crc, es[0])|);
      WholeBeforeIsMaximal(crc, es[1..], k - |Frame(crc, es[0])|);
      assert es[..w + 1][1..] == es[1..][..w];
      if w + 1 < |es| {
        assert es[..w + 2][1..] == es[1..][..w + 1];
      }
    } else if es != [] {
      assert es[..1][1..] == [];
      assert FrameAll(crc, es[..1]) == Frame(crc, es[0]) + [];
    }
  }

  /** A nonempty proper prefix of one frame is unreadable framing, never a record and
      never a clean end. */
  lemma CutFrameIsBroken(crc: Bytes -> Checksum, e: Envelope, k: nat)
    requires Frameable(e) && 0 < k < |Frame(crc, e)|
    ensures ReadOne(crc, Frame(crc, e)[..k]) == Err(BrokenFraming)
  {
    Pow256Values();
    var f := Frame(crc, e);
    var b := f[..k];
    if k >= 8 {
      assert b[..2] == LittleEndian(2, WAL_MAGIC) && b[4..8] == LittleEndian(4, |e.payload|);
      LittleEndianRoundTrip(2, WAL_MAGIC);
      LittleEndianRoundTrip(4, |e.payload|);
    }
  }

  /** Cut at any byte, a segment hands over exactly the records wholly before the cut,
      and reports broken framing unless the cut falls on a record boundary. */
  lemma {:induction false} CutSegment(crc: Bytes -> Checksum, es: seq<Envelope>, k: nat)
    requires AllFrameable(es) && k <= |FrameAll(crc, es)|
    ensures var w := WholeBefore(crc, es, k);
            Scan(crc, FrameAll(crc, es)[..k])
            == (es[..w], if k == |FrameAll(crc, es[..w])| then Eof else BrokenFraming)
  {
    var w := WholeBefore(crc, es, k);
    WholeBeforeIsMaximal(crc, es, k);
    var good, rest := FrameAll(crc, es[..w]), CutRest(crc, es, k);
    CutSplits(crc, es, k);
    ScanSkipsFrames(crc, es[..w], rest);
    if k == |good| {
      assert rest == [];
    } else {
      CutFrameIsBroken(crc, es[w], k - |good|);
    }
    assert es[..w] + [] == es[..w];
  }

  /** The bytes a cut leaves after the last whole envelope. */
  function CutRest(crc: Bytes -> Checksum, es: seq<Envelope>, k: nat): Bytes
    requires k <= |FrameAll(crc, es)|
  {
    WholeBeforeIsMaximal(crc, es, k);
    FrameAll(crc, es)[..k][|FrameAll(crc, es[..WholeBefore(crc, es, k)])|..]
  }

  lemma CutSplits(crc: Bytes -> Checksum, es: seq<Envelope>, k: nat)
    requires k <= |FrameAll(crc, es)|
    ensures var w := WholeBefore(crc, es, k);
            var good := FrameAll(crc, es[..w]);
            && |good| <= k && FrameAll(crc, es)[..k] == good + CutRest(crc, es, k)
            && (k > |good| ==> w < |es| && k - |good| < |Frame(crc, es[w])| && CutRest(crc, es, k) == Frame(crc, es[w])[..k - |good|])
  {
    var w := WholeBefore(crc, es, k);
    WholeBeforeIsMaximal(crc, es, k);
    var good, rest := FrameAll(crc, es[..w]), FrameAll(crc, es[w..]);
    assert es == es[..w] + es[w..];
    FrameAllConcat(crc, es[..w], es[w..]);
    CutAfter(good, rest, k);
    if w < |es| {
      NextFrame(crc, es, w);
      CutWithin(good, Frame(crc, es[w]), FrameAll(crc, es[w + 1..]), k);
    }
  }

  lemma NextFrame(crc: Bytes -> Checksum, es: seq<Envelope>, w: nat)
    requires w < |es|
    ensures FrameAll(crc, es[w..]) == Frame(crc, es[w]) + FrameAll(crc, es[w + 1..])
    ensures |FrameAll(crc, es[..w + 1])| == |FrameAll(crc, es[..w])| + |Frame(crc, es[w])|
  {
    assert es[w..][1..] == es[w + 1..] && es[..w + 1] == es[..w] + [es[w]];
    FrameAllConcat(crc, es[..w], [es[w]]);
    SingleFrame(crc, es[w]);
  }

  lemma CutAfter(a: Bytes, b: Bytes, k: nat)
    requires |a| <= k <= |a + b|
    ensures (a + b)[..k] == a + (a + b)[..k][|a|..]
  {}

  lemma SingleFrame(crc: Bytes -> Checksum, e: Envelope)
    ensures FrameAll(crc, [e]) == Frame(crc, e)
  {
    assert FrameAll(crc, [e]) == Frame(crc, e) + [];
  }

  lemma CutWithin(a: Bytes, b: Bytes, c: Bytes, k: nat)
    requires |a| <= k < |a| + |b|
    ensures (a + (b + c))[..k][|a|..] == b[..k - |a|]
  {}

  // ---- the scan loop ----

  /** Hands envelopes to the consumer one by one, up to the first it refuses. */
  function Deliver<S, E>(apply: (S, Envelope) -> Result<S, E>, s: S, es: seq<Envelope>): (S, Option<E>) {
    if es == [] then (s, None)
    else
      match apply(s, es[0])
      case Err(e) => (s, Some(e))
      case Ok(s') => Deliver(apply, s', es[1..])
  }

  /** A scan driving a consumer: a refusal wins over how the bytes would have ended. */
  function ScanInto<S, E>(crc: Bytes -> Checksum, b: Bytes, s: S, apply: (S, Envelope) -> Result<S, E>): (S, ScanEnd<E>) {
    var (es, end) := Scan(crc, b);
    match Deliver(apply, s, es)
    case (s', Some(e)) => (s', Refused(e))
    case (s', None) => (s', match end case BrokenFraming => BrokenFraming case BadVersion => BadVersion case _ => Eof)
  }

  lemma SliceFrom(b: Bytes, pos: nat, i: nat, j: nat)
    requires i <= j <= |b| - pos
    ensures b[pos..][i..j] == b[pos + i..pos + j]
  {}

  /** One turn of the scan loop: reads the record at `pos`, advancing past it. */
  method ReadRecord(crc: Bytes -> Checksum, file: Bytes, pos: nat) returns (r: Result<Envelope, ScanEnd<()>>, next: nat)
    requires pos <= |file|
    ensures r == ReadOne(crc, file[pos..])
    ensures r.Ok? ==> next == pos + |r.value.payload| + 12
  {
    next := pos;
    ghost var b := file[pos..];
    if pos == |file| { return Err(Eof), next; }
    if |file| - pos < 8 { return Err(BrokenFraming), next; }
    var hdr := file[pos..pos + 8];
    next := pos + 8;
    SliceFrom(file, pos, 0, 8);
    SliceFrom(b, 0, 0, 8);
    assert b[..8][..2] == b[..2] && b[..8][4..8] == b[4..8];
    if FromLittleEndian(hdr[..2]) != WAL_MAGIC { return Err(BrokenFraming), next; }
    if hdr[3] != WAL_VERSION { return Err(BadVersion), next; }
    var length := FromLittleEndian(hdr[4..8]);
    if length + 4 > |file| - next { return Err(BrokenFraming), next; }
    var payload := file[next..next + length];
    var sum := FromLittleEndian(file[next + length..next + length + 4]);
    SliceFrom(file, pos, 8, 8 + length);
    SliceFrom(file, pos, 8 + length, 12 + length);
    assert hdr + payload == b[..8] + b[8..8 + length] == b[..8 + length];
    if sum != crc(hdr + payload) { return Err(BrokenFraming), next; }
    return Ok(Envelope(hdr[2], payload)), next + length + 4;
  }

  lemma ScanIntoStep<S, E>(crc: Bytes -> Checksum, b: Bytes, s: S, apply: (S, Envelope) -> Result<S, E>)
    ensures match ReadOne(crc, b)
            case Err(BrokenFraming) => ScanInto(crc, b, s, apply) == (s, BrokenFraming)
            case Err(BadVersion) => ScanInto(crc, b, s, apply) == (s, BadVersion)
            case Err(_) => ScanInto(crc, b, s, apply) == (s, Eof)
            case Ok(e) =>
              match apply(s, e)
              case Err(x) => ScanInto(crc, b, s, apply) == (s, Refused(x))
              case Ok(s') => ScanInto(crc, b, s, apply) == ScanInto(crc, b[|e.payload| + 12..], s', apply)
  {
    match ReadOne(crc, b)
    case Err(_) =>
    case Ok(e) =>
      var es := Scan(crc, b[|e.payload| + 12..]).0;
      assert ([e] + es)[1..] == es;
  }

  /** `scanRecords`: reads the file front to back, handing each record to `apply`. */
  method ScanRecords<S, E>(crc: Bytes -> Checksum, file: Bytes, s0: S, apply: (S, Envelope) -> Result<S, E>)
    returns (s: S, end: ScanEnd<E>)
    ensures (s, end) == ScanInto(crc, file, s0, apply)
  {
    var pos := 0;
    s := s0;
    assert file[pos..] == file;
    while true
      invariant pos <= |file|
      invariant ScanInto(crc, file, s0, apply) == ScanInto(crc, file[pos..], s, apply)
      decreases |file| - pos
    {
      var r, next := ReadRecord(crc, file, pos);
      ScanIntoStep(crc, file[pos..], s, apply);
      match r
      case Err(BrokenFraming) => return s, BrokenFraming;
      case Err(BadVersion) => return s, BadVersion;
      case Err(_) => return s, Eof;
      case Ok(e) =>
        var applied := apply(s, e);
        if applied.Err? { return s, Refused(applied.error); }
        assert file[pos..][|e.payload| + 12..] == file[next..];
        s, pos := applied.value, next;
    }
  }
}
