/** The encoders and decoders as the code runs them: a buffer that grows, an offset
    that advances (mutation_codec.go, catalog.go). */
module CodecLoops {
  import opened Wrappers
  import opened ByteStrings
  import opened Values
  import opened Codec

  /** The loop every encoder runs over its items: append each to the buffer. */
  method AppendItems<T>(enc: T -> Bytes, buf0: Bytes, xs: seq<T>) returns (buf: Bytes)
    ensures buf == buf0 + EncodeMany(enc, xs)
  {
    buf := buf0;
    for i := 0 to |xs|
      invariant buf + EncodeMany(enc, xs[i..]) == buf0 + EncodeMany(enc, xs)
    {
      ghost var before, rest := buf, EncodeMany(enc, xs[i + 1..]);
      buf := buf + enc(xs[i]);
      assert xs[i..][1..] == xs[i + 1..];
      assert before + (enc(xs[i]) + rest) == buf + rest;
    }
    assert buf + [] == buf;
  }

  // ---- decoding ----

  /** What decoding `n` items comes to, `done` of them read up to `off`. */
  function Resume<T>(p: Parser<T>, b: Bytes, off: nat, done: seq<T>, n: nat): Parsed<seq<T>>
    requires off <= |b| && |done| <= n
  {
    match Many(p, b[off..], n - |done|)
    case None => None
    case Some((xs, m)) => Some((done + xs, off + m))
  }

  lemma ResumeStart<T>(p: Parser<T>, b: Bytes, n: nat)
    ensures Resume(p, b, 0, [], n) == Many(p, b, n)
  {
    assert b[0..] == b;
    match Many(p, b, n)
    case None =>
    case Some((xs, m)) => assert [] + xs == xs;
  }

  lemma ResumeStep<T>(p: Parser<T>, b: Bytes, off: nat, done: seq<T>, n: nat)
    requires off <= |b| && |done| < n
    ensures match p(b[off..])
            case None => Resume(p, b, off, done, n) == None
            case Some((x, k)) => off + k <= |b| ==> Resume(p, b, off, done, n) == Resume(p, b, off + k, done + [x], n)
  {
    match p(b[off..])
    case None =>
    case Some((x, k)) =>
      if off + k <= |b| {
        assert b[off..][k..] == b[off + k..];
        match Many(p, b[off + k..], n - |done| - 1)
        case None =>
        case Some((xs, m)) => assert done + ([x] + xs) == done + [x] + xs;
      }
  }

  lemma ResumeEnd<T>(p: Parser<T>, b: Bytes, off: nat, done: seq<T>)
    requires off <= |b|
    ensures Resume(p, b, off, done, |done|) == Some((done, off))
  {
    assert done + [] == done;
  }

  /** The loop every decoder runs over `n` items (`decodeRow`, `decodeUpdateMutation`,
      `decodeCreateTable`): one item at the offset, then past it. */
  method ReadItems<T(!new)>(p: Parser<T>, b: Bytes, n: nat) returns (r: Parsed<seq<T>>)
    requires Precise(p)
    ensures r == Many(p, b, n)
  {
    var off, xs := 0, [];
    ResumeStart(p, b, n);
    while |xs| < n
      invariant 0 <= off <= |b| && |xs| <= n
      invariant Many(p, b, n) == Resume(p, b, off, xs, n)
      decreases n - |xs|
    {
      ResumeStep(p, b, off, xs, n);
      assert Bounded(p, b[off..]);
      var x := p(b[off..]);
      if x.None? { return None; }
      xs, off := xs + [x.value.0], off + x.value.1;
    }
    ResumeEnd(p, b, off, xs);
    return Some((xs, off));
  }

  /** `encodeRow`. */
  method EncodeRow(buf0: Bytes, row: Row) returns (buf: Bytes)
    ensures buf == buf0 + EncodeRowBytes(row)
  {
    buf := AppendItems(EncodeCell, buf0 + U16(|row|), row);
    assert buf0 + U16(|row|) + EncodeMany(EncodeCell, row) == buf0 + EncodeRowBytes(row);
  }

  /** `decodeRow`. */
  method DecodeRow(b: Bytes) returns (r: Option<Row>)
    ensures r == DecodeRowBytes(b)
  {
    if |b| < 2 { return None; }
    CellsPrecise();
    var items := ReadItems(DecodeCell, b[2..], FromLittleEndian(b[..2]));
    if items.None? || 2 + items.value.1 != |b| { return None; }
    return Some(items.value.0);
  }

  /** `encodeTxn`. */
  method EncodeTxn(ms: seq<Bytes>) returns (buf: Bytes)
    ensures buf == EncodeTxnBytes(ms)
  {
    buf := AppendItems(EncodePart, U16(|ms|), ms);
  }

  // ---- applying a transaction while parsing it ----

  function ApplyParts<S>(apply: (S, Bytes) -> Option<S>, s: S, ms: seq<Bytes>): Option<S> {
    if ms == [] then Some(s)
    else
      match apply(s, ms[0])
      case None => None
      case Some(s') => ApplyParts(apply, s', ms[1..])
  }

  lemma {:induction false} ApplyPartsConcat<S>(apply: (S, Bytes) -> Option<S>, s: S, ms: seq<Bytes>, more: seq<Bytes>)
    ensures ApplyParts(apply, s, ms + more)
         == match ApplyParts(apply, s, ms) case None => None case Some(s') => ApplyParts(apply, s', more)
  {
    if ms == [] {
      assert ms + more == more;
    } else {
      assert (ms + more)[1..] == ms[1..] + more;
      match apply(s, ms[0])
      case None =>
      case Some(s') => ApplyPartsConcat(apply, s', ms[1..], more);
    }
  }

  lemma TxnStep<S>(apply: (S, Bytes) -> Option<S>, s0: S, s: S, done: seq<Bytes>, m: Bytes)
    requires ApplyParts(apply, s0, done) == Some(s)
    ensures ApplyParts(apply, s0, done + [m]) == apply(s, m)
  {
    ApplyPartsConcat(apply, s0, done, [m]);
    assert [m][1..] == [];
  }

  /** Parsed parts, applied if they fill the body. */
  function AppliedParts<S>(apply: (S, Bytes) -> Option<S>, s: S, parsed: Parsed<seq<Bytes>>, end: nat): Option<S> {
    match parsed
    case None => None
    case Some((ms, off)) => if off == end then ApplyParts(apply, s, ms) else None
  }

  /** Once a part has failed to apply, nothing that follows can help. */
  lemma TxnStaysFailed<S>(p: Parser<Bytes>, apply: (S, Bytes) -> Option<S>, s0: S, b: Bytes, off: nat, done: seq<Bytes>, n: nat)
    requires off <= |b| && |done| <= n && ApplyParts(apply, s0, done) == None
    ensures AppliedParts(apply, s0, Resume(p, b, off, done, n), |b|) == None
  {
    var rest := Many(p, b[off..], n - |done|);
    if rest.Some? {
      ApplyPartsConcat(apply, s0, done, rest.value.0);
    }
  }

  /** The walk over the parts: each is applied as soon as it is parsed. */
  method ApplyEach<S>(p: Parser<Bytes>, b: Bytes, n: nat, s0: S, apply: (S, Bytes) -> Option<S>) returns (r: Option<S>)
    requires Precise(p)
    ensures r == AppliedParts(apply, s0, Many(p, b, n), |b|)
  {
    var off, i, s := 0, 0, s0;
    ghost var done: seq<Bytes> := [];
    ResumeStart(p, b, n);
    while i < n
      invariant 0 <= off <= |b| && |done| == i <= n
      invariant Many(p, b, n) == Resume(p, b, off, done, n)
      invariant ApplyParts(apply, s0, done) == Some(s)
    {
      ResumeStep(p, b, off, done, n);
      assert Bounded(p, b[off..]);
      var part := p(b[off..]);
      if part.None? { return None; }
      var applied := apply(s, part.value.0);
      TxnStep(apply, s0, s, done, part.value.0);
      done := done + [part.value.0];
      off, i := off + part.value.1, i + 1;
      if applied.None? {
        TxnStaysFailed(p, apply, s0, b, off, done, n);
        return None;
      }
      s := applied.value;
    }
    ResumeEnd(p, b, off, done);
    if off != |b| { return None; }
    return Some(s);
  }

  /** `forEachTxnMutation`: applies as it parses, yet succeeds exactly when the whole
      envelope is well formed and every part applies in order. */
  method ForEachTxnMutation<S>(payload: Bytes, s0: S, apply: (S, Bytes) -> Option<S>) returns (r: Option<S>)
    ensures r == match DecodeTxnBytes(payload) case None => None case Some(ms) => ApplyParts(apply, s0, ms)
  {
    if |payload| < 2 { return None; }
    PartsPrecise();
    r := ApplyEach(DecodePart, payload[2..], FromLittleEndian(payload[..2]), s0, apply);
  }
}
