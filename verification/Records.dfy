/** Log records as values, and as the envelopes that carry them (wal.go, db_replay.go). */
module Records {
  import opened Wrappers
  import opened ByteStrings
  import opened Codec
  import opened Catalog
  import opened Framing

  /** One log record: a statement's mutation, an atomic group of them, or DDL. */
  datatype Record =
    | Single(m: Mutation)
    | Txn(ms: seq<Mutation>)
    | Checkpoint
    | CreateTable(id: nat, def: TableDef)
    | DropTable(name: Bytes)

  function EncodeRecord(r: Record): Envelope {
    match r
    case Single(m) => Envelope(1, EncodeMutation(m))
    case Txn(ms) => Envelope(2, EncodeTxnBytes(EncodeAll(ms)))
    case Checkpoint => Envelope(3, [])
    case CreateTable(id, def) => Envelope(4, EncodeCreateTable(id, def))
    case DropTable(name) => Envelope(5, EncodeDropTable(name))
  }

  function DecodeAll(parts: seq<Bytes>): Option<seq<Mutation>> {
    if parts == [] then Some([])
    else
      match (DecodeMutation(parts[0]), DecodeAll(parts[1..]))
      case (Some(m), Some(ms)) => Some([m] + ms)
      case _ => None
  }

  /** None is a record the readers refuse as corrupt. */
  function DecodeRecord(e: Envelope): Option<Record> {
    if e.recType == 1 then
      match DecodeMutation(e.payload)
      case Some(m) => Some(Single(m))
      case None => None
    else if e.recType == 2 then
      match DecodeTxnBytes(e.payload)
      case None => None
      case Some(parts) =>
        match DecodeAll(parts)
        case Some(ms) => Some(Txn(ms))
        case None => None
    else if e.recType == 3 then Some(Checkpoint)
    else if e.recType == 4 then
      match DecodeCreateTable(e.payload)
      case Some(t) => Some(CreateTable(t.0, t.1))
      case None => None
    else if e.recType == 5 then
      match DecodeDropTable(e.payload)
      case Some(name) => Some(DropTable(name))
      case None => None
    else None
  }

  /** Everything fits the widths it is written in. */
  ghost predicate RecordFits(r: Record) {
    && |EncodeRecord(r).payload| < 0x1_0000_0000
    && match r
       case Single(m) => MutationFits(m)
       case Txn(ms) => |ms| < 0x1_0000 && forall i :: 0 <= i < |ms| ==> MutationFits(ms[i]) && PartFits(EncodeMutation(ms[i]))
       case Checkpoint => true
       case CreateTable(id, def) => id < 0x1_0000 && DefFits(def)
       case DropTable(name) => StrFits(name)
  }

  lemma {:induction false} DecodeAllRoundTrip(ms: seq<Mutation>, parts: seq<Bytes>)
    requires |parts| == |ms| && forall i :: 0 <= i < |ms| ==> MutationFits(ms[i]) && parts[i] == EncodeMutation(ms[i])
    ensures DecodeAll(parts) == Some(ms)
  {
    if ms != [] {
      MutationRoundTrip(ms[0]);
      DecodeAllRoundTrip(ms[1..], parts[1..]);
      assert [ms[0]] + ms[1..] == ms;
    }
  }

  function EncodeAll(ms: seq<Mutation>): seq<Bytes> {
    seq(|ms|, i requires 0 <= i < |ms| => EncodeMutation(ms[i]))
  }

  lemma GroupRoundTrip(ms: seq<Mutation>)
    requires |ms| < 0x1_0000 && forall i :: 0 <= i < |ms| ==> MutationFits(ms[i]) && PartFits(EncodeMutation(ms[i]))
    ensures DecodeTxnBytes(EncodeTxnBytes(EncodeAll(ms))) == Some(EncodeAll(ms)) && DecodeAll(EncodeAll(ms)) == Some(ms)
  {
    TxnRoundTrip(EncodeAll(ms));
    DecodeAllRoundTrip(ms, EncodeAll(ms));
  }

  /** A log record survives its envelope. */
  lemma RecordRoundTrip(r: Record)
    requires RecordFits(r)
    ensures Frameable(EncodeRecord(r)) && DecodeRecord(EncodeRecord(r)) == Some(r)
  {
    match r
    case Single(m) => MutationRoundTrip(m);
    case Txn(ms) => GroupRoundTrip(ms);
    case Checkpoint =>
    case CreateTable(id, def) => CreateTableRoundTrip(id, def);
    case DropTable(name) => DropTableRoundTrip(name);
  }
}
