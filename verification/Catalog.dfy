/** The catalog records of the log: CREATE TABLE and DROP TABLE (catalog.go). */
module Catalog {
  import opened Wrappers
  import opened ByteStrings
  import opened Values
  import opened Codec

  // ---- columns ----

  function TypeCode(t: ColumnType): Byte {
    match t
    case TypeInt => 1
    case TypeString => 2
    case TypeBytes => 3
    case TypeBool => 4
    case TypeUuid => 5
    case TypeOther(code) => code
  }

  function TypeOf(code: Byte): ColumnType {
    if code == 1 then TypeInt
    else if code == 2 then TypeString
    else if code == 3 then TypeBytes
    else if code == 4 then TypeBool
    else if code == 5 then TypeUuid
    else TypeOther(code)
  }

  function Flags(c: Column): Byte {
    (if c.pk then 1 else 0) + (if c.partitionKey then 2 else 0) + (if c.immutable then 4 else 0) + (if c.nullable then 8 else 0)
  }

  type WireColumn = (Bytes, (Byte, Byte))

  function ColumnOf(x: WireColumn): Column {
    var (code, flags) := x.1;
    Column(x.0, TypeOf(code), flags % 2 == 1, flags / 4 % 2 == 1, flags / 2 % 2 == 1, flags / 8 % 2 == 1)
  }

  function ColumnFields(c: Column): WireColumn {
    (c.name, (TypeCode(c.typ), Flags(c)))
  }

  const WireColumns: Parser<WireColumn> := Then(LenStr, Then(ReadByte, ReadByte))
  const EncodeWire: WireColumn -> Bytes := EncThen(EncodeStr, EncThen(OneByte, OneByte))
  const WireFits: WireColumn -> bool := BothFit(StrFits, BothFit(AnyByte, AnyByte))

  const ColumnParser: Parser<Column> := Mapped(WireColumns, ColumnOf)
  const EncodeColumn: Column -> Bytes := Via(EncodeWire, ColumnFields)

  predicate ColumnFits(c: Column) {
    StrFits(c.name) && TypeOf(TypeCode(c.typ)) == c.typ
  }

  lemma ColumnsPrecise()
    ensures Precise(ColumnParser)
  {
    FieldsPrecise();
    ThenIsPrecise(ReadByte, ReadByte);
    ThenIsPrecise(LenStr, Then(ReadByte, ReadByte));
    MappedIsPrecise(WireColumns, ColumnOf);
  }

  lemma ColumnFieldsRoundTrip(c: Column)
    requires ColumnFits(c)
    ensures ColumnOf(ColumnFields(c)) == c
  {}

  lemma ColumnsInvert()
    ensures Inverts(ColumnParser, EncodeColumn, ColumnFits)
  {
    StrsInvert();
    NumbersInvert();
    ThenInverts(ReadByte, ReadByte, OneByte, OneByte, AnyByte, AnyByte);
    ThenInverts(LenStr, Then(ReadByte, ReadByte), EncodeStr, EncThen(OneByte, OneByte), StrFits, BothFit(AnyByte, AnyByte));
    forall c | ColumnFits(c) ensures WireFits(ColumnFields(c)) && ColumnOf(ColumnFields(c)) == c {
      ColumnFieldsRoundTrip(c);
    }
    MappedInverts(WireColumns, EncodeWire, WireFits, ColumnOf, ColumnFields, ColumnFits);
  }

  // ---- indexes ----

  type WireIndex = (Bytes, (seq<Bytes>, Byte))

  function IndexOf(x: WireIndex): IndexDecl {
    IndexDecl(x.0, x.1.0, x.1.1 / 2 % 2 == 1)
  }

  function IndexFields(ix: IndexDecl): WireIndex {
    (ix.name, (ix.columns, if ix.ordered then 2 else 0))
  }

  const WireIndexes: Parser<WireIndex> := Then(LenStr, Then(Counted(LenStr), ReadByte))
  const EncodeWireIndex: WireIndex -> Bytes := EncThen(EncodeStr, EncThen(EncCounted(EncodeStr), OneByte))
  const WireIndexFits: WireIndex -> bool := BothFit(StrFits, BothFit(CountFits(StrFits), AnyByte))

  const IndexParser: Parser<IndexDecl> := Mapped(WireIndexes, IndexOf)
  const EncodeIndex: IndexDecl -> Bytes := Via(EncodeWireIndex, IndexFields)

  predicate IndexFits(ix: IndexDecl) {
    StrFits(ix.name) && |ix.columns| < 0x1_0000 && AllFit(StrFits, ix.columns)
  }

  lemma IndexesPrecise()
    ensures Precise(IndexParser)
  {
    FieldsPrecise();
    CountedIsPrecise(LenStr);
    ThenIsPrecise(Counted(LenStr), ReadByte);
    ThenIsPrecise(LenStr, Then(Counted(LenStr), ReadByte));
    MappedIsPrecise(WireIndexes, IndexOf);
  }

  lemma IndexesInvert()
    ensures Inverts(IndexParser, EncodeIndex, IndexFits)
  {
    StrsInvert();
    NumbersInvert();
    CountedInvertsAll(LenStr, EncodeStr, StrFits);
    ThenInverts(Counted(LenStr), ReadByte, EncCounted(EncodeStr), OneByte, CountFits(StrFits), AnyByte);
    ThenInverts(LenStr, Then(Counted(LenStr), ReadByte), EncodeStr, EncThen(EncCounted(EncodeStr), OneByte),
                StrFits, BothFit(CountFits(StrFits), AnyByte));
    MappedInverts(WireIndexes, EncodeWireIndex, WireIndexFits, IndexOf, IndexFields, IndexFits);
  }

  // ---- the records ----

  type WireHead = (nat, (Bytes, seq<Column>))

  const CreateHead: Parser<WireHead> := Then(ReadU16, Then(LenStr, Counted(ColumnParser)))
  const EncodeHead: WireHead -> Bytes := EncThen(U16, EncThen(EncodeStr, EncCounted(EncodeColumn)))
  const HeadFits: WireHead -> bool := BothFit(FitsU16, BothFit(StrFits, CountFits(ColumnFits)))

  function EncodeCreateTable(id: nat, def: TableDef): Bytes {
    EncodeHead((id, (def.name, def.columns))) + EncodeCounted(EncodeIndex, def.indexes)
  }

  /** The index section is optional: a record may end right after its columns. */
  function DecodeCreateTable(b: Bytes): Option<(nat, TableDef)> {
    match CreateHead(b)
    case None => None
    case Some((head, k)) =>
      if k > |b| then None
      else if k == |b| then Some((head.0, TableDef(head.1.0, head.1.1, [])))
      else
        match Whole(Counted(IndexParser), b[k..])
        case None => None
        case Some(indexes) => Some((head.0, TableDef(head.1.0, head.1.1, indexes)))
  }

  function EncodeDropTable(name: Bytes): Bytes {
    EncodeStr(name)
  }

  function DecodeDropTable(b: Bytes): Option<Bytes> {
    Whole(LenStr, b)
  }

  /** `validateCatalogWireDef`. */
  predicate DefFits(def: TableDef) {
    && StrFits(def.name)
    && |def.columns| < 0x1_0000 && AllFit(ColumnFits, def.columns)
    && |def.indexes| < 0x1_0000 && AllFit(IndexFits, def.indexes)
  }

  lemma HeadInverts()
    ensures Inverts(CreateHead, EncodeHead, HeadFits)
  {
    NumbersInvert();
    StrsInvert();
    ColumnsInvert();
    CountedInvertsAll(ColumnParser, EncodeColumn, ColumnFits);
    ThenInverts(LenStr, Counted(ColumnParser), EncodeStr, EncCounted(EncodeColumn), StrFits, CountFits(ColumnFits));
    ThenInverts(ReadU16, Then(LenStr, Counted(ColumnParser)), U16, EncThen(EncodeStr, EncCounted(EncodeColumn)),
                FitsU16, BothFit(StrFits, CountFits(ColumnFits)));
  }

  lemma IndexSectionRoundTrip(indexes: seq<IndexDecl>)
    requires |indexes| < 0x1_0000 && AllFit(IndexFits, indexes)
    ensures Whole(Counted(IndexParser), EncodeCounted(EncodeIndex, indexes)) == Some(indexes)
  {
    IndexesInvert();
    CountedInvertsAll(IndexParser, EncodeIndex, IndexFits);
    WholeInverts(Counted(IndexParser), EncCounted(EncodeIndex), CountFits(IndexFits), indexes);
  }

  lemma DropPrefix(a: Bytes, b: Bytes)
    ensures (a + b)[|a|..] == b
  {}

  lemma HeadRoundTrip(id: nat, def: TableDef, rest: Bytes)
    requires id < 0x1_0000 && DefFits(def)
    ensures var head := EncodeHead((id, (def.name, def.columns)));
            CreateHead(head + rest) == Some(((id, (def.name, def.columns)), |head|))
  {
    HeadInverts();
    assert InvertsAt(CreateHead, EncodeHead, HeadFits, (id, (def.name, def.columns)), rest);
  }

  /** A table definition survives its record. */
  lemma CreateTableRoundTrip(id: nat, def: TableDef)
    requires id < 0x1_0000 && DefFits(def)
    ensures DecodeCreateTable(EncodeCreateTable(id, def)) == Some((id, def))
  {
    var tail := EncodeCounted(EncodeIndex, def.indexes);
    HeadRoundTrip(id, def, tail);
    IndexSectionRoundTrip(def.indexes);
    DropPrefix(EncodeHead((id, (def.name, def.columns))), tail);
  }

  lemma HeadPrecise()
    ensures Precise(CreateHead)
  {
    FieldsPrecise();
    ColumnsPrecise();
    CountedIsPrecise(ColumnParser);
    ThenIsPrecise(LenStr, Counted(ColumnParser));
    ThenIsPrecise(ReadU16, Then(LenStr, Counted(ColumnParser)));
  }

  /** Unlike rows and envelopes, a CREATE record has one proper prefix that decodes:
      the one ending right after the columns, read as the table without its indexes. */
  lemma CreateTablePrefix(b: Bytes, k: nat)
    requires DecodeCreateTable(b).Some? && k < |b|
    ensures CreateHead(b).Some?
    ensures DecodeCreateTable(b[..k])
         == if k == CreateHead(b).value.1
            then Some((DecodeCreateTable(b).value.0, TableDef(DecodeCreateTable(b).value.1.name, DecodeCreateTable(b).value.1.columns, [])))
            else None
  {
    HeadPrecise();
    var h := CreateHead(b).value.1;
    assert Bounded(CreateHead, b) && PreciseAt(CreateHead, b, b[..k]);
    if k < h {
      assert Agree(b, b[..k], h);
    } else {
      assert b[..k][..h] == b[..h] && Agree(b, b[..k], h);
      if k > h {
        IndexesPrecise();
        CountedIsPrecise(IndexParser);
        WholePrefixRejected(Counted(IndexParser), b[h..], k - h);
        assert b[..k][h..] == b[h..][..k - h];
      }
    }
  }

  lemma DropTableRoundTrip(name: Bytes)
    requires StrFits(name)
    ensures DecodeDropTable(EncodeDropTable(name)) == Some(name)
  {
    StrsInvert();
    WholeInverts(LenStr, EncodeStr, StrFits, name);
  }

  lemma DropTablePrefixRejected(b: Bytes, k: nat)
    requires DecodeDropTable(b).Some? && k < |b|
    ensures DecodeDropTable(b[..k]) == None
  {
    FieldsPrecise();
    WholePrefixRejected(LenStr, b, k);
  }
}
