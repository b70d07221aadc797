/**
 An entity account's code, `0xFE || version || RLP(record)`, and its decoding
 (`decodeEntityRecord` in src/entityGenesisDump.ts).
 */
module DumpRecord {
  import opened Wrappers
  import opened ByteStrings
  import opened BigEndian
  import opened Rlp

  const ENTITY_CODE_MARKER: Byte := 0xfe

  // ---------------------------------------------------------------------
  // Text and attribute values

  predicate InByteRange(b: Byte, low: Byte, high: Byte) { low <= b <= high }

  /** How many bytes the first code point of well-formed UTF-8 takes; 0 when it is not well-formed. */
  function CodePointLength(s: ByteString): nat
    requires s != []
  {
    var b := s[0];
    if b < 0x80 then 1
    else if 0xc2 <= b <= 0xdf then
      if |s| >= 2 && InByteRange(s[1], 0x80, 0xbf) then 2 else 0
    else if 0xe0 <= b <= 0xef then
      if |s| >= 3 && InByteRange(s[1], if b == 0xe0 then 0xa0 else 0x80, if b == 0xed then 0x9f else 0xbf) && InByteRange(s[2], 0x80, 0xbf)
      then 3 else 0
    else if 0xf0 <= b <= 0xf4 then
      if |s| >= 4 && InByteRange(s[1], if b == 0xf0 then 0x90 else 0x80, if b == 0xf4 then 0x8f else 0xbf) &&
         InByteRange(s[2], 0x80, 0xbf) && InByteRange(s[3], 0x80, 0xbf)
      then 4 else 0
    else 0
  }

  predicate IsUtf8(s: ByteString) {
    s == [] || (0 < CodePointLength(s) <= |s| && IsUtf8(s[CodePointLength(s)..]))
  }

  const BYTE_ORDER_MARK: ByteString := [0xef, 0xbb, 0xbf]

  /** A strict decoder, which drops a leading byte order mark. */
  function Utf8Text(s: ByteString): Outcome<ByteString> {
    if !IsUtf8(s) then Fault else Ok(WithoutMark(s))
  }

  function WithoutMark(s: ByteString): ByteString {
    if BYTE_ORDER_MARK <= s then s[3..] else s
  }

  datatype DumpValue =
    | BoolOf(bit: bool)
    | I32Of(number: int) | U64Of(number: int) | U256Of(number: int) | DecOf(number: int)
    | Bytes32Of(bytes: ByteString) | StrOf(bytes: ByteString) | AddrOf(bytes: ByteString) | KeyOf(bytes: ByteString)

  function TagOf(v: DumpValue): nat {
    match v
    case BoolOf(_) => 1
    case I32Of(_) => 2
    case U64Of(_) => 3
    case U256Of(_) => 4
    case DecOf(_) => 5
    case Bytes32Of(_) => 6
    case StrOf(_) => 8
    case AddrOf(_) => 9
    case KeyOf(_) => 10
  }

  /** The top half of the words of a width are the negative numbers. */
  function Signed(n: nat, width: nat): int
    requires width > 0
  {
    if n >= 128 * Pow256(width - 1) then n - Pow256(width) else n
  }

  /** A value's storage bytes, read as their type. */
  function WireValue(typeId: nat, s: ByteString): Outcome<DumpValue> {
    match typeId
    case 1 => if |s| != 1 || s[0] > 1 then Fault else Ok(BoolOf(s[0] == 1))
    case 2 => if |s| != 4 then Fault else Ok(I32Of(Signed(Decode(s), 4)))
    case 3 => if |s| != 8 then Fault else Ok(U64Of(Decode(s)))
    case 4 => if |s| != 32 then Fault else Ok(U256Of(Decode(s)))
    case 5 => if |s| != 32 then Fault else Ok(DecOf(Signed(Decode(s), 32)))
    case 6 => if |s| != 32 then Fault else Ok(Bytes32Of(s))
    case 8 => var text :- Utf8Text(s); Ok(StrOf(text))
    case 9 => if |s| != 20 then Fault else Ok(AddrOf(s))
    case 10 => if |s| != 32 then Fault else Ok(KeyOf(s))
    case _ => Fault
  }

  predicate SignedFits(n: int, width: nat)
    requires width > 0
  {
    -128 * Pow256(width - 1) <= n < 128 * Pow256(width - 1)
  }

  /** A value of its type, as the node stores it. */
  predicate IsValue(v: DumpValue) {
    match v
    case BoolOf(_) => true
    case I32Of(n) => SignedFits(n, 4)
    case U64Of(n) => 0 <= n < Pow256(8)
    case U256Of(n) => 0 <= n < Pow256(32)
    case DecOf(n) => SignedFits(n, 32)
    case Bytes32Of(s) => |s| == 32
    case StrOf(s) => IsUtf8(s)
    case AddrOf(s) => |s| == 20
    case KeyOf(s) => |s| == 32
  }

  function TwosComplement(n: int, width: nat): ByteString
    requires n < 0 ==> -n <= Pow256(width)
  {
    Encode(if n < 0 then n + Pow256(width) else n, width)
  }

  lemma HalfOfPower(width: nat)
    requires width > 0
    ensures Pow256(width) == 2 * (128 * Pow256(width - 1))
  {
  }

  /** The node's canonical storage bytes. */
  function StorageBytes(v: DumpValue): ByteString
    requires IsValue(v)
  {
    HalfOfPower(4);
    HalfOfPower(32);
    match v
    case BoolOf(bit) => [if bit then 1 else 0]
    case I32Of(n) => TwosComplement(n, 4)
    case U64Of(n) => Encode(n, 8)
    case U256Of(n) => Encode(n, 32)
    case DecOf(n) => TwosComplement(n, 32)
    case Bytes32Of(s) => s
    case StrOf(s) => s
    case AddrOf(s) => s
    case KeyOf(s) => s
  }

  /** Two's complement both ways. */
  lemma SignedRoundTrip(n: int, width: nat)
    requires width > 0 && SignedFits(n, width)
    ensures n < 0 ==> -n <= Pow256(width)
    ensures Signed(Decode(TwosComplement(n, width)), width) == n
  {
    HalfOfPower(width);
    DecodeEncode(if n < 0 then n + Pow256(width) else n, width);
  }

  /** The value a reader gets back: text loses a leading byte order mark, nothing else changes. */
  function Readable(v: DumpValue): DumpValue {
    if v.StrOf? then StrOf(WithoutMark(v.bytes)) else v
  }

  lemma ValueRoundTrip(v: DumpValue)
    requires IsValue(v)
    ensures WireValue(TagOf(v), StorageBytes(v)) == Ok(Readable(v))
  {
    match v
    case I32Of(n) => SignedRoundTrip(n, 4);
    case DecOf(n) => SignedRoundTrip(n, 32);
    case U64Of(n) => DecodeEncode(n, 8);
    case U256Of(n) => DecodeEncode(n, 32);
    case _ =>
  }

  // ---------------------------------------------------------------------
  // Decoding a record

  datatype DumpAttribute = DumpAttribute(name: ByteString, value: DumpValue)

  datatype DumpEntity = DumpEntity(
    key: ByteString, creator: ByteString, owner: ByteString, expiresAt: nat, creationFlags: nat,
    payloadSize: nat, attributes: seq<DumpAttribute>)

  /** Items a list was read as lie inside the buffer. */
  lemma {:induction false} ItemsAreInside(bytes: ByteString, from: nat, to: nat)
    requires from <= to && ItemsFrom(bytes, from, to).Ok?
    ensures AllInside(bytes, ItemsFrom(bytes, from, to).value)
    decreases |ItemsFrom(bytes, from, to).value|
  {
    if from < to {
      var item := ItemAt(bytes, from).value;
      ItemProgresses(bytes, from);
      var rest := ItemsFrom(bytes, item.next, to).value;
      assert ItemsFrom(bytes, from, to).value == [item] + rest;
      ItemsAreInside(bytes, item.next, to);
    }
  }

  predicate AllInside(bytes: ByteString, items: seq<RlpItem>) {
    forall i :: 0 <= i < |items| ==> items[i].start <= items[i].end <= |bytes|
  }

  function FieldsOf(bytes: ByteString, item: RlpItem): (r: Outcome<seq<RlpItem>>)
    requires item.start <= item.end <= |bytes|
    ensures r.Ok? ==> AllInside(bytes, r.value)
  {
    var items :- ItemsOf(bytes, item);
    ItemsAreInside(bytes, item.start, item.end);
    Ok(items)
  }

  function TextField(bytes: ByteString, item: RlpItem): Outcome<ByteString>
    requires item.start <= item.end <= |bytes|
  {
    var raw :- Vector(bytes, item);
    Utf8Text(raw)
  }

  function DecodeAttribute(code: ByteString, cell: RlpItem): Outcome<DumpAttribute>
    requires cell.start <= cell.end <= |code|
  {
    var parts :- FieldsOf(code, cell);
    if |parts| != 3 then Fault
    else
      var name :- TextField(code, parts[0]);
      var typeId :- Unsigned(code, parts[1], 1);
      var raw :- Vector(code, parts[2]);
      var value :- WireValue(typeId, raw);
      Ok(DumpAttribute(name, value))
  }

  function DecodeAttributes(code: ByteString, cells: seq<RlpItem>): Outcome<seq<DumpAttribute>>
    requires AllInside(code, cells)
  {
    if cells == [] then Ok([])
    else
      var first :- DecodeAttribute(code, cells[0]);
      var rest :- DecodeAttributes(code, cells[1..]);
      Ok([first] + rest)
  }

  function DecodeFields(code: ByteString, fields: seq<RlpItem>): Outcome<DumpEntity>
    requires |fields| == 9 || |fields| == 10
    requires AllInside(code, fields)
  {
    var key :- Fixed(code, fields[6], 32);
    var payloadSize :- VectorLength(code, fields[0]);
    var creator :- Fixed(code, fields[1], 20);
    var createdAt :- Unsigned(code, fields[2], 8);
    var owner :- Fixed(code, fields[3], 20);
    var expiresAt :- Unsigned(code, fields[4], 8);
    var contentType :- TextField(code, fields[5]);
    var modifiedAt :- Unsigned(code, fields[8], 8);
    var creationFlags :- if |fields| == 10 then Unsigned(code, fields[9], 1) else Ok(0);
    if createdAt != 0 || modifiedAt != 0 then Fault
    else
      var cells :- FieldsOf(code, fields[7]);
      var attributes :- DecodeAttributes(code, cells);
      Ok(DumpEntity(key, creator, owner, expiresAt, creationFlags, payloadSize, attributes))
  }

  function DecodeEntityRecord(code: ByteString): Outcome<DumpEntity> {
    if |code| < 3 || code[0] != ENTITY_CODE_MARKER || code[1] > 1 then Fault
    else
      var body :- ItemAt(code, 2);
      ItemProgresses(code, 2);
      if !body.list || body.next != |code| then Fault
      else
        var fields :- FieldsOf(code, body);
        if |fields| != (if code[1] == 0 then 9 else 10) then Fault else DecodeFields(code, fields)
  }

  // ---------------------------------------------------------------------
  // What the seeder writes

  datatype SeedAttribute = SeedAttribute(name: ByteVec, value: DumpValue, valueAsList: bool)

  /** A genesis entity; creation flags are what tells a v1 record from a v0 one. */
  datatype SeedRecord = SeedRecord(
    payload: ByteVec, creator: ByteString, owner: ByteString, expiresAt: nat, contentType: ByteVec, key: ByteString,
    attributes: seq<SeedAttribute>, creationFlags: Option<nat>)

  predicate IsRecord(r: SeedRecord) {
    |r.creator| == 20 && |r.owner| == 20 && |r.key| == 32 && r.expiresAt < Pow256(8) && IsUtf8(r.contentType.bytes) &&
    (r.creationFlags.Some? ==> r.creationFlags.value < Pow256(1)) &&
    forall i :: 0 <= i < |r.attributes| ==> IsUtf8(r.attributes[i].name.bytes) && IsValue(r.attributes[i].value)
  }

  function EncodeUnsigned(n: nat): Encoded { EncodeString(Minimal(n)) }

  function AttributeParts(a: SeedAttribute): seq<Encoded>
    requires IsValue(a.value)
  {
    [EncodeVec(a.name), EncodeUnsigned(TagOf(a.value)), EncodeVec(ByteVec(StorageBytes(a.value), a.valueAsList))]
  }

  function EncodeAttributes(attributes: seq<SeedAttribute>): seq<Encoded>
    requires forall i :: 0 <= i < |attributes| ==> IsValue(attributes[i].value)
  {
    if attributes == [] then [] else [EncodeList(Concat(AttributeParts(attributes[0])))] + EncodeAttributes(attributes[1..])
  }

  function RecordFields(r: SeedRecord): seq<Encoded>
    requires IsRecord(r)
  {
    [EncodeVec(r.payload), EncodeString(r.creator), EncodeUnsigned(0), EncodeString(r.owner), EncodeUnsigned(r.expiresAt),
     EncodeVec(r.contentType), EncodeString(r.key), EncodeList(Concat(EncodeAttributes(r.attributes))), EncodeUnsigned(0)] +
    (if r.creationFlags.Some? then [EncodeUnsigned(r.creationFlags.value)] else [])
  }

  function EncodeRecord(r: SeedRecord): ByteString
    requires IsRecord(r)
  {
    [ENTITY_CODE_MARKER, if r.creationFlags.Some? then 1 else 0] + EncodeList(Concat(RecordFields(r))).Bytes()
  }

  /** What a reader gets back of some seeded attributes. */
  function ReadableAttributes(attributes: seq<SeedAttribute>): seq<DumpAttribute> {
    if attributes == [] then []
    else [DumpAttribute(WithoutMark(attributes[0].name.bytes), Readable(attributes[0].value))] + ReadableAttributes(attributes[1..])
  }

  function EntityOf(r: SeedRecord): DumpEntity {
    DumpEntity(r.key, r.creator, r.owner, r.expiresAt, r.creationFlags.Else(0), |r.payload.bytes|, ReadableAttributes(r.attributes))
  }

  // ---------------------------------------------------------------------
  // The round trip

  lemma {:induction false} PartsAreShort(items: seq<Encoded>, i: nat)
    requires i < |items|
    ensures |items[i].payload| <= |items[i].Bytes()| <= |Concat(items)|
  {
    if i > 0 {
      PartsAreShort(items[1..], i - 1);
    }
  }

  /** Items of a list that is itself readable are readable. */
  lemma {:induction false} PartsAreWellEncoded(items: seq<Encoded>)
    requires |Concat(items)| < Pow256(6)
    requires AllItems(items)
    ensures AllWellEncoded(items)
  {
    if items != [] {
      PartsAreShort(items, 0);
      PartsAreWellEncoded(items[1..]);
    }
  }

  /** A list item that holds the encoded parts splits into them. */
  lemma FieldsReadBack(code: ByteString, item: RlpItem, parts: seq<Encoded>)
    requires item.list && HoldsPayload(code, item, Concat(parts)) && AllWellEncoded(parts)
    ensures FieldsOf(code, item).Ok? && AllHeld(code, FieldsOf(code, item).value, parts)
  {
    assert code[item.start..item.start + |Concat(parts)|] == Content(code, item);
    ListReadsBack(code, item.start, parts);
  }

  lemma AttributePartsAreItems(a: SeedAttribute)
    requires IsValue(a.value)
    ensures AllItems(AttributeParts(a))
  {
    EachIsItem(AttributeParts(a));
  }

  lemma TextReadsBack(code: ByteString, item: RlpItem, v: ByteVec)
    requires item.list == EncodeVec(v).list && HoldsPayload(code, item, EncodeVec(v).payload) && IsUtf8(v.bytes)
    ensures TextField(code, item) == Ok(WithoutMark(v.bytes))
  {
    VectorRoundTrip(code, item, v);
  }

  lemma NumberReadsBack(code: ByteString, item: RlpItem, n: nat, maxBytes: nat)
    requires n < Pow256(maxBytes) && item.list == EncodeUnsigned(n).list && HoldsPayload(code, item, EncodeUnsigned(n).payload)
    ensures Unsigned(code, item, maxBytes) == Ok(n)
  {
    UnsignedRoundTrip(code, item, n, maxBytes);
  }

  lemma AttributeReadsBack(code: ByteString, cell: RlpItem, a: SeedAttribute)
    requires IsUtf8(a.name.bytes) && IsValue(a.value) && |Concat(AttributeParts(a))| < Pow256(6)
    requires cell.list && HoldsPayload(code, cell, Concat(AttributeParts(a)))
    ensures DecodeAttribute(code, cell) == Ok(DumpAttribute(WithoutMark(a.name.bytes), Readable(a.value)))
  {
    var parts := AttributeParts(a);
    AttributePartsAreItems(a);
    PartsAreWellEncoded(parts);
    FieldsReadBack(code, cell, parts);
    var read := FieldsOf(code, cell).value;
    TextReadsBack(code, read[0], a.name);
    assert Pow256(1) == 256 * Pow256(0);
    NumberReadsBack(code, read[1], TagOf(a.value), 1);
    VectorRoundTrip(code, read[2], ByteVec(StorageBytes(a.value), a.valueAsList));
    ValueRoundTrip(a.value);
  }

  lemma {:induction false} AttributesReadBack(code: ByteString, cells: seq<RlpItem>, attributes: seq<SeedAttribute>)
    requires forall i :: 0 <= i < |attributes| ==> IsUtf8(attributes[i].name.bytes) && IsValue(attributes[i].value)
    requires AllHeld(code, cells, EncodeAttributes(attributes)) && |Concat(EncodeAttributes(attributes))| < Pow256(6)
    ensures |cells| == |attributes|
    ensures DecodeAttributes(code, cells) ==
            Ok(ReadableAttributes(attributes))
    decreases |attributes|
  {
    if attributes != [] {
      var written := EncodeAttributes(attributes);
      PartsAreShort(written, 0);
      AttributeReadsBack(code, cells[0], attributes[0]);
      forall i | 0 <= i < |cells[1..]|
        ensures cells[1..][i].list == written[1..][i].list && HoldsPayload(code, cells[1..][i], written[1..][i].payload)
      {
        assert cells[i + 1].list == written[i + 1].list;
      }
      AttributesReadBack(code, cells[1..], attributes[1..]);
    }
  }

  lemma {:induction false} AttributesAreItems(attributes: seq<SeedAttribute>)
    requires forall i :: 0 <= i < |attributes| ==> IsValue(attributes[i].value)
    ensures AllItems(EncodeAttributes(attributes))
  {
    if attributes != [] { AttributesAreItems(attributes[1..]); }
  }

  lemma RecordFieldsAreItems(r: SeedRecord)
    requires IsRecord(r)
    ensures AllItems(RecordFields(r))
  {
    EachIsItem(RecordFields(r));
  }

  lemma {:induction false} EachIsItem(items: seq<Encoded>)
    requires forall i :: 0 <= i < |items| ==> IsItem(items[i])
    ensures AllItems(items)
  {
    if items != [] { EachIsItem(items[1..]); }
  }

  lemma CellsReadBack(code: ByteString, item: RlpItem, r: SeedRecord)
    requires IsRecord(r) && |Concat(EncodeAttributes(r.attributes))| < Pow256(6)
    requires item.list && HoldsPayload(code, item, Concat(EncodeAttributes(r.attributes)))
    ensures FieldsOf(code, item).Ok? && DecodeAttributes(code, FieldsOf(code, item).value) == Ok(ReadableAttributes(r.attributes))
  {
    var cells := EncodeAttributes(r.attributes);
    AttributesAreItems(r.attributes);
    PartsAreWellEncoded(cells);
    FieldsReadBack(code, item, cells);
    AttributesReadBack(code, FieldsOf(code, item).value, r.attributes);
  }

  lemma FixedReadsBack(code: ByteString, item: RlpItem, s: ByteString)
    requires item.list == EncodeString(s).list && HoldsPayload(code, item, EncodeString(s).payload)
    ensures Fixed(code, item, |s|) == Ok(s)
  {
  }

  lemma FieldsDecode(code: ByteString, fields: seq<RlpItem>, r: SeedRecord)
    requires IsRecord(r) && AllHeld(code, fields, RecordFields(r)) && |Concat(RecordFields(r))| < Pow256(6)
    ensures DecodeFields(code, fields) == Ok(EntityOf(r))
  {
    hide Fixed, Unsigned, TextField, VectorLength, Vector, EncodeVec, EncodeString, Minimal, FieldsOf, DecodeAttributes, HoldsPayload;
    var written := RecordFields(r);
    PartsAreShort(written, 7);
    VectorRoundTrip(code, fields[0], r.payload);
    FixedReadsBack(code, fields[1], r.creator);
    assert Pow256(8) > 0 by { Widths(); }
    NumberReadsBack(code, fields[2], 0, 8);
    FixedReadsBack(code, fields[3], r.owner);
    NumberReadsBack(code, fields[4], r.expiresAt, 8);
    TextReadsBack(code, fields[5], r.contentType);
    FixedReadsBack(code, fields[6], r.key);
    CellsReadBack(code, fields[7], r);
    NumberReadsBack(code, fields[8], 0, 8);
    if r.creationFlags.Some? { NumberReadsBack(code, fields[9], r.creationFlags.value, 1); }
  }

  /**
   Decoding what the seeder encodes gives the entity back, whichever form its
   byte vectors are written in and with or without creation flags; only a
   leading byte order mark of a name or of a text is lost.
   */
  lemma RecordRoundTrip(r: SeedRecord)
    requires IsRecord(r) && |Concat(RecordFields(r))| < Pow256(6)
    ensures DecodeEntityRecord(EncodeRecord(r)) == Ok(EntityOf(r))
  {
    var code, fields := EncodeRecord(r), RecordFields(r);
    var body := EncodeList(Concat(fields));
    assert code[2..2 + |body.Bytes()|] == body.Bytes();
    ReadsBack(code, 2, body);
    RecordFieldsAreItems(r);
    PartsAreWellEncoded(fields);
    FieldsReadBack(code, Placed(body, 2), fields);
    FieldsDecode(code, FieldsOf(code, Placed(body, 2)).value, r);
  }

  /** No name and no text starts with a byte order mark. */
  predicate Unmarked(a: SeedAttribute) {
    !(BYTE_ORDER_MARK <= a.name.bytes) && (a.value.StrOf? ==> !(BYTE_ORDER_MARK <= a.value.bytes))
  }

  function SeededAttributes(attributes: seq<SeedAttribute>): seq<DumpAttribute> {
    if attributes == [] then [] else [DumpAttribute(attributes[0].name.bytes, attributes[0].value)] + SeededAttributes(attributes[1..])
  }

  lemma {:induction false} ReadableWhenUnmarked(attributes: seq<SeedAttribute>)
    ensures ReadableAttributes(attributes) == SeededAttributes(attributes) <==>
            forall i :: 0 <= i < |attributes| ==> Unmarked(attributes[i])
  {
    if attributes != [] {
      var rest := attributes[1..];
      ReadableWhenUnmarked(rest);
      var read, seeded := ReadableAttributes(attributes), SeededAttributes(attributes);
      assert read == seeded <==> read[0] == seeded[0] && read[1..] == seeded[1..] by {
        assert read == [read[0]] + read[1..] && seeded == [seeded[0]] + seeded[1..];
      }
      assert (forall i :: 0 <= i < |attributes| ==> Unmarked(attributes[i])) <==>
             Unmarked(attributes[0]) && (forall i :: 0 <= i < |rest| ==> Unmarked(rest[i])) by {
        if Unmarked(attributes[0]) && (forall i :: 0 <= i < |rest| ==> Unmarked(rest[i])) {
          forall i | 0 <= i < |attributes| ensures Unmarked(attributes[i]) {
            if i > 0 { assert rest[i - 1] == attributes[i]; }
          }
        }
      }
    }
  }

  /**
   What the decoder returns of an encoded record has the attributes that were
   seeded if and only if no name and no text among them starts with a byte
   order mark.
   */
  lemma AttributesSurviveUnmarked(r: SeedRecord)
    requires IsRecord(r) && |Concat(RecordFields(r))| < Pow256(6)
    ensures DecodeEntityRecord(EncodeRecord(r)).Ok?
    ensures DecodeEntityRecord(EncodeRecord(r)).value.attributes == SeededAttributes(r.attributes) <==>
            forall i :: 0 <= i < |r.attributes| ==> Unmarked(r.attributes[i])
  {
    RecordRoundTrip(r);
    ReadableWhenUnmarked(r.attributes);
  }

  /** An entity with one attribute, whose text is a byte order mark. */
  function MarkedRecord(): SeedRecord {
    SeedRecord(ByteVec([], false), seq(20, _ => 0), seq(20, _ => 0), 1, ByteVec([], false), seq(32, _ => 0),
               [SeedAttribute(ByteVec([97], false), StrOf(BYTE_ORDER_MARK), false)], None)
  }

  lemma MarkIsUtf8()
    ensures IsUtf8(BYTE_ORDER_MARK) && IsUtf8([97]) && IsUtf8([])
  {
    assert CodePointLength(BYTE_ORDER_MARK) == 3 && BYTE_ORDER_MARK[3..] == [];
    assert CodePointLength([97]) == 1 && [97][1..] == [];
  }

  lemma ShortString(s: ByteString)
    requires |s| <= 55
    ensures |EncodeString(s).Bytes()| <= |s| + 1 && |EncodeList(s).Bytes()| == |s| + 1
  {
  }

  lemma {:induction false} ShortConcat(items: seq<Encoded>, width: nat)
    requires forall i :: 0 <= i < |items| ==> |items[i].Bytes()| <= width
    ensures |Concat(items)| <= |items| * width
  {
    if items != [] { ShortConcat(items[1..], width); }
  }

  lemma MarkedRecordIsRecord()
    ensures IsRecord(MarkedRecord()) && IsValue(StrOf(BYTE_ORDER_MARK))
  {
    hide IsUtf8;
    MarkIsUtf8();
    assert Pow256(8) > 1 by { Widths(); }
  }

  lemma MarkedAttributeIsShort()
    requires IsValue(StrOf(BYTE_ORDER_MARK))
    ensures |Concat(AttributeParts(MarkedRecord().attributes[0]))| <= 12
  {
    hide IsUtf8, Concat, Header;
    var a := MarkedRecord().attributes[0];
    assert Minimal(7) == [7] by { assert 7 / 256 == 0 && Minimal(0) == []; }
    ShortString([97]);
    ShortString([7]);
    ShortString(BYTE_ORDER_MARK);
    ShortConcat(AttributeParts(a), 4);
  }

  lemma MarkedRecordIsShort()
    requires IsRecord(MarkedRecord())
    ensures |Concat(RecordFields(MarkedRecord()))| < Pow256(6)
  {
    hide IsRecord, IsUtf8, Concat, Header, AttributeParts;
    MarkedRecordIsRecord();
    MarkedAttributeIsShort();
    assert Pow256(6) > 1000 by { Widths(); assert Pow256(6) == 256 * Pow256(5) && Pow256(5) == 256 * Pow256(4); }
    var r := MarkedRecord();
    var parts := AttributeParts(r.attributes[0]);
    assert EncodeAttributes(r.attributes) == [EncodeList(Concat(parts))] by { assert r.attributes[1..] == []; }
    ShortString(Concat(parts));
    ShortConcat(EncodeAttributes(r.attributes), 13);
    ShortString(Concat(EncodeAttributes(r.attributes)));
    assert Minimal(1) == [1] && Minimal(0) == [] by { assert 1 / 256 == 0; }
    ShortString([]);
    ShortString([1]);
    ShortString(r.creator);
    ShortString(r.key);
    ShortConcat(RecordFields(r), 33);
  }

  /** A text that starts with the mark comes back without it. */
  lemma AMarkIsLost()
    ensures IsRecord(MarkedRecord())
    ensures DecodeEntityRecord(EncodeRecord(MarkedRecord())).Ok?
    ensures DecodeEntityRecord(EncodeRecord(MarkedRecord())).value.attributes == [DumpAttribute([97], StrOf([]))]
    ensures SeededAttributes(MarkedRecord().attributes) == [DumpAttribute([97], StrOf(BYTE_ORDER_MARK))]
  {
    hide RecordFields, EncodeRecord, DecodeEntityRecord, IsUtf8;
    MarkedRecordIsRecord();
    MarkedRecordIsShort();
    RecordRoundTrip(MarkedRecord());
    assert MarkedRecord().attributes[1..] == [];
  }
}
