/**
 From a dump record's code to the version it is stored as (the end of
 `decodeEntityRecord` in src/entityGenesisDump.ts): the decoded entity goes
 through the node's wire form and `genesisEntityToVersion`, as a walked one does.
 */
module DumpVersions {
  import opened Wrappers
  import opened ByteStrings
  import opened BigEndian
  import opened EntityIndex
  import opened FoldProperties
  import opened GenesisEntity
  import opened DumpRecord
  import P = Projector
  import Paging
  import Q = QuerySql
  import L = Ledger
  import G = GenesisDump
  import I = DumpImport
  import opened Rlp

  // ---------------------------------------------------------------------
  // Decimals as the node writes them

  const DECIMAL_SCALE: nat := 18
  const DECIMAL_UNIT: nat := 1_000_000_000_000_000_000

  function Power10(n: nat): nat { if n == 0 then 1 else 10 * Power10(n - 1) }

  /** `padStart`: so many decimal digits. */
  function Places(n: nat, places: nat): (s: ByteString)
    ensures |s| == places
  {
    if places == 0 then [] else Places(n / 10, places - 1) + [48 + n % 10]
  }

  /** `replace(/0+$/, "")` */
  function Trimmed(s: ByteString): ByteString {
    if s != [] && s[|s| - 1] == 48 then Trimmed(s[..|s| - 1]) else s
  }

  /** `padEnd` with zeros */
  function Padded(s: ByteString, length: nat): ByteString
    decreases length - |s|
  {
    if |s| >= length then s else Padded(s + [48], length)
  }

  /** `formatDecimalUnits` */
  function DecimalUnits(units: int): ByteString {
    var magnitude: nat := if units < 0 then -units else units;
    var fraction := Trimmed(Places(magnitude % DECIMAL_UNIT, DECIMAL_SCALE));
    (if units < 0 then [45] else []) + Q.Digits(magnitude / DECIMAL_UNIT) + (if fraction == [] then [] else [46] + fraction)
  }

  /** Where the first point stands, or the end. */
  function Point(s: ByteString): (n: nat)
    ensures n <= |s|
  {
    if s == [] || s[0] == 46 then 0 else 1 + Point(s[1..])
  }

  /** `parseDecimalUnits` of a magnitude: digits, and at most eighteen more after a point. */
  function ReadMagnitude(s: ByteString): Option<int> {
    var n := Point(s);
    var whole, fraction := Q.ReadDigits(s[..n]), if n == |s| then [] else s[n + 1..];
    var part := Q.ReadDigits(Padded(fraction, DECIMAL_SCALE));
    if n == 0 || whole.None? || part.None? || |fraction| > DECIMAL_SCALE || (n < |s| && fraction == []) then None
    else Some(whole.value * DECIMAL_UNIT + part.value)
  }

  function ReadUnits(s: ByteString): Option<int> {
    if s != [] && s[0] == 45 then
      var magnitude := ReadMagnitude(s[1..]);
      if magnitude.None? then None else Some(-magnitude.value)
    else ReadMagnitude(s)
  }

  lemma {:induction false} PlacesReadBack(n: nat, places: nat)
    requires n < Power10(places)
    ensures Q.ReadDigits(Places(n, places)) == Some(n)
    ensures forall i :: 0 <= i < places ==> 48 <= Places(n, places)[i] <= 57
  {
    if places > 0 {
      PlacesReadBack(n / 10, places - 1);
      assert Places(n, places)[..places - 1] == Places(n / 10, places - 1);
    }
  }

  lemma {:induction false} PaddingIsUntrimming(s: ByteString, length: nat)
    requires |s| <= length && Padded(s, length) == s + ZeroDigits(length - |s|)
    ensures Padded(Trimmed(s), length) == s + ZeroDigits(length - |s|) && |Trimmed(s)| <= |s|
  {
    if s != [] && s[|s| - 1] == 48 {
      var t := s[..|s| - 1];
      assert t + [48] == s;
      assert t + ZeroDigits(length - |t|) == s + ZeroDigits(length - |s|) by { assert ZeroDigits(length - |t|) == [48] + ZeroDigits(length - |s|); }
      PaddingIsUntrimming(t, length);
    }
  }

  function ZeroDigits(n: nat): ByteString { if n == 0 then [] else [48] + ZeroDigits(n - 1) }

  predicate Pointless(s: ByteString) { forall i :: 0 <= i < |s| ==> s[i] != 46 }

  lemma {:induction false} PointAfter(a: ByteString, b: ByteString)
    requires Pointless(a) && (b == [] || b[0] == 46)
    ensures Point(a + b) == |a|
  {
    if a != [] {
      assert (a + b)[1..] == a[1..] + b;
      PointAfter(a[1..], b);
    }
  }

  lemma {:induction false} DigitsArePointless(n: nat)
    ensures Pointless(Q.Digits(n)) && Q.Digits(n) != []
  {
    if n >= 10 { DigitsArePointless(n / 10); }
  }

  lemma PartsReadBack(whole: ByteString, fraction: ByteString, w: nat, f: nat)
    requires Pointless(whole) && whole != [] && Q.ReadDigits(whole) == Some(w)
    requires |fraction| <= DECIMAL_SCALE && Q.ReadDigits(Padded(fraction, DECIMAL_SCALE)) == Some(f)
    ensures ReadMagnitude(whole + (if fraction == [] then [] else [46] + fraction)) == Some(w * DECIMAL_UNIT + f)
  {
    hide Padded, Q.ReadDigits;
    var tail := if fraction == [] then [] else [46] + fraction;
    PointAfter(whole, tail);
    assert (whole + tail)[..|whole|] == whole;
    assert tail != [] ==> (whole + tail)[|whole| + 1..] == fraction;
  }

  lemma PlacesTrimAndPad(n: nat)
    requires n < DECIMAL_UNIT
    ensures var fraction := Trimmed(Places(n, DECIMAL_SCALE));
            |fraction| <= DECIMAL_SCALE && Q.ReadDigits(Padded(fraction, DECIMAL_SCALE)) == Some(n)
  {
    hide Padded, Q.ReadDigits, Places, Trimmed;
    var places := Places(n, DECIMAL_SCALE);
    TenToTheScale();
    PlacesReadBack(n, DECIMAL_SCALE);
    FullIsPadded(places);
    assert places + ZeroDigits(0) == places;
    PaddingIsUntrimming(places, DECIMAL_SCALE);
  }

  lemma MagnitudeReadsBack(magnitude: nat)
    ensures var fraction := Trimmed(Places(magnitude % DECIMAL_UNIT, DECIMAL_SCALE));
            ReadMagnitude(Q.Digits(magnitude / DECIMAL_UNIT) + (if fraction == [] then [] else [46] + fraction)) == Some(magnitude)
  {
    hide Padded, Q.ReadDigits, Places, Trimmed, Q.Digits, ReadMagnitude;
    var whole, part := magnitude / DECIMAL_UNIT, magnitude % DECIMAL_UNIT;
    PlacesTrimAndPad(part);
    DigitsArePointless(whole);
    Q.DigitsRoundTrip(whole);
    PartsReadBack(Q.Digits(whole), Trimmed(Places(part, DECIMAL_SCALE)), whole, part);
  }

  lemma TenToTheScale()
    ensures Power10(DECIMAL_SCALE) == DECIMAL_UNIT
  {
    assert Power10(6) == 1_000_000;
    assert Power10(12) == 1_000_000_000_000;
  }

  lemma FullIsPadded(s: ByteString)
    requires |s| == DECIMAL_SCALE
    ensures Padded(s, DECIMAL_SCALE) == s
  {
  }

  /** A decimal's canonical text reads back as its units. */
  lemma DecimalRoundTrip(units: int)
    ensures ReadUnits(DecimalUnits(units)) == Some(units)
  {
    hide ReadMagnitude, Trimmed, Places;
    var magnitude: nat := if units < 0 then -units else units;
    var fraction := Trimmed(Places(magnitude % DECIMAL_UNIT, DECIMAL_SCALE));
    var body := Q.Digits(magnitude / DECIMAL_UNIT) + (if fraction == [] then [] else [46] + fraction);
    MagnitudeReadsBack(magnitude);
    Q.DigitsRoundTrip(magnitude / DECIMAL_UNIT);
    if units < 0 {
      assert DecimalUnits(units) == [45] + body;
      assert ([45] + body)[1..] == body;
    } else {
      assert DecimalUnits(units) == [] + body == body;
    }
  }

  // ---------------------------------------------------------------------
  // The record as the node would put it

  function Prefixed(bytes: ByteString): ByteString { [48, 120] + Hex(bytes) }

  /** A value in its stored form. */
  function StoredOf(v: DumpValue): StoredValue {
    match v
    case BoolOf(bit) => StoredValue(if bit then Q.TRUE_TEXT else Q.FALSE_TEXT, None)
    case I32Of(n) => StoredValue(Q.DecimalText(n), Some(n))
    case U64Of(n) => StoredValue(Q.DecimalText(n), Some(n))
    case U256Of(n) => StoredValue(Q.DecimalText(n), Some(n))
    case DecOf(n) => StoredValue(DecimalUnits(n), Some(n))
    case Bytes32Of(s) => StoredValue(Prefixed(s), None)
    case StrOf(s) => StoredValue(s, None)
    case AddrOf(s) => StoredValue(Prefixed(s), None)
    case KeyOf(s) => StoredValue(Prefixed(s), None)
  }

  function WireAttributes(attributes: seq<DumpAttribute>): seq<WireAttribute> {
    seq(|attributes|, i requires 0 <= i < |attributes| =>
      WireAttribute(attributes[i].name, Some(TagOf(attributes[i].value)), Some(StoredOf(attributes[i].value))))
  }

  /** Every attribute of a prefill record is indexed. */
  function WireSchema(attributes: seq<DumpAttribute>): seq<SchemaEntry> {
    seq(|attributes|, i requires 0 <= i < |attributes| => SchemaEntry(attributes[i].name, true))
  }

  function WireOf(e: DumpEntity): NodeEntity {
    NodeEntity(Some(Prefixed(e.key)), Some(Prefixed(e.owner)), Some(Prefixed(e.creator)), Some(0), Some(0), Some(e.expiresAt),
               RawFlags(e.creationFlags), Some(WireSchema(e.attributes)), Some(WireAttributes(e.attributes)))
  }

  /** `decodeEntityRecord`: the version a record's code is stored as at a position; none when it is refused. */
  function StoredRecord(code: ByteString, position: nat): Option<Version> {
    var e := DecodeEntityRecord(code);
    if e.Fault? then None else VersionAt(WireOf(e.value), position)
  }

  // ---------------------------------------------------------------------
  // What comes of a seeded record

  /** The value a query would ask for. */
  function Asked(v: DumpValue): Q.QueryValue {
    match v
    case BoolOf(bit) => Q.BoolValue(bit)
    case I32Of(n) => Q.I32(n)
    case U64Of(n) => Q.U64(n)
    case U256Of(n) => Q.U256(n)
    case DecOf(n) => Q.Dec(n)
    case Bytes32Of(s) => Q.Bytes32(Prefixed(s))
    case StrOf(s) => Q.Str(s)
    case AddrOf(s) => Q.Addr(Prefixed(s))
    case KeyOf(s) => Q.Key(Prefixed(s))
  }

  /** A stored attribute is this one: its name, indexed, and of this value to any query. */
  ghost predicate Carries(a: Attribute, d: DumpAttribute) {
    a.name == d.name && a.indexed && Q.ValueOf(a) == Some(Asked(d.value))
  }

  lemma {:induction false} IndexedAll(schema: seq<SchemaEntry>, i: nat)
    requires i < |schema| && forall j :: 0 <= j < |schema| ==> schema[j].indexed
    ensures IndexedFlag(schema, schema[i].name) == Some(true)
    decreases |schema|
  {
    if schema[|schema| - 1].name != schema[i].name {
      IndexedAll(schema[..|schema| - 1], i);
    }
  }

  lemma AttributeIsStored(attributes: seq<DumpAttribute>, i: nat)
    requires i < |attributes|
    ensures var stored := StoredAttribute(WireSchema(attributes), WireAttributes(attributes)[i]);
            stored.Some? <==> attributes[i].name != []
    ensures var stored := StoredAttribute(WireSchema(attributes), WireAttributes(attributes)[i]);
            stored.Some? ==> Carries(stored.value, attributes[i])
  {
    IndexedAll(WireSchema(attributes), i);
    assert Q.TRUE_TEXT != Q.FALSE_TEXT by { assert |Q.TRUE_TEXT| == 4 && |Q.FALSE_TEXT| == 5; }
  }

  predicate DistinctNames(cells: seq<WireAttribute>) {
    forall i, j :: 0 <= i < j < |cells| ==> cells[i].name != cells[j].name
  }

  lemma OneMoreStored(schema: seq<SchemaEntry>, cells: seq<WireAttribute>)
    requires cells != []
    ensures var before, last := StoredAttributes(schema, cells[..|cells| - 1]), StoredAttribute(schema, cells[|cells| - 1]);
            StoredAttributes(schema, cells).Some? <==>
            before.Some? && last.Some? && !exists a :: a in before.value && a.name == cells[|cells| - 1].name
  {
  }

  /** Attributes are stored exactly when each can be and no name comes twice. */
  lemma {:induction false} StoredExactly(schema: seq<SchemaEntry>, cells: seq<WireAttribute>)
    ensures StoredAttributes(schema, cells).Some? <==>
            DistinctNames(cells) && forall i :: 0 <= i < |cells| ==> StoredAttribute(schema, cells[i]).Some?
  {
    if cells != [] {
      hide StoredAttributes, StoredAttribute;
      var n := |cells| - 1;
      var before := cells[..n];
      StoredExactly(schema, before);
      OneMoreStored(schema, cells);
      if StoredAttributes(schema, before).Some? { NamesStored(schema, before, cells[n].name); }
      assert forall i :: 0 <= i < n ==> before[i] == cells[i];
    } else {
      assert StoredAttributes(schema, cells) == Some([]);
    }
  }

  lemma NamesStored(schema: seq<SchemaEntry>, cells: seq<WireAttribute>, name: ByteString)
    requires StoredAttributes(schema, cells).Some?
    requires forall i :: 0 <= i < |cells| ==> StoredAttribute(schema, cells[i]).Some?
    ensures (exists a :: a in StoredAttributes(schema, cells).value && a.name == name) <==> exists i :: 0 <= i < |cells| && cells[i].name == name
  {
    StoredAttributesAreSorted(schema, cells);
    if i :| 0 <= i < |cells| && cells[i].name == name {
      var a := StoredAttribute(schema, cells[i]).value;
      assert a in StoredAttributes(schema, cells).value && a.name == name;
    }
  }

  lemma {:induction false} HexIsLower(s: ByteString)
    ensures Lower(Prefixed(s)) == Prefixed(s)
  {
  }

  /** The names come back readable, none empty and none twice. */
  ghost predicate NamesAreStorable(attributes: seq<DumpAttribute>) {
    (forall i :: 0 <= i < |attributes| ==> attributes[i].name != []) &&
    (forall i, j :: 0 <= i < j < |attributes| ==> attributes[i].name != attributes[j].name)
  }

  /** A stored list carries exactly these attributes. */
  ghost predicate CarriesAll(stored: seq<Attribute>, attributes: seq<DumpAttribute>) {
    (forall i :: 0 <= i < |attributes| ==> IsCarried(stored, attributes[i])) &&
    (forall a :: a in stored ==> exists i :: 0 <= i < |attributes| && Carries(a, attributes[i]))
  }

  ghost predicate IsCarried(stored: seq<Attribute>, d: DumpAttribute) {
    exists a :: a in stored && Carries(a, d)
  }

  /** The attributes one by one. */
  lemma EachIsStored(attributes: seq<DumpAttribute>)
    ensures var schema, cells := WireSchema(attributes), WireAttributes(attributes);
            |cells| == |attributes| &&
            forall i :: 0 <= i < |cells| ==>
              cells[i].name == attributes[i].name && (StoredAttribute(schema, cells[i]).Some? <==> attributes[i].name != []) &&
              (StoredAttribute(schema, cells[i]).Some? ==> Carries(StoredAttribute(schema, cells[i]).value, attributes[i]))
  {
    hide StoredAttribute, Carries;
    forall i | 0 <= i < |attributes|
      ensures StoredAttribute(WireSchema(attributes), WireAttributes(attributes)[i]).Some? <==> attributes[i].name != []
      ensures var stored := StoredAttribute(WireSchema(attributes), WireAttributes(attributes)[i]);
              stored.Some? ==> Carries(stored.value, attributes[i])
    {
      AttributeIsStored(attributes, i);
    }
  }

  lemma StoredWhenNamesAre(attributes: seq<DumpAttribute>)
    ensures StoredAttributes(WireSchema(attributes), WireAttributes(attributes)).Some? <==> NamesAreStorable(attributes)
  {
    hide StoredAttribute, Carries, StoredAttributes, WireSchema, WireAttributes;
    EachIsStored(attributes);
    StoredExactly(WireSchema(attributes), WireAttributes(attributes));
  }

  lemma AttributesAreStored(attributes: seq<DumpAttribute>)
    ensures var stored := StoredAttributes(WireSchema(attributes), WireAttributes(attributes));
            (stored.Some? <==> NamesAreStorable(attributes)) && (stored.Some? ==> CarriesAll(stored.value, attributes))
  {
    hide StoredAttribute, StoredAttributes, WireSchema, WireAttributes, NamesAreStorable, Q.ValueOf;
    var schema, cells := WireSchema(attributes), WireAttributes(attributes);
    StoredWhenNamesAre(attributes);
    EachIsStored(attributes);
    if StoredAttributes(schema, cells).Some? {
      var stored := StoredAttributes(schema, cells).value;
      StoredExactly(schema, cells);
      StoredAttributesAreSorted(schema, cells);
      forall i | 0 <= i < |attributes| ensures IsCarried(stored, attributes[i]) {
        var a := StoredAttribute(schema, cells[i]).value;
        assert a in stored && Carries(a, attributes[i]);
      }
      forall a | a in stored ensures exists i :: 0 <= i < |attributes| && Carries(a, attributes[i]) {
        var i :| 0 <= i < |cells| && StoredAttribute(schema, cells[i]) == Some(a);
        assert Carries(a, attributes[i]);
      }
    }
  }

  /**
   A record as the seeder writes it is stored exactly when its place and its
   expiry are in range and its attribute names, as they are read back, are
   non-empty and distinct; and then as the entity it describes: key and
   addresses in hex, and attributes that answer every query for the seeded
   values and no others.
   */
  lemma SeededRecordIsStored(r: SeedRecord, position: nat)
    requires IsRecord(r) && |Concat(RecordFields(r))| < Pow256(6)
    ensures var v, attributes := StoredRecord(EncodeRecord(r), position), ReadableAttributes(r.attributes);
            (v.Some? <==> position <= MAX_GENESIS_POSITION && 0 < r.expiresAt && NamesAreStorable(attributes)) &&
            (v.Some? ==>
               v.value.entityKey == Prefixed(r.key) && v.value.owner == Prefixed(r.owner) && v.value.creator == Prefixed(r.creator) &&
               v.value.expiresAt == r.expiresAt && v.value.creationFlags == Some(r.creationFlags.Else(0)) &&
               Canonical(v.value) && Born(v.value) == Location(0, position, 0) && CarriesAll(v.value.attributes, attributes))
  {
    hide EncodeRecord, DecodeEntityRecord, RecordFields, StoredAttributes, NamesAreStorable, CarriesAll, Canonical;
    RecordRoundTrip(r);
    var e := EntityOf(r);
    AttributesAreStored(e.attributes);
    HexIsLower(r.key);
    HexIsLower(r.owner);
    HexIsLower(r.creator);
    assert Pow256(8) == U64_MAX + 1 && Pow256(1) == 256 by { Widths(); }
    if VersionAt(WireOf(e), position).Some? { StoredEntityIsCanonical(WireOf(e), position); }
  }

  // ---------------------------------------------------------------------
  // An imported dump as the seed of the index

  /** Each row of a dump is its record's version at its ordinal. */
  lemma {:induction false} RowsAreRecords(decode: I.RecordDecoder, events: seq<G.DumpEvent>, i: nat)
    requires I.RowsOf(decode, events).Some? && i < |I.RowsOf(decode, events).value|
    ensures exists code :: decode(code, i) == Some(I.RowsOf(decode, events).value[i])
  {
    var before, last := events[..|events| - 1], Last(events);
    var rows := I.RowsOf(decode, before).value;
    if i < |rows| {
      RowsAreRecords(decode, before, i);
    } else {
      assert decode(last.code, i) == Some(I.RowsOf(decode, events).value[i]);
    }
  }

  lemma StoredRecordIsCanonical(code: ByteString, position: nat)
    requires StoredRecord(code, position).Some?
    ensures var v := StoredRecord(code, position).value;
            Canonical(v) && Born(v) == Location(0, position, 0) && v.entityKey != []
  {
    hide DecodeEntityRecord;
    StoredEntityIsCanonical(WireOf(DecodeEntityRecord(code).value), position);
  }

  /** The dump's records are under different keys. */
  ghost predicate DistinctKeys(rows: seq<Version>) {
    forall i, j :: 0 <= i < j < |rows| ==> rows[i].entityKey != rows[j].entityKey
  }

  /**
   A dump that was imported, with its records under different keys, is a seed
   the projector's runs and the pages stand on: its records in id order, each a
   canonical genesis state numbered by its place, and the table holds exactly
   these.
   */
  lemma ImportedDumpIsSeed(d: I.Dump, row: I.StateRow, overlap: nat)
    requires d.decode == StoredRecord && I.Complete(d, row) && DistinctKeys(I.Records(d))
    ensures P.WellFormedSetting(P.Setting(I.Records(d), overlap)) && Paging.Numbered(P.Setting(I.Records(d), overlap))
    ensures forall i :: 0 <= i < |I.Records(d)| ==> I.Records(d)[i].entityKey in row.rows && row.rows[I.Records(d)[i].entityKey] == I.Records(d)[i]
    ensures forall k :: k in row.rows ==> exists i :: 0 <= i < |I.Records(d)| && row.rows[k] == I.Records(d)[i]
  {
    hide I.Complete, I.Acceptable, StoredRecord, I.RowsOf, Canonical;
    var rows := RecordsOf(d, row);
    forall i | 0 <= i < |rows|
      ensures Canonical(rows[i]) && Born(rows[i]) == Location(0, i, 0) && rows[i].entityKey != []
      ensures rows[i].entityKey in row.rows && row.rows[rows[i].entityKey] == rows[i]
    {
      RowsAreRecords(d.decode, I.Whole(d).events, i);
      var code :| d.decode(code, i) == Some(rows[i]);
      StoredRecordIsCanonical(code, i);
      I.ImportedRowsAreRecords(d, row, rows[i].entityKey);
      assert I.FirstOfKey(rows, i, rows[i].entityKey);
    }
    forall k | k in row.rows ensures exists i :: 0 <= i < |rows| && row.rows[k] == rows[i] {
      I.ImportedRowsAreRecords(d, row, k);
      var i :| 0 <= i < |rows| && I.FirstOfKey(rows, i, k);
    }
  }

  ghost function RecordsOf(d: I.Dump, row: I.StateRow): (rows: seq<Version>)
    requires I.Complete(d, row)
    ensures rows == I.Records(d) && I.RowsOf(d.decode, I.Whole(d).events) == Some(rows)
  {
    I.Records(d)
  }

  lemma {:induction false} HexBytesOfHex(s: ByteString)
    ensures G.HexBytes(Hex(s)) == s
  {
    if s != [] {
      HexBytesOfHex(s[1..]);
      assert Hex(s)[2..] == Hex(s[1..]);
    }
  }

  lemma DecodedKeyIsAWord(code: ByteString)
    requires DecodeEntityRecord(code).Ok?
    ensures |DecodeEntityRecord(code).value.key| == 32
  {
    hide ItemAt, FieldsOf, DecodeAttributes, Unsigned, TextField, VectorLength;
  }

  /** A stored record's key reads back as 32 bytes. */
  lemma StoredKeyIsAWord(code: ByteString, position: nat)
    requires StoredRecord(code, position).Some?
    ensures |I.KeyBytes(StoredRecord(code, position).value)| == 32
  {
    hide DecodeEntityRecord, StoredAttributes;
    var key := DecodeEntityRecord(code).value.key;
    DecodedKeyIsAWord(code);
    HexIsLower(key);
    HexBytesOfHex(key);
    assert Prefixed(key)[2..] == Hex(key);
  }

  /** With records decoded as the source decodes them, an imported dump stands in the order of the ids its system account lists. */
  lemma ImportedDumpIsInIdOrder(d: I.Dump, row: I.StateRow) returns (places: seq<nat>)
    requires d.decode == StoredRecord && I.Complete(d, row) && L.Injective(d.hash)
    ensures L.ListsIds(d.hash, I.PairsOf(I.Whole(d).events), I.KeysOf(I.Records(d)), places) && |I.Records(d)| == d.total
  {
    hide StoredRecord, I.RowsOf, I.Whole;
    var rows := RecordsOf(d, row);
    forall i | 0 <= i < |rows| ensures |I.KeyBytes(rows[i])| == 32 {
      RowsAreRecords(d.decode, I.Whole(d).events, i);
      var code :| d.decode(code, i) == Some(rows[i]);
      StoredKeyIsAWord(code, i);
    }
    places := I.ImportedRowsAreInIdOrder(d, row);
  }
}
