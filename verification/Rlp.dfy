/**
 RLP as the dump reader decodes it (src/entityGenesisDump.ts), against the
 encoding of the Ethereum Yellow Paper, Appendix B.
 */
module Rlp {
  import opened Wrappers
  import opened ByteStrings
  import opened BigEndian

  /** Payload bounds within the buffer, and where the next item starts. */
  datatype RlpItem = RlpItem(list: bool, start: nat, end: nat, next: nat)

  // ---------------------------------------------------------------------
  // Reading items

  /** A length of at most six bytes inside the buffer. */
  function LengthAt(bytes: ByteString, offset: nat, count: nat): Outcome<nat> {
    if count > 6 || offset + count > |bytes| then Fault else Ok(Decode(bytes[offset..offset + count]))
  }

  function Bounded(bytes: ByteString, list: bool, start: nat, length: nat): Outcome<RlpItem> {
    if start + length > |bytes| then Fault else Ok(RlpItem(list, start, start + length, start + length))
  }

  function ItemAt(bytes: ByteString, offset: nat): Outcome<RlpItem> {
    if offset >= |bytes| then Fault
    else
      var first := bytes[offset];
      if first < 0x80 then Ok(RlpItem(false, offset, offset + 1, offset + 1))
      else if first <= 0xb7 then Bounded(bytes, false, offset + 1, first - 0x80)
      else if first <= 0xbf then
        var length :- LengthAt(bytes, offset + 1, first - 0xb7);
        Bounded(bytes, false, offset + 1 + (first - 0xb7), length)
      else if first <= 0xf7 then Bounded(bytes, true, offset + 1, first - 0xc0)
      else
        var length :- LengthAt(bytes, offset + 1, first - 0xf7);
        Bounded(bytes, true, offset + 1 + (first - 0xf7), length)
  }

  /** An item read lies inside the buffer and always moves the offset on. */
  lemma ItemProgresses(bytes: ByteString, offset: nat)
    requires ItemAt(bytes, offset).Ok?
    ensures var item := ItemAt(bytes, offset).value;
            offset < item.next == item.end <= |bytes| && offset <= item.start <= item.end
  {
  }

  function ItemsFrom(bytes: ByteString, offset: nat, end: nat): Outcome<seq<RlpItem>>
    decreases end - offset
  {
    if offset >= end then Ok([])
    else
      var item :- ItemAt(bytes, offset);
      ItemProgresses(bytes, offset);
      if item.next > end then Fault
      else
        var rest :- ItemsFrom(bytes, item.next, end);
        Ok([item] + rest)
  }

  function ItemsOf(bytes: ByteString, item: RlpItem): Outcome<seq<RlpItem>> {
    if !item.list then Fault else ItemsFrom(bytes, item.start, item.end)
  }

  /** Where the i-th item of a list starting at `from` begins. */
  function OffsetOf(items: seq<RlpItem>, from: nat, i: nat): nat
    requires i <= |items|
  {
    if i == 0 then from else items[i - 1].next
  }

  /** The items, head and payload, cover `from..to` one after the other without gap or overlap. */
  ghost predicate Tiles(bytes: ByteString, items: seq<RlpItem>, from: nat, to: nat) {
    && OffsetOf(items, from, |items|) == to
    && forall i {:trigger OffsetOf(items, from, i)} :: 0 <= i < |items| ==> ItemAt(bytes, OffsetOf(items, from, i)) == Ok(items[i])
  }

  lemma TileProgresses(bytes: ByteString, items: seq<RlpItem>, from: nat, to: nat, i: nat)
    requires Tiles(bytes, items, from, to) && i < |items|
    ensures OffsetOf(items, from, i) < items[i].next
  {
    ItemProgresses(bytes, OffsetOf(items, from, i));
  }

  /** Each item ends past where it starts. */
  ghost predicate Ascends(items: seq<RlpItem>, from: nat) {
    forall i {:trigger OffsetOf(items, from, i)} :: 0 <= i < |items| ==> OffsetOf(items, from, i) < items[i].next
  }

  lemma TilesAscend(bytes: ByteString, items: seq<RlpItem>, from: nat, to: nat)
    requires Tiles(bytes, items, from, to)
    ensures Ascends(items, from)
  {
    forall i | 0 <= i < |items| ensures OffsetOf(items, from, i) < items[i].next {
      TileProgresses(bytes, items, from, to, i);
    }
  }

  lemma {:induction false} AscendsToEnd(items: seq<RlpItem>, from: nat, i: nat)
    requires Ascends(items, from) && i <= |items|
    ensures OffsetOf(items, from, i) <= OffsetOf(items, from, |items|)
    decreases |items| - i
  {
    if i < |items| {
      assert OffsetOf(items, from, i) < items[i].next == OffsetOf(items, from, i + 1);
      AscendsToEnd(items, from, i + 1);
    }
  }

  lemma RestTiles(bytes: ByteString, items: seq<RlpItem>, from: nat, to: nat)
    requires Tiles(bytes, items, from, to) && items != []
    ensures Tiles(bytes, items[1..], items[0].next, to)
  {
    var rest := items[1..];
    forall i | 0 <= i < |rest| ensures ItemAt(bytes, OffsetOf(rest, items[0].next, i)) == Ok(rest[i]) {
      assert OffsetOf(rest, items[0].next, i) == OffsetOf(items, from, i + 1);
      assert ItemAt(bytes, OffsetOf(items, from, i + 1)) == Ok(items[i + 1]);
    }
  }

  lemma FirstTiles(bytes: ByteString, items: seq<RlpItem>, from: nat, to: nat)
    requires items != [] && ItemAt(bytes, from) == Ok(items[0]) && Tiles(bytes, items[1..], items[0].next, to)
    ensures Tiles(bytes, items, from, to)
  {
    var rest := items[1..];
    forall i | 0 <= i < |items| ensures ItemAt(bytes, OffsetOf(items, from, i)) == Ok(items[i]) {
      if i > 0 {
        assert OffsetOf(rest, items[0].next, i - 1) == OffsetOf(items, from, i);
        assert ItemAt(bytes, OffsetOf(rest, items[0].next, i - 1)) == Ok(rest[i - 1]);
      }
    }
  }

  /** A list decodes to items only when they tile its payload exactly. */
  lemma {:induction false} ItemsTile(bytes: ByteString, items: seq<RlpItem>, from: nat, to: nat)
    requires from <= to && ItemsFrom(bytes, from, to) == Ok(items)
    ensures Tiles(bytes, items, from, to)
    decreases |items|
  {
    if from < to {
      ItemsTile(bytes, items[1..], items[0].next, to);
      FirstTiles(bytes, items, from, to);
    }
  }

  /** Items that tile a list's payload are what it decodes to. */
  lemma {:induction false} TilesDecode(bytes: ByteString, items: seq<RlpItem>, from: nat, to: nat)
    requires from <= to && Tiles(bytes, items, from, to)
    ensures ItemsFrom(bytes, from, to) == Ok(items)
    decreases |items|
  {
    if items != [] {
      assert ItemAt(bytes, OffsetOf(items, from, 0)) == Ok(items[0]);
      TileProgresses(bytes, items, from, to, 0);
      TilesAscend(bytes, items, from, to);
      AscendsToEnd(items, from, 1);
      RestTiles(bytes, items, from, to);
      TilesDecode(bytes, items[1..], items[0].next, to);
      assert items == [items[0]] + items[1..];
    }
  }

  // ---------------------------------------------------------------------
  // Fields

  function Content(bytes: ByteString, item: RlpItem): ByteString
    requires item.start <= item.end <= |bytes|
  {
    bytes[item.start..item.end]
  }

  /** The bytes of a list of single-byte integers. */
  function SingleBytes(content: ByteString): Outcome<ByteString> {
    if content == [] then Ok([])
    else if content[0] < 0x80 then
      var rest :- SingleBytes(content[1..]);
      Ok([content[0]] + rest)
    else if content[0] == 0x80 then
      var rest :- SingleBytes(content[1..]);
      Ok([0] + rest)
    else if content[0] == 0x81 && |content| > 1 then
      var rest :- SingleBytes(content[2..]);
      Ok([content[1]] + rest)
    else Fault
  }

  /** How many bytes such a list holds, without looking at their values. */
  function SingleBytesCount(content: ByteString): Outcome<nat> {
    if content == [] then Ok(0)
    else if content[0] <= 0x80 then
      var rest :- SingleBytesCount(content[1..]);
      Ok(1 + rest)
    else if content[0] == 0x81 && |content| > 1 then
      var rest :- SingleBytesCount(content[2..]);
      Ok(1 + rest)
    else Fault
  }

  /** Measuring and decoding agree on every input: same refusals, same length. */
  lemma {:induction false} CountIsLength(content: ByteString)
    ensures SingleBytesCount(content) == if SingleBytes(content).Ok? then Ok(|SingleBytes(content).value|) else Fault
    decreases |content|
  {
    if content != [] && content[0] <= 0x80 {
      CountIsLength(content[1..]);
    } else if |content| > 1 && content[0] == 0x81 {
      CountIsLength(content[2..]);
    }
  }

  function Vector(bytes: ByteString, item: RlpItem): Outcome<ByteString>
    requires item.start <= item.end <= |bytes|
  {
    if item.list then SingleBytes(Content(bytes, item)) else Ok(Content(bytes, item))
  }

  function VectorLength(bytes: ByteString, item: RlpItem): Outcome<nat>
    requires item.start <= item.end <= |bytes|
  {
    if item.list then SingleBytesCount(Content(bytes, item)) else Ok(item.end - item.start)
  }

  lemma VectorLengthAgrees(bytes: ByteString, item: RlpItem)
    requires item.start <= item.end <= |bytes|
    ensures VectorLength(bytes, item) == if Vector(bytes, item).Ok? then Ok(|Vector(bytes, item).value|) else Fault
  {
    CountIsLength(Content(bytes, item));
  }

  function Fixed(bytes: ByteString, item: RlpItem, length: nat): Outcome<ByteString>
    requires item.start <= item.end <= |bytes|
  {
    if item.list || item.end - item.start != length then Fault else Ok(Content(bytes, item))
  }

  function Unsigned(bytes: ByteString, item: RlpItem, maxBytes: nat): Outcome<nat>
    requires item.start <= item.end <= |bytes|
  {
    if item.list || item.end - item.start > maxBytes then Fault
    else if item.end > item.start && bytes[item.start] == 0 then Fault
    else Ok(Decode(Content(bytes, item)))
  }

  // ---------------------------------------------------------------------
  // The same, as loops over the buffer

  method ReadLength(bytes: array<Byte>, offset: nat, count: nat) returns (r: Outcome<nat>)
    ensures r == LengthAt(bytes[..], offset, count)
  {
    if count > 6 || offset + count > bytes.Length { return Fault; }
    var length: nat := 0;
    for i := 0 to count
      invariant length == Decode(bytes[offset..offset + i])
    {
      assert bytes[offset..offset + i + 1][..i] == bytes[offset..offset + i];
      length := length * 256 + bytes[offset + i];
    }
    assert bytes[..][offset..offset + count] == bytes[offset..offset + count];
    return Ok(length);
  }

  method ReadItem(bytes: array<Byte>, offset: nat) returns (r: Outcome<RlpItem>)
    ensures r == ItemAt(bytes[..], offset)
  {
    if offset >= bytes.Length { return Fault; }
    var first := bytes[offset];
    if first < 0x80 { return Ok(RlpItem(false, offset, offset + 1, offset + 1)); }
    if first <= 0xb7 { return Bounded(bytes[..], false, offset + 1, first - 0x80); }
    if first <= 0xbf {
      var length :- ReadLength(bytes, offset + 1, first - 0xb7);
      return Bounded(bytes[..], false, offset + 1 + (first - 0xb7), length);
    }
    if first <= 0xf7 { return Bounded(bytes[..], true, offset + 1, first - 0xc0); }
    var length :- ReadLength(bytes, offset + 1, first - 0xf7);
    return Bounded(bytes[..], true, offset + 1 + (first - 0xf7), length);
  }

  method ListItems(bytes: array<Byte>, item: RlpItem) returns (r: Outcome<seq<RlpItem>>)
    ensures r == ItemsOf(bytes[..], item)
  {
    if !item.list { return Fault; }
    var items: seq<RlpItem> := [];
    var offset := item.start;
    ghost var whole := ItemsFrom(bytes[..], item.start, item.end);
    if whole.Ok? { assert items + whole.value == whole.value; }
    while offset < item.end
      invariant Joined(items, ItemsFrom(bytes[..], offset, item.end)) == whole
      decreases item.end - offset
    {
      var next := ReadItem(bytes, offset);
      if next.Fault? { return Fault; }
      ItemProgresses(bytes[..], offset);
      if next.value.next > item.end { return Fault; }
      ghost var rest := ItemsFrom(bytes[..], next.value.next, item.end);
      if rest.Ok? { assert items + ([next.value] + rest.value) == (items + [next.value]) + rest.value; }
      items := items + [next.value];
      offset := next.value.next;
    }
    assert items + [] == items;
    return Ok(items);
  }

  ghost function Joined<T>(items: seq<T>, rest: Outcome<seq<T>>): Outcome<seq<T>> {
    if rest.Fault? then Fault else Ok(items + rest.value)
  }

  /** `byteVectorLength` of a list: count items, then see that the last one did not overrun. */
  method ByteVectorLength(bytes: array<Byte>, item: RlpItem) returns (r: Outcome<nat>)
    requires item.start <= item.end <= bytes.Length
    ensures r == VectorLength(bytes[..], item)
  {
    if !item.list { return Ok(item.end - item.start); }
    var count := 0;
    var offset := item.start;
    assert bytes[..][item.start..item.end] == bytes[item.start..item.end];
    ghost var whole := SingleBytesCount(bytes[item.start..item.end]);
    while offset < item.end
      invariant item.start <= offset <= item.end + 1
      invariant offset <= item.end ==>
                whole == if SingleBytesCount(bytes[offset..item.end]).Fault? then Fault
                         else Ok(count + SingleBytesCount(bytes[offset..item.end]).value)
      invariant offset > item.end ==> whole == Fault
      decreases item.end - offset
    {
      var first := bytes[offset];
      ghost var rest := bytes[offset..item.end];
      assert rest[1..] == bytes[offset + 1..item.end];
      if offset + 1 < item.end { assert rest[2..] == bytes[offset + 2..item.end]; }
      if first <= 0x80 {
        offset := offset + 1;
      } else if first == 0x81 {
        offset := offset + 2;
      } else {
        return Fault;
      }
      count := count + 1;
    }
    if offset != item.end { return Fault; }
    return Ok(count);
  }

  /** How much of a list of single bytes the first of them takes, and its value. */
  function Width(content: ByteString): nat
    requires content != []
  {
    if content[0] <= 0x80 then 1 else 2
  }

  function FirstByte(content: ByteString): Byte
    requires content != []
  {
    if content[0] < 0x80 then content[0] else if content[0] == 0x80 || |content| == 1 then 0 else content[1]
  }

  lemma FirstOfSingleBytes(content: ByteString)
    requires content != [] && SingleBytes(content).Ok?
    ensures Width(content) <= |content| && SingleBytes(content[Width(content)..]).Ok?
    ensures SingleBytes(content).value == [FirstByte(content)] + SingleBytes(content[Width(content)..]).value
  {
  }

  lemma NoSingleBytes()
    ensures SingleBytes([]) == Ok([])
  {
  }

  lemma NextByte(content: ByteString, whole: ByteString, i: nat)
    requires content != [] && i <= |whole| && SingleBytes(content) == Ok(whole[i..])
    ensures Width(content) <= |content| && i < |whole|
    ensures whole[i] == FirstByte(content) && SingleBytes(content[Width(content)..]) == Ok(whole[i + 1..])
  {
    FirstOfSingleBytes(content);
    assert whole[i..][1..] == whole[i + 1..];
  }

  /** The loop of `byteVector`: each item's byte into its place. */
  method CopySingleBytes(bytes: array<Byte>, start: nat, end: nat, out: array<Byte>, ghost whole: ByteString)
    requires start <= end <= bytes.Length && out != bytes
    requires SingleBytes(bytes[start..end]) == Ok(whole) && |whole| == out.Length
    modifies out
    ensures out[..] == whole
  {
    hide SingleBytes;
    var offset, i := start, 0;
    assert whole[0..] == whole;
    while offset < end
      invariant start <= offset <= end && 0 <= i <= |whole|
      invariant SingleBytes(bytes[offset..end]) == Ok(whole[i..])
      invariant forall j :: 0 <= j < i ==> out[j] == whole[j]
      decreases end - offset
    {
      var first := bytes[offset];
      ghost var rest := bytes[offset..end];
      NextByte(rest, whole, i);
      assert rest[Width(rest)..] == bytes[offset + Width(rest)..end];
      if first < 0x80 {
        out[i] := first;
        offset := offset + 1;
      } else if first == 0x80 {
        out[i] := 0;
        offset := offset + 1;
      } else {
        out[i] := bytes[offset + 1];
        offset := offset + 2;
      }
      i := i + 1;
    }
    assert bytes[offset..end] == [];
    NoSingleBytes();
  }

  /** `byteVector` of a list: an array of the measured length, filled front to back. */
  method ByteVector(bytes: array<Byte>, item: RlpItem) returns (r: Outcome<ByteString>)
    requires item.start <= item.end <= bytes.Length
    ensures r == Vector(bytes[..], item)
  {
    assert bytes[..][item.start..item.end] == bytes[item.start..item.end];
    if !item.list { return Ok(bytes[item.start..item.end]); }
    VectorLengthAgrees(bytes[..], item);
    var length :- ByteVectorLength(bytes, item);
    var out := new Byte[length](_ => 0);
    CopySingleBytes(bytes, item.start, item.end, out, SingleBytes(bytes[item.start..item.end]).value);
    return Ok(out[..]);
  }

  method UnsignedField(bytes: array<Byte>, item: RlpItem, maxBytes: nat) returns (r: Outcome<nat>)
    requires item.start <= item.end <= bytes.Length
    ensures r == Unsigned(bytes[..], item, maxBytes)
  {
    if item.list || item.end - item.start > maxBytes { return Fault; }
    if item.end - item.start > 0 && bytes[item.start] == 0 { return Fault; }
    var value: nat := 0;
    for i := item.start to item.end
      invariant value == Decode(bytes[item.start..i])
    {
      assert bytes[item.start..i + 1][..i - item.start] == bytes[item.start..i];
      value := value * 256 + bytes[i];
    }
    assert bytes[..][item.start..item.end] == bytes[item.start..item.end];
    return Ok(value);
  }

  // ---------------------------------------------------------------------
  // The encoding

  /** A number without leading zeros; zero is the empty string. */
  function Minimal(n: nat): ByteString {
    if n == 0 then [] else Minimal(n / 256) + [n % 256]
  }

  lemma {:induction false} MinimalRoundTrip(n: nat)
    ensures Decode(Minimal(n)) == n
    ensures Minimal(n) != [] ==> Minimal(n)[0] != 0
  {
    if n > 0 {
      MinimalRoundTrip(n / 256);
      assert Minimal(n)[..|Minimal(n)| - 1] == Minimal(n / 256);
    }
  }

  lemma {:induction false} MinimalIsShort(n: nat, width: nat)
    requires n < Pow256(width)
    ensures |Minimal(n)| <= width
  {
    if n > 0 && width > 0 { MinimalIsShort(n / 256, width - 1); }
  }

  /** An item as written: its header, empty for a byte below 0x80, and its payload. */
  datatype Encoded = Encoded(list: bool, header: ByteString, payload: ByteString) {
    function Bytes(): ByteString { header + payload }
  }

  function Header(base: Byte, length: nat): ByteString {
    if length <= 55 then [(base + length) % 256]
    else [(base + 55 + |Minimal(length)|) % 256] + Minimal(length)
  }

  function EncodeString(s: ByteString): Encoded {
    if |s| == 1 && s[0] < 0x80 then Encoded(false, [], s) else Encoded(false, Header(0x80, |s|), s)
  }

  function EncodeList(payload: ByteString): Encoded { Encoded(true, Header(0xc0, |payload|), payload) }

  ghost predicate AllWellEncoded(items: seq<Encoded>) {
    items == [] || (WellEncoded(items[0]) && AllWellEncoded(items[1..]))
  }

  function Concat(items: seq<Encoded>): ByteString {
    if items == [] then [] else items[0].Bytes() + Concat(items[1..])
  }

  /** Payloads the reader's six length bytes can name. */
  ghost predicate WellEncoded(e: Encoded) {
    |e.payload| < Pow256(6) && IsItem(e)
  }

  predicate IsItem(e: Encoded) {
    e == EncodeString(e.payload) || e == EncodeList(e.payload)
  }

  predicate AllItems(items: seq<Encoded>) {
    items == [] || (IsItem(items[0]) && AllItems(items[1..]))
  }

  /** Where the item lies when it is written at an offset. */
  function Placed(e: Encoded, at: nat): RlpItem {
    RlpItem(e.list, at + |e.header|, at + |e.header| + |e.payload|, at + |e.header| + |e.payload|)
  }

  lemma SliceOfSlice(s: ByteString, from: nat, to: nat, i: nat, j: nat)
    requires from <= to <= |s| && i <= j <= to - from
    ensures s[from..to][i..j] == s[from + i..from + j]
  {
    var a, b := s[from..to][i..j], s[from + i..from + j];
    forall k | 0 <= k < j - i ensures a[k] == b[k] {
      assert a[k] == s[from..to][i + k] == s[from + (i + k)];
    }
  }

  lemma LengthReadsBack(bytes: ByteString, offset: nat, n: nat)
    requires 0 < n < Pow256(6) && offset + |Minimal(n)| <= |bytes|
    requires bytes[offset..offset + |Minimal(n)|] == Minimal(n)
    ensures 0 < |Minimal(n)| <= 6 && LengthAt(bytes, offset, |Minimal(n)|) == Ok(n)
  {
    MinimalIsShort(n, 6);
    MinimalRoundTrip(n);
  }

  lemma LongItem(bytes: ByteString, at: nat, list: bool, width: nat, length: nat)
    requires at < |bytes| && 0 < width <= 6 && bytes[at] == (if list then 0xf7 else 0xb7) + width
    requires LengthAt(bytes, at + 1, width) == Ok(length) && at + 1 + width + length <= |bytes|
    ensures ItemAt(bytes, at) == Ok(RlpItem(list, at + 1 + width, at + 1 + width + length, at + 1 + width + length))
  {
  }

  lemma LongHeader(header: ByteString, base: Byte, n: nat)
    requires 55 < n < Pow256(6) && base <= 0xc0 && header == Header(base, n)
    ensures var m := |Minimal(n)|;
            0 < m <= 6 && |header| == 1 + m && header[0] == base + 55 + m && header[1..] == Minimal(n)
  {
    MinimalIsShort(n, 6);
  }

  lemma LongReadsBack(bytes: ByteString, at: nat, e: Encoded, base: Byte)
    requires |e.payload| < Pow256(6) && |e.payload| > 55 && e.header == Header(base, |e.payload|)
    requires (base == 0x80 && !e.list) || (base == 0xc0 && e.list)
    requires at + |e.Bytes()| <= |bytes| && bytes[at..at + |e.Bytes()|] == e.Bytes()
    ensures ItemAt(bytes, at) == Ok(Placed(e, at))
  {
    hide Header, Minimal, ItemAt, LengthAt;
    var n, s := |e.payload|, e.Bytes();
    var m := |Minimal(n)|;
    LongHeader(e.header, base, n);
    SliceOfSlice(bytes, at, at + |s|, 1, 1 + m);
    assert s[1..1 + m] == e.header[1..];
    LengthReadsBack(bytes, at + 1, n);
    assert bytes[at] == bytes[at..at + |s|][0];
    LongItem(bytes, at, e.list, m, n);
  }

  lemma ShortReadsBack(bytes: ByteString, at: nat, e: Encoded)
    requires WellEncoded(e) && |e.payload| <= 55
    requires at + |e.Bytes()| <= |bytes| && bytes[at..at + |e.Bytes()|] == e.Bytes()
    ensures ItemAt(bytes, at) == Ok(Placed(e, at))
  {
    assert |e.Bytes()| > 0;
    assert bytes[at] == bytes[at..at + |e.Bytes()|][0] == e.Bytes()[0];
  }

  /** An item reads back, wherever in a buffer it stands. */
  lemma ReadsBack(bytes: ByteString, at: nat, e: Encoded)
    requires WellEncoded(e)
    requires at + |e.Bytes()| <= |bytes| && bytes[at..at + |e.Bytes()|] == e.Bytes()
    ensures ItemAt(bytes, at) == Ok(Placed(e, at))
    ensures HoldsPayload(bytes, Placed(e, at), e.payload)
  {
    hide ItemAt, Header, Minimal;
    var h, n := |e.header|, |e.payload|;
    SliceOfSlice(bytes, at, at + |e.Bytes()|, h, h + n);
    assert e.Bytes()[h..h + n] == e.payload;
    if n <= 55 {
      ShortReadsBack(bytes, at, e);
    } else {
      LongReadsBack(bytes, at, e, if e.list then 0xc0 else 0x80);
    }
  }

  lemma OneMoreItem(bytes: ByteString, from: nat, to: nat, item: RlpItem, rest: seq<RlpItem>)
    requires ItemAt(bytes, from) == Ok(item) && item.next <= to && ItemsFrom(bytes, item.next, to) == Ok(rest)
    ensures from < to && ItemsFrom(bytes, from, to) == Ok([item] + rest)
  {
    ItemProgresses(bytes, from);
  }

  function PlacedAll(items: seq<Encoded>, at: nat): seq<RlpItem> {
    if items == [] then [] else [Placed(items[0], at)] + PlacedAll(items[1..], at + |items[0].Bytes()|)
  }

  /** The items read are those written, with their payloads. */
  ghost predicate AllHeld(bytes: ByteString, read: seq<RlpItem>, written: seq<Encoded>) {
    |read| == |written| &&
    forall i :: 0 <= i < |read| ==> read[i].list == written[i].list && HoldsPayload(bytes, read[i], written[i].payload)
  }

  lemma ConcatSplits(bytes: ByteString, at: nat, items: seq<Encoded>)
    requires items != []
    requires at + |Concat(items)| <= |bytes| && bytes[at..at + |Concat(items)|] == Concat(items)
    ensures var n := |items[0].Bytes()|;
            |Concat(items)| == n + |Concat(items[1..])| && bytes[at..at + n] == items[0].Bytes() &&
            bytes[at + n..at + n + |Concat(items[1..])|] == Concat(items[1..])
  {
    var all, n := Concat(items), |items[0].Bytes()|;
    SliceOfSlice(bytes, at, at + |all|, 0, n);
    SliceOfSlice(bytes, at, at + |all|, n, |all|);
    assert all[0..n] == items[0].Bytes() && all[n..|all|] == Concat(items[1..]);
  }

  lemma OneMoreHeld(bytes: ByteString, item: RlpItem, rest: seq<RlpItem>, written: seq<Encoded>)
    requires written != [] && item.list == written[0].list && HoldsPayload(bytes, item, written[0].payload)
    requires AllHeld(bytes, rest, written[1..])
    ensures AllHeld(bytes, [item] + rest, written)
  {
    var read := [item] + rest;
    forall i | 0 <= i < |read| ensures read[i].list == written[i].list && HoldsPayload(bytes, read[i], written[i].payload) {
      if i > 0 { assert read[i] == rest[i - 1] && written[i] == written[1..][i - 1]; }
    }
  }

  lemma FirstReadsBack(bytes: ByteString, at: nat, items: seq<Encoded>)
    requires items != [] && WellEncoded(items[0]) && at + |Concat(items)| <= |bytes|
    requires bytes[at..at + |items[0].Bytes()|] == items[0].Bytes()
    requires var to, rest := at + |Concat(items)|, PlacedAll(items[1..], at + |items[0].Bytes()|);
             ItemsFrom(bytes, at + |items[0].Bytes()|, to) == Ok(rest) && AllHeld(bytes, rest, items[1..])
    ensures ItemsFrom(bytes, at, at + |Concat(items)|) == Ok(PlacedAll(items, at))
    ensures AllHeld(bytes, PlacedAll(items, at), items)
  {
    hide ItemAt, WellEncoded, HoldsPayload;
    var first, to := items[0], at + |Concat(items)|;
    var rest := PlacedAll(items[1..], at + |first.Bytes()|);
    ReadsBack(bytes, at, first);
    OneMoreItem(bytes, at, to, Placed(first, at), rest);
    OneMoreHeld(bytes, Placed(first, at), rest, items);
  }

  /** A list's items read back, one for each written, with their payloads. */
  lemma {:induction false} ListReadsBack(bytes: ByteString, at: nat, items: seq<Encoded>)
    requires AllWellEncoded(items)
    requires at + |Concat(items)| <= |bytes| && bytes[at..at + |Concat(items)|] == Concat(items)
    ensures ItemsFrom(bytes, at, at + |Concat(items)|) == Ok(PlacedAll(items, at))
    ensures AllHeld(bytes, PlacedAll(items, at), items)
    decreases |items|
  {
    hide ItemAt, WellEncoded, HoldsPayload;
    if items != [] {
      var first, rest := items[0], items[1..];
      var n := |first.Bytes()|;
      ConcatSplits(bytes, at, items);
      ListReadsBack(bytes, at + n, rest);
      FirstReadsBack(bytes, at, items);
    }
  }

  ghost predicate HoldsPayload(bytes: ByteString, item: RlpItem, payload: ByteString) {
    item.start <= item.end <= |bytes| && Content(bytes, item) == payload
  }

  // ---------------------------------------------------------------------
  // Byte vectors in either form

  function SingleByte(b: Byte): ByteString {
    if b == 0 then [0x80] else if b < 0x80 then [b] else [0x81, b]
  }

  function SinglyEncoded(s: ByteString): ByteString {
    if s == [] then [] else SingleByte(s[0]) + SinglyEncoded(s[1..])
  }

  lemma {:induction false} SingleBytesRoundTrip(s: ByteString)
    ensures SingleBytes(SinglyEncoded(s)) == Ok(s)
  {
    if s != [] {
      SingleBytesRoundTrip(s[1..]);
      var one := SingleByte(s[0]);
      assert SinglyEncoded(s)[|one|..] == SinglyEncoded(s[1..]);
      assert s == [s[0]] + s[1..];
    }
  }

  /** A byte vector as the seeder may write it: a string, or a list of single bytes. */
  datatype ByteVec = ByteVec(bytes: ByteString, asList: bool)

  function EncodeVec(v: ByteVec): Encoded {
    if v.asList then EncodeList(SinglyEncoded(v.bytes)) else EncodeString(v.bytes)
  }

  /** Both forms decode to the same bytes, and measure their number. */
  lemma VectorRoundTrip(bytes: ByteString, item: RlpItem, v: ByteVec)
    requires item.list == EncodeVec(v).list && HoldsPayload(bytes, item, EncodeVec(v).payload)
    ensures Vector(bytes, item) == Ok(v.bytes) && VectorLength(bytes, item) == Ok(|v.bytes|)
  {
    SingleBytesRoundTrip(v.bytes);
    VectorLengthAgrees(bytes, item);
  }

  lemma UnsignedRoundTrip(bytes: ByteString, item: RlpItem, n: nat, maxBytes: nat)
    requires n < Pow256(maxBytes) && !item.list && HoldsPayload(bytes, item, Minimal(n))
    ensures Unsigned(bytes, item, maxBytes) == Ok(n)
  {
    MinimalRoundTrip(n);
    MinimalIsShort(n, maxBytes);
    if item.end > item.start { assert Content(bytes, item)[0] == bytes[item.start]; }
  }
}
