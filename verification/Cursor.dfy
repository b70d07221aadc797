/**
 Paging cursors (src/arkivJsonRpc.ts): a position bound to the query, the
 block and the selection it was given out for.
 */
module Cursor {
  import opened Wrappers
  import opened ByteStrings
  import opened BigEndian
  import opened EntityIndex

  const BINDING_LENGTH := 16
  const CURSOR_LENGTH := BINDING_LENGTH + 8 + 4 + 4
  const MAX_CURSOR_CREATED_AT := 0x7fff_ffff_ffff_ffff
  /** The largest value of an `int` column. */
  const MAX_INT_COLUMN: nat := 0x7fff_ffff

  // ---------------------------------------------------------------------
  // Encoding and decoding

  /** What fits the cursor's words; a write past them throws. */
  predicate InRange(p: Location) {
    p.block < 0x1_0000_0000_0000_0000 && p.position < 0x1_0000_0000 && p.opIndex < 0x1_0000_0000
  }

  function Raw(p: Location, binding: ByteString): ByteString {
    binding + (Encode(p.block, 8) + (Encode(p.position, 4) + Encode(p.opIndex, 4)))
  }

  function EncodeCursor(p: Location, binding: ByteString): Outcome<ByteString>
    requires |binding| == BINDING_LENGTH
  {
    if InRange(p) then Ok([48, 120] + Hex(Raw(p, binding))) else Fault
  }

  /** What a client may send as a cursor. */
  datatype Token = NotText | Text(text: ByteString)

  predicate IsCursorShaped(token: Token) {
    token.Text? && |token.text| == 66 && token.text[..2] == [48, 120] && IsHex(token.text[2..])
  }

  function DecodeCursor(token: Token, binding: ByteString): Outcome<Location>
    requires |binding| == BINDING_LENGTH
  {
    if !IsCursorShaped(token) then Fault
    else
      var raw := Unhex(token.text[2..]);
      if raw[..16] != binding then Fault
      else
        var createdAt := Decode(raw[16..24]);
        if createdAt > MAX_CURSOR_CREATED_AT then Fault
        else Ok(Location(createdAt, Decode(raw[24..28]), Decode(raw[28..32])))
  }

  lemma RawWords(p: Location, binding: ByteString)
    requires |binding| == BINDING_LENGTH && InRange(p)
    ensures var raw := Raw(p, binding);
            |raw| == CURSOR_LENGTH && raw[..16] == binding &&
            Decode(raw[16..24]) == p.block && Decode(raw[24..28]) == p.position && Decode(raw[28..32]) == p.opIndex
  {
    var raw := Raw(p, binding);
    Widths();
    DecodeEncode(p.block, 8);
    DecodeEncode(p.position, 4);
    DecodeEncode(p.opIndex, 4);
    assert raw[16..24] == Encode(p.block, 8) && raw[24..28] == Encode(p.position, 4) && raw[28..32] == Encode(p.opIndex, 4);
  }

  /**
   A position that encodes decodes to itself under its own binding exactly
   when its creation block fits the column; under any other binding it is
   always refused.
   */
  lemma CursorRoundTrip(p: Location, binding: ByteString, other: ByteString)
    requires |binding| == BINDING_LENGTH && |other| == BINDING_LENGTH && InRange(p)
    ensures EncodeCursor(p, binding).Ok?
    ensures DecodeCursor(Text(EncodeCursor(p, binding).value), other) ==
            if other == binding && p.block <= MAX_CURSOR_CREATED_AT then Ok(p) else Fault
  {
    var raw, token := Raw(p, binding), EncodeCursor(p, binding).value;
    RawWords(p, binding);
    UnhexHex(raw);
    assert token[2..] == Hex(raw) && token[..2] == [48, 120];
  }

  /** Every accepted token is the one its position encodes to: there is no second spelling. */
  lemma DecodedCursorsAreEncoded(token: Token, binding: ByteString)
    requires |binding| == BINDING_LENGTH && DecodeCursor(token, binding).Ok?
    ensures EncodeCursor(DecodeCursor(token, binding).value, binding) == Ok(token.text)
  {
    var raw := Unhex(token.text[2..]);
    Widths();
    HexUnhex(token.text[2..]);
    EncodeDecode(raw[16..24]);
    EncodeDecode(raw[24..28]);
    EncodeDecode(raw[28..32]);
    var p := DecodeCursor(token, binding).value;
    assert Raw(p, binding) == raw;
    assert token.text == [48, 120] + token.text[2..];
  }

  /** What the statement's casts take: a bigint and two ints. */
  predicate FitsColumns(p: Location) {
    p.block <= MAX_CURSOR_CREATED_AT && p.position <= MAX_INT_COLUMN && p.opIndex <= MAX_INT_COLUMN
  }

  lemma {:induction false} UnhexAt(h: ByteString, i: nat)
    requires IsHex(h) && |h| % 2 == 0 && i < |h| / 2
    ensures Unhex(h)[i] == 16 * HexValue(h[2 * i]) + HexValue(h[2 * i + 1])
    decreases |h|
  {
    if i > 0 { UnhexAt(h[2..], i - 1); }
  }

  lemma WordFitsInt(s: ByteString)
    requires |s| == 4
    ensures Decode(s) <= MAX_INT_COLUMN <==> s[0] < 128
  {
    var t := s[..3];
    var first: nat := s[0];
    assert t[..2] == s[..2] && s[..2][..1] == s[..1] && s[..1][..0] == [];
    assert Decode(s[..1]) == s[0];
    assert Decode(s[..2]) == 256 * first + s[1];
    assert Decode(t) == 256 * (256 * first + s[1]) + s[2];
  }

  /**
   A cursor that is accepted always fits the block's column, and fits the other
   two exactly when the first hex digit of each of its last two words is at most
   7. A forged one with a larger digit gets past the decoder.
   */
  lemma AcceptedCursorsFit(token: Token, binding: ByteString)
    requires |binding| == BINDING_LENGTH && DecodeCursor(token, binding).Ok?
    ensures DecodeCursor(token, binding).value.block <= MAX_CURSOR_CREATED_AT
    ensures FitsColumns(DecodeCursor(token, binding).value) <==> token.text[50] <= 55 && token.text[58] <= 55
  {
    var hex := token.text[2..];
    var raw := Unhex(hex);
    UnhexAt(hex, 24);
    UnhexAt(hex, 28);
    WordFitsInt(raw[24..28]);
    WordFitsInt(raw[28..32]);
  }

  /** A forged position past the int columns, accepted under any binding. */
  lemma ForgedPositionIsAccepted(binding: ByteString)
    requires |binding| == BINDING_LENGTH
    ensures var p := Location(0, MAX_INT_COLUMN + 1, 0);
            EncodeCursor(p, binding).Ok? && DecodeCursor(Text(EncodeCursor(p, binding).value), binding) == Ok(p) && !FitsColumns(p)
  {
    CursorRoundTrip(Location(0, MAX_INT_COLUMN + 1, 0), binding, binding);
  }

  /** `encodeCursor` over its 32-byte buffer. */
  method WriteCursor(p: Location, binding: array<Byte>) returns (token: Outcome<ByteString>)
    requires binding.Length == BINDING_LENGTH
    ensures token == EncodeCursor(p, binding[..])
  {
    hide Encode, Hex;
    if !InRange(p) { return Fault; }
    var raw := new Byte[CURSOR_LENGTH](i => 0);
    ghost var b, e, p4, o4 := binding[..], Encode(p.block, 8), Encode(p.position, 4), Encode(p.opIndex, 4);
    Copy(raw, 0, binding[..]);
    assert raw[..16] == b;
    Copy(raw, BINDING_LENGTH, Encode(p.block, 8));
    assert raw[..24] == b + e;
    Copy(raw, BINDING_LENGTH + 8, Encode(p.position, 4));
    assert raw[..28] == b + e + p4;
    Copy(raw, BINDING_LENGTH + 12, Encode(p.opIndex, 4));
    assert raw[..] == b + e + p4 + o4;
    assert b + e + p4 + o4 == b + (e + (p4 + o4));
    return Ok([48, 120] + Hex(raw[..]));
  }

  method Copy(target: array<Byte>, at: nat, bytes: ByteString)
    requires at + |bytes| <= target.Length
    modifies target
    ensures target[..] == old(target[..at]) + bytes + old(target[at + |bytes|..])
    ensures target[..at + |bytes|] == old(target[..at]) + bytes
  {
    for i := 0 to |bytes|
      invariant target[..] == old(target[..at]) + bytes[..i] + old(target[at + i..])
    {
      target[at + i] := bytes[i];
    }
  }

  // ---------------------------------------------------------------------
  // What a cursor is bound to

  datatype AttributeSelection = Off | AllOfThem | Named(names: set<ByteString>)

  datatype Projection = Projection(
    key: bool, owner: bool, creator: bool, createdAt: bool, updatedAt: bool, expiresAt: bool,
    creationFlags: bool, attributeSchema: bool, attributes: AttributeSelection)

  predicate IsNameByte(b: Byte) {
    65 <= b <= 90 || 97 <= b <= 122 || 48 <= b <= 57 || b == 46 || b == 95 || b == 45
  }

  /** The names a selection may hold: a letter, then up to 31 letters, digits, dots, dashes and underscores. */
  predicate IsProtocolName(name: ByteString) {
    1 <= |name| <= 32 && (65 <= name[0] <= 90 || 97 <= name[0] <= 122) && forall i :: 0 < i < |name| ==> IsNameByte(name[i])
  }

  predicate WellFormedProjection(p: Projection) {
    p.attributes.Named? ==> forall n :: n in p.attributes.names ==> IsProtocolName(n)
  }

  function Flag(on: bool): Byte { if on then 1 else 0 }

  function Flags(p: Projection): ByteString {
    [Flag(p.key), Flag(p.owner), Flag(p.creator), Flag(p.createdAt), Flag(p.updatedAt), Flag(p.expiresAt),
     Flag(p.creationFlags), Flag(p.attributeSchema)]
  }

  /** The names in byte order. */
  ghost function SortedNames(names: set<ByteString>): (sorted: seq<ByteString>)
    ensures forall n :: n in sorted <==> n in names
    decreases |names|
  {
    if names == {} then []
    else
      var n := Least(names);
      var rest := SortedNames(names - {n});
      assert forall m :: m in [n] + rest <==> m == n || m in rest;
      [n] + rest
  }

  /** Each name, then a NUL. */
  function Terminated(names: seq<ByteString>): ByteString {
    if names == [] then [] else names[0] + [0] + Terminated(names[1..])
  }

  ghost function SelectionTail(a: AttributeSelection): ByteString {
    match a
    case Off => [0]
    case AllOfThem => [1]
    case Named(names) => [2] + Terminated(SortedNames(names))
  }

  ghost function Fingerprint(p: Projection): ByteString {
    Flags(p) + SelectionTail(p.attributes)
  }

  predicate NulFree(s: ByteString) { forall i :: 0 <= i < |s| ==> s[i] != 0 }

  /** NUL-free names with terminators split back into the same names. */
  lemma {:induction false} TerminatedIsInjective(a: seq<ByteString>, b: seq<ByteString>)
    requires forall i :: 0 <= i < |a| ==> NulFree(a[i])
    requires forall i :: 0 <= i < |b| ==> NulFree(b[i])
    requires Terminated(a) == Terminated(b)
    ensures a == b
    decreases |a| + |b|
  {
    if a != [] && b != [] {
      var s, m, n := Terminated(a), |a[0]|, |b[0]|;
      assert s == a[0] + ([0] + Terminated(a[1..])) == b[0] + ([0] + Terminated(b[1..]));
      assert s[m] == 0 && s[n] == 0;
      assert forall i :: 0 <= i < m ==> s[i] == a[0][i] != 0;
      assert forall i :: 0 <= i < n ==> s[i] == b[0][i] != 0;
      assert m == n;
      assert a[0] == s[..m] == b[0];
      assert Terminated(a[1..]) == s[m + 1..] == Terminated(b[1..]);
      TerminatedIsInjective(a[1..], b[1..]);
    }
  }

  lemma NamesAreNulFree(names: set<ByteString>)
    requires forall n :: n in names ==> IsProtocolName(n)
    ensures forall i :: 0 <= i < |SortedNames(names)| ==> NulFree(SortedNames(names)[i])
  {
    var sorted := SortedNames(names);
    forall i | 0 <= i < |sorted| ensures NulFree(sorted[i]) {
      assert sorted[i] in names;
    }
  }

  lemma TailIsInjective(a: AttributeSelection, b: AttributeSelection)
    requires a.Named? ==> forall n :: n in a.names ==> IsProtocolName(n)
    requires b.Named? ==> forall n :: n in b.names ==> IsProtocolName(n)
    requires SelectionTail(a) == SelectionTail(b)
    ensures a == b
  {
    var f, g := SelectionTail(a), SelectionTail(b);
    assert f[0] == g[0];
    if a.Named? && b.Named? {
      NamesAreNulFree(a.names);
      NamesAreNulFree(b.names);
      assert Terminated(SortedNames(a.names)) == f[1..] == g[1..] == Terminated(SortedNames(b.names));
      TerminatedIsInjective(SortedNames(a.names), SortedNames(b.names));
      assert a.names == b.names;
    }
  }

  lemma FlagsAreInjective(p: Projection, q: Projection)
    requires Flags(p) == Flags(q) && p.attributes == q.attributes
    ensures p == q
  {
    assert forall i :: 0 <= i < 8 ==> Flags(p)[i] == Flags(q)[i];
  }

  /** Different selections have different fingerprints. */
  lemma FingerprintIsInjective(p: Projection, q: Projection)
    requires WellFormedProjection(p) && WellFormedProjection(q) && Fingerprint(p) == Fingerprint(q)
    ensures p == q
  {
    var f, g := Fingerprint(p), Fingerprint(q);
    assert Flags(p) == f[..8] == g[..8] == Flags(q);
    assert SelectionTail(p.attributes) == f[8..] == g[8..] == SelectionTail(q.attributes);
    TailIsInjective(p.attributes, q.attributes);
    FlagsAreInjective(p, q);
  }

  /** "arkiv.index.cursor" */
  const CURSOR_DOMAIN: ByteString := [97, 114, 107, 105, 118, 46, 105, 110, 100, 101, 120, 46, 99, 117, 114, 115, 111, 114]

  function Preimage(query: ByteString, block: nat, fingerprint: ByteString): ByteString {
    CURSOR_DOMAIN + (Encode(|query|, 8) + (query + (Encode(block, 8) + fingerprint)))
  }

  /** No two different requests hash the same bytes. */
  lemma PreimageIsInjective(query: ByteString, block: nat, p: Projection, query': ByteString, block': nat, p': Projection)
    requires |query| < 0x1_0000_0000_0000_0000 && |query'| < 0x1_0000_0000_0000_0000
    requires block < 0x1_0000_0000_0000_0000 && block' < 0x1_0000_0000_0000_0000
    requires WellFormedProjection(p) && WellFormedProjection(p')
    requires Preimage(query, block, Fingerprint(p)) == Preimage(query', block', Fingerprint(p'))
    ensures query == query' && block == block' && p == p'
  {
    hide Encode, Decode, Fingerprint;
    var f, f' := Fingerprint(p), Fingerprint(p');
    Widths();
    SplitConcat(CURSOR_DOMAIN, Encode(|query|, 8) + (query + (Encode(block, 8) + f)),
                CURSOR_DOMAIN, Encode(|query'|, 8) + (query' + (Encode(block', 8) + f')));
    SplitConcat(Encode(|query|, 8), query + (Encode(block, 8) + f), Encode(|query'|, 8), query' + (Encode(block', 8) + f'));
    DecodeEncode(|query|, 8);
    DecodeEncode(|query'|, 8);
    SplitConcat(query, Encode(block, 8) + f, query', Encode(block', 8) + f');
    SplitConcat(Encode(block, 8), f, Encode(block', 8), f');
    DecodeEncode(block, 8);
    DecodeEncode(block', 8);
    FingerprintIsInjective(p, p');
  }

  /** `cursorBinding`, for a hash of at least sixteen bytes. */
  ghost function Binding(hash: ByteString -> ByteString, query: ByteString, block: nat, p: Projection): ByteString
    requires |hash(Preimage(query, block, Fingerprint(p)))| >= BINDING_LENGTH
  {
    hash(Preimage(query, block, Fingerprint(p)))[..BINDING_LENGTH]
  }

  /** A hash whose first sixteen bytes tell two preimages apart. */
  ghost predicate TellsApart(hash: ByteString -> ByteString, a: ByteString, b: ByteString) {
    |hash(a)| >= BINDING_LENGTH && |hash(b)| >= BINDING_LENGTH && (a != b ==> hash(a)[..BINDING_LENGTH] != hash(b)[..BINDING_LENGTH])
  }

  /**
   A cursor resumes only the request it was given out for: wherever the hash
   tells the two preimages apart, it decodes if and only if query, block and
   selection are all the same (and its block fits the column).
   */
  lemma CursorResumesOnlyItsRequest(hash: ByteString -> ByteString, p: Location,
                                    query: ByteString, block: nat, selection: Projection,
                                    query': ByteString, block': nat, selection': Projection)
    requires InRange(p) && p.block <= MAX_CURSOR_CREATED_AT
    requires |query| < 0x1_0000_0000_0000_0000 && |query'| < 0x1_0000_0000_0000_0000
    requires block < 0x1_0000_0000_0000_0000 && block' < 0x1_0000_0000_0000_0000
    requires WellFormedProjection(selection) && WellFormedProjection(selection')
    requires TellsApart(hash, Preimage(query, block, Fingerprint(selection)), Preimage(query', block', Fingerprint(selection')))
    ensures var issued := EncodeCursor(p, Binding(hash, query, block, selection));
            issued.Ok? &&
            DecodeCursor(Text(issued.value), Binding(hash, query', block', selection')) ==
            if query == query' && block == block' && selection == selection' then Ok(p) else Fault
  {
    var a, b := Preimage(query, block, Fingerprint(selection)), Preimage(query', block', Fingerprint(selection'));
    CursorRoundTrip(p, Binding(hash, query, block, selection), Binding(hash, query', block', selection'));
    if a == b {
      PreimageIsInjective(query, block, selection, query', block', selection');
    }
  }

  /** `projectionFingerprint`: flags, mode, then each name pushed with its terminator. */
  method ProjectionFingerprint(p: Projection) returns (bytes: ByteString)
    ensures bytes == Fingerprint(p)
  {
    bytes := Flags(p);
    match p.attributes
    case Off => bytes := bytes + [0];
    case AllOfThem => bytes := bytes + [1];
    case Named(names) =>
      assert Flags(p) + ([2] + Terminated(SortedNames(names))) == Flags(p) + [2] + Terminated(SortedNames(names));
      bytes := bytes + [2];
      var sorted := Sorted(names);
      ghost var head := bytes;
      for i := 0 to |sorted|
        invariant bytes + Terminated(sorted[i..]) == head + Terminated(sorted)
      {
        assert sorted[i..][1..] == sorted[i + 1..];
        calc {
          bytes + Terminated(sorted[i..]);
          bytes + (sorted[i] + [0] + Terminated(sorted[i + 1..]));
          bytes + (sorted[i] + [0]) + Terminated(sorted[i + 1..]);
        }
        bytes := bytes + (sorted[i] + [0]);
      }
      assert sorted[|sorted|..] == [] && bytes + [] == bytes;
  }

  /** `[...names].sort()`: least first. */
  method Sorted(names: set<ByteString>) returns (sorted: seq<ByteString>)
    ensures sorted == SortedNames(names)
  {
    hide IsLeast, SortedNames;
    sorted := [];
    assert [] + SortedNames(names) == SortedNames(names);
    NoNames();
    var left := names;
    while left != {}
      invariant SortedNames(names) == sorted + SortedNames(left)
      decreases |left|
    {
      var least := LeastOf(left);
      SortedNamesFrom(left, least);
      assert sorted + ([least] + SortedNames(left - {least})) == (sorted + [least]) + SortedNames(left - {least});
      sorted, left := sorted + [least], left - {least};
    }
  }

  lemma NoNames()
    ensures SortedNames({}) == []
  {
  }

  lemma SortedNamesFrom(names: set<ByteString>, least: ByteString)
    requires IsLeast(least, names)
    ensures SortedNames(names) == [least] + SortedNames(names - {least})
  {
    LeastIsUnique(names, least);
  }

  lemma LeastIsUnique(names: set<ByteString>, n: ByteString)
    requires IsLeast(n, names)
    ensures Least(names) == n
  {
    BeforeIsTotal(n, Least(names));
  }
}
