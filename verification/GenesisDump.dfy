/**
 Walking a genesis dump line by line as its bytes arrive
 (`readGenesisDump` in src/entityGenesisDump.ts).
 */
module GenesisDump {
  import opened Wrappers
  import opened ByteStrings
  import opened Tokenizer

  const NEWLINE: Byte := 10
  /** {"address":"0x4400000000000000000000000000000000000046" */
  const SYSTEM_LINE_PREFIX: ByteString := [123, 34, 97, 100, 100, 114, 101, 115, 115, 34, 58, 34, 48, 120, 52, 52, 48, 48, 48, 48, 48, 48, 48, 48, 48, 48, 48, 48, 48, 48, 48, 48, 48, 48, 48, 48, 48, 48, 48, 48, 48, 48, 48, 48, 48, 48, 48, 48, 48, 48, 48, 48, 52, 54, 34]
  /** "code":"0xfe */
  const RECORD_MARKER: ByteString := [34, 99, 111, 100, 101, 34, 58, 34, 48, 120, 102, 101]
  /** {"root" */
  const ROOT_PREFIX: ByteString := [123, 34, 114, 111, 111, 116, 34]

  /** What a line's JSON says of the three fields the reader looks at; each only where it is a string. */
  datatype Json = Malformed | Document(root: Option<ByteString>, address: Option<ByteString>, code: Option<ByteString>)

  datatype DumpEvent =
    | Root(root: ByteString, line: nat, end: nat)
    | Record(line: nat, end: nat, address: ByteString, code: ByteString)
    | Slot(slot: ByteString, value: ByteString)
    | System(line: nat, end: nat, slots: nat)
    | Other(line: nat, end: nat)

  /** What a read ends with when it throws: the importer's own refusal of a line, or JSON that does not parse. */
  datatype Failure = Refusal | BadJson

  /** The events of a read, and what it threw in the end, if it did. */
  datatype Reading = Reading(events: seq<DumpEvent>, failed: Option<Failure>)

  function Then(a: Reading, b: Reading): Reading {
    if a.failed.Some? then a else Reading(a.events + b.events, b.failed)
  }

  // ---------------------------------------------------------------------
  // A line, and all of them

  predicate IsHexLetter(b: Byte, lower: Byte) { b == lower || b == lower - 32 }

  /** A known record version behind the entity marker: 0xfe00 or 0xfe01, in either case. */
  predicate IsEntityRecordCode(code: ByteString) {
    |code| >= 6 && code[0] == 48 && IsHexLetter(code[1], 120) && IsHexLetter(code[2], 102) && IsHexLetter(code[3], 101) &&
    code[4] == 48 && (code[5] == 48 || code[5] == 49)
  }

  function HexCharValue(b: Byte): nat
    requires IsHexChar(b)
    ensures HexCharValue(b) < 16
  {
    if b <= 57 then b - 48 else if b <= 70 then b - 55 else b - 87
  }

  /** `Buffer.from(text, "hex")`: pairs of digits up to the first that is none. */
  function HexBytes(text: ByteString): ByteString {
    if |text| < 2 || !IsHexChar(text[0]) || !IsHexChar(text[1]) then []
    else [16 * HexCharValue(text[0]) + HexCharValue(text[1])] + HexBytes(text[2..])
  }

  predicate Contains(s: ByteString, marker: ByteString) {
    marker <= s || (s != [] && Contains(s[1..], marker))
  }

  function SlotEvents(pairs: seq<Pair>): seq<DumpEvent> {
    seq(|pairs|, i requires 0 <= i < |pairs| => Slot(pairs[i].slot, pairs[i].value))
  }

  /** One line's events; a first line that is not the root's is refused, and malformed JSON throws. */
  function LineReading(json: ByteString -> Json, bytes: ByteString, first: bool, line: nat, end: nat): Reading {
    if SYSTEM_LINE_PREFIX <= bytes then
      Reading(SlotEvents(Scan(bytes)) + [System(line, end, |Scan(bytes)|)], None)
    else if first then
      if !(ROOT_PREFIX <= bytes) then Reading([], Some(Refusal))
      else if json(bytes).Malformed? then Reading([], Some(BadJson))
      else if json(bytes).root.None? then Reading([], Some(Refusal))
      else Reading([Root(json(bytes).root.value, line, end)], None)
    else if Contains(bytes, RECORD_MARKER) then
      if json(bytes).Malformed? then Reading([], Some(BadJson))
      else if json(bytes).code.Some? && json(bytes).address.Some? && IsEntityRecordCode(json(bytes).code.value) then
        Reading([Record(line, end, json(bytes).address.value, HexBytes(json(bytes).code.value[2..]))], None)
      else Reading([Other(line, end)], None)
    else Reading([Other(line, end)], None)
  }

  function LineLength(s: ByteString): (n: nat)
    ensures n <= |s|
    ensures forall i :: 0 <= i < n ==> s[i] != NEWLINE
    ensures n < |s| ==> s[n] == NEWLINE
  {
    if s == [] || s[0] == NEWLINE then 0 else 1 + LineLength(s[1..])
  }

  /** A line and its newline; the last line may have none. */
  function LineSpan(s: ByteString): (n: nat)
    requires s != []
    ensures 0 < n <= |s|
  {
    if LineLength(s) < |s| then LineLength(s) + 1 else |s|
  }

  /** The dump read whole, from a line boundary at offset `at`. */
  function ReadAll(json: ByteString -> Json, s: ByteString, at: nat, line: nat): Reading
    decreases |s|
  {
    if s == [] then Reading([], None)
    else
      var n := LineSpan(s);
      Then(LineReading(json, s[..LineLength(s)], at == 0, line, at + n), ReadAll(json, s[n..], at + n, line + 1))
  }

  predicate NoNewline(s: ByteString) { forall i :: 0 <= i < |s| ==> s[i] != NEWLINE }

  lemma LineHasNoNewline(s: ByteString)
    ensures NoNewline(s[..LineLength(s)])
  {
  }

  lemma {:induction false} LineLengthOf(p: ByteString, rest: ByteString)
    requires NoNewline(p)
    ensures LineLength(p + [NEWLINE] + rest) == |p|
    ensures LineLength(p) == |p|
  {
    if p != [] {
      assert (p + [NEWLINE] + rest)[1..] == p[1..] + [NEWLINE] + rest;
      LineLengthOf(p[1..], rest);
    }
  }

  /** A newline completes the line before it. */
  lemma LineCompletes(json: ByteString -> Json, p: ByteString, rest: ByteString, at: nat, line: nat)
    requires NoNewline(p)
    ensures ReadAll(json, p + [NEWLINE] + rest, at, line) ==
            Then(LineReading(json, p, at == 0, line, at + |p| + 1), ReadAll(json, rest, at + |p| + 1, line + 1))
  {
    hide LineReading, Then, NoNewline, LineLength;
    var s := p + [NEWLINE] + rest;
    LineLengthOf(p, rest);
    assert s[..|p|] == p && s[|p| + 1..] == rest;
  }

  lemma NothingToRead(json: ByteString -> Json, at: nat, line: nat)
    ensures ReadAll(json, [], at, line) == Reading([], None)
  {
  }

  lemma LastLine(json: ByteString -> Json, p: ByteString, at: nat, line: nat)
    requires NoNewline(p) && p != []
    ensures ReadAll(json, p, at, line) == LineReading(json, p, at == 0, line, at + |p|)
  {
    hide LineReading;
    LineLengthOf(p, []);
    var one := LineReading(json, p, at == 0, line, at + |p|);
    assert p[..|p|] == p && p[|p|..] == [];
    assert one.events + [] == one.events;
  }

  lemma NothingAfterFailure(events: seq<DumpEvent>, failure: Failure, more: Reading)
    ensures Then(Reading(events, Some(failure)), more) == Reading(events, Some(failure))
  {
  }

  lemma ThenIsAssociative(a: Reading, b: Reading, c: Reading)
    ensures Then(Then(a, b), c) == Then(a, Then(b, c))
  {
    assert (a.events + b.events) + c.events == a.events + (b.events + c.events);
  }

  // ---------------------------------------------------------------------
  // Restarting

  /** A line's own event is its last, and names where the next line starts. */
  lemma LineEventEnds(json: ByteString -> Json, bytes: ByteString, first: bool, line: nat, end: nat, i: nat)
    requires i < |LineReading(json, bytes, first, line, end).events| && !LineReading(json, bytes, first, line, end).events[i].Slot?
    ensures var r := LineReading(json, bytes, first, line, end);
            i == |r.events| - 1 && r.events[i].line == line && r.events[i].end == end && r.failed.None?
  {
  }

  lemma FirstLineIsRead(json: ByteString -> Json, data: ByteString, at: nat, line: nat)
    requires data != []
    ensures var n := LineSpan(data);
            ReadAll(json, data, at, line) ==
            Then(LineReading(json, data[..LineLength(data)], at == 0, line, at + n), ReadAll(json, data[n..], at + n, line + 1))
  {
  }

  /** Restarting where any line's event says the next line begins yields exactly the remaining events of the full read. */
  lemma {:induction false} RestartAtLineEnd(json: ByteString -> Json, data: ByteString, at: nat, line: nat, i: nat)
    requires i < |ReadAll(json, data, at, line).events| && !ReadAll(json, data, at, line).events[i].Slot?
    ensures var r := ReadAll(json, data, at, line);
            var e := r.events[i];
            at < e.end <= at + |data| && ReadAll(json, data[e.end - at..], e.end, e.line + 1) == Reading(r.events[i + 1..], r.failed)
    decreases |data|
  {
    assert data != [];
    FirstLineIsRead(json, data, at, line);
    RestartPastFirst(json, data, at, line, i);
  }

  lemma {:induction false} RestartPastFirst(json: ByteString -> Json, data: ByteString, at: nat, line: nat, i: nat)
    requires data != [] && i < |ReadAll(json, data, at, line).events| && !ReadAll(json, data, at, line).events[i].Slot?
    requires var n := LineSpan(data);
             ReadAll(json, data, at, line) ==
             Then(LineReading(json, data[..LineLength(data)], at == 0, line, at + n), ReadAll(json, data[n..], at + n, line + 1))
    ensures var r := ReadAll(json, data, at, line);
            var e := r.events[i];
            at < e.end <= at + |data| && ReadAll(json, data[e.end - at..], e.end, e.line + 1) == Reading(r.events[i + 1..], r.failed)
    decreases |data|, 0
  {
    hide LineReading, LineLength, ReadAll;
    var r, n := ReadAll(json, data, at, line), LineSpan(data);
    var here, rest := LineReading(json, data[..LineLength(data)], at == 0, line, at + n), ReadAll(json, data[n..], at + n, line + 1);
    if i < |here.events| {
      LineEventEnds(json, data[..LineLength(data)], at == 0, line, at + n, i);
      assert r.events[i + 1..] == rest.events;
    } else {
      var j := i - |here.events|;
      assert r.events[i] == rest.events[j];
      RestartAtLineEnd(json, data[n..], at + n, line + 1, j);
      var e := rest.events[j];
      assert data[n..][e.end - (at + n)..] == data[e.end - at..];
      assert rest.events[j + 1..] == r.events[i + 1..];
    }
  }

  // ---------------------------------------------------------------------
  // The reader

  lemma SlotEventsJoin(a: seq<Pair>, b: seq<Pair>)
    ensures SlotEvents(a + b) == SlotEvents(a) + SlotEvents(b)
  {
  }

  lemma NothingFlattens()
    ensures Flatten([]) == []
  {
  }

  lemma {:induction false} FlattenOne(parts: seq<ByteString>, part: ByteString)
    ensures Flatten(parts + [part]) == Flatten(parts) + part
  {
    assert (parts + [part])[..|parts|] == parts;
  }

  /** A line that is not the system account's, whole: the root's, a record's, or another. */
  method ReadLine(json: ByteString -> Json, bytes: ByteString, first: bool, line: nat, end: nat) returns (r: Reading)
    requires !(SYSTEM_LINE_PREFIX <= bytes)
    ensures r == LineReading(json, bytes, first, line, end)
    ensures r.failed.Some? ==> r.events == []
  {
    if first {
      if !(ROOT_PREFIX <= bytes) { return Reading([], Some(Refusal)); }
      var parsed := json(bytes);
      if parsed.Malformed? { return Reading([], Some(BadJson)); }
      if parsed.root.None? { return Reading([], Some(Refusal)); }
      return Reading([Root(parsed.root.value, line, end)], None);
    }
    if Contains(bytes, RECORD_MARKER) {
      var parsed := json(bytes);
      if parsed.Malformed? { return Reading([], Some(BadJson)); }
      if parsed.code.Some? && parsed.address.Some? && IsEntityRecordCode(parsed.code.value) {
        return Reading([Record(line, end, parsed.address.value, HexBytes(parsed.code.value[2..]))], None);
      }
    }
    return Reading([Other(line, end)], None);
  }

  class DumpReader {
    const json: ByteString -> Json
    var pending: seq<ByteString>
    var pendingBytes: nat
    var tokenizer: SystemStorageTokenizer?
    var checkedPrefix: bool
    var lineStart: nat
    var line: nat
    /** Bytes taken from the stream. */
    var offset: nat
    /** The events yielded, and what the read threw, if it did. */
    var events: seq<DumpEvent>
    var failed: Option<Failure>
    /** The bytes of the line being read, and the events of the lines before it. */
    ghost var partial: ByteString
    ghost var before: seq<DumpEvent>

    ghost predicate Valid()
      reads this, tokenizer
    {
      && NoNewline(partial)
      && (tokenizer != null ==>
            tokenizer.Valid() && tokenizer.fed == partial && SYSTEM_LINE_PREFIX <= partial && pending == [] && pendingBytes == 0 &&
            events == before + SlotEvents(tokenizer.pairs))
      && (tokenizer == null ==>
            Flatten(pending) == partial && pendingBytes == |partial| && !(SYSTEM_LINE_PREFIX <= partial) && events == before &&
            (checkedPrefix <==> |partial| >= |SYSTEM_LINE_PREFIX|))
    }

    constructor (json: ByteString -> Json, startOffset: nat, startLine: nat)
      ensures Valid() && failed.None? && partial == [] && before == [] && fresh(this) && tokenizer == null
      ensures this.json == json && lineStart == offset == startOffset && line == startLine
    {
      this.json, lineStart, line, offset := json, startOffset, startLine, startOffset;
      pending, pendingBytes, tokenizer, checkedPrefix := [], 0, null, false;
      events, failed, partial, before := [], None, [], [];
    }

    /** Whether the pending parts start with the system account's line prefix, compared byte by byte across parts. */
    method StartsWithSystemPrefix() returns (yes: bool)
      ensures yes <==> SYSTEM_LINE_PREFIX <= Flatten(pending)
    {
      hide Flatten, Tracks, Scan, NoNewline;
      var i := 0;
      NothingFlattens();
      assert pending[..0] == [];
      for p := 0 to |pending|
        invariant i == |Flatten(pending[..p])| < |SYSTEM_LINE_PREFIX|
        invariant SYSTEM_LINE_PREFIX[..i] == Flatten(pending[..p])
      {
        assert pending[..p + 1] == pending[..p] + [pending[p]];
        FlattenOne(pending[..p], pending[p]);
        ghost var more := Flatten(pending[..p + 1]);
        PrefixOfMore(p + 1);
        var j := 0;
        while j < |pending[p]| && i < |SYSTEM_LINE_PREFIX|
          invariant j <= |pending[p]| && i == |Flatten(pending[..p])| + j <= |SYSTEM_LINE_PREFIX|
          invariant SYSTEM_LINE_PREFIX[..i] == more[..i]
        {
          assert more[i] == pending[p][j];
          if pending[p][j] != SYSTEM_LINE_PREFIX[i] {
            assert Flatten(pending)[i] == more[i];
            return false;
          }
          i, j := i + 1, j + 1;
        }
        if i >= |SYSTEM_LINE_PREFIX| {
          assert SYSTEM_LINE_PREFIX == more[..i];
          return true;
        }
        assert more[..i] == more;
      }
      assert pending[..|pending|] == pending;
      return false;
    }

    /** The first parts' bytes are the first bytes of all of them. */
    lemma {:induction false} PrefixOfMore(p: nat)
      requires p <= |pending|
      ensures Flatten(pending[..p]) <= Flatten(pending)
      decreases |pending| - p
    {
      if p == |pending| {
        assert pending[..p] == pending;
      } else {
        assert pending[..p + 1] == pending[..p] + [pending[p]];
        FlattenOne(pending[..p], pending[p]);
        PrefixOfMore(p + 1);
      }
    }

    /** More of the system account's line. */
    method ConsumeSystem(segment: ByteString)
      requires Valid() && NoNewline(segment) && tokenizer != null
      modifies this, tokenizer
      ensures Valid() && tokenizer == old(tokenizer)
      ensures partial == old(partial) + segment && before == old(before) && failed == old(failed)
      ensures lineStart == old(lineStart) && line == old(line) && offset == old(offset)
    {
      hide Tracks, Scan, LineReading, Flatten;
      ghost var was := tokenizer.pairs;
      var found := tokenizer.Feed(segment);
      SlotEventsJoin(was, found);
      events, partial := events + SlotEvents(found), partial + segment;
    }

    /** More of a line not known to be the system account's; its prefix is looked at once, when there is enough of it. */
    method ConsumePending(segment: ByteString)
      requires Valid() && NoNewline(segment) && tokenizer == null
      modifies this
      ensures Valid() && (tokenizer == null || fresh(tokenizer))
      ensures partial == old(partial) + segment && before == old(before) && failed == old(failed)
      ensures lineStart == old(lineStart) && line == old(line) && offset == old(offset)
    {
      hide Tracks, Scan, LineReading, Flatten;
      ghost var was := partial;
      FlattenOne(pending, segment);
      pending, pendingBytes, partial := pending + [segment], pendingBytes + |segment|, partial + segment;
      assert partial[..|was|] == was;
      if !checkedPrefix && pendingBytes >= |SYSTEM_LINE_PREFIX| {
        checkedPrefix := true;
        var starts := StartsWithSystemPrefix();
        if starts {
          tokenizer := new SystemStorageTokenizer();
          var found := tokenizer.Feed(Flatten(pending));
          pending, pendingBytes, events := [], 0, events + SlotEvents(found);
        }
      }
    }

    /** Part of a line: to the tokenizer once the line is known to be the system account's, else kept. */
    method Consume(segment: ByteString)
      requires Valid() && NoNewline(segment)
      modifies this, tokenizer
      ensures Valid() && (tokenizer == old(tokenizer) || fresh(tokenizer))
      ensures partial == old(partial) + segment && before == old(before) && failed == old(failed)
      ensures lineStart == old(lineStart) && line == old(line) && offset == old(offset)
    {
      hide Tracks, Scan, LineReading, Flatten;
      if segment == [] { return; }
      if tokenizer != null { ConsumeSystem(segment); } else { ConsumePending(segment); }
    }

    /** The last slots of the system account's line, and its own event. */
    method FinishSystemLine(end: nat)
      requires Valid() && tokenizer != null
      modifies this, tokenizer
      ensures Reading(events, None) == Then(Reading(before, None), LineReading(json, partial, lineStart == 0, line, end))
      ensures tokenizer == null && pending == [] && pendingBytes == 0
      ensures partial == old(partial) && before == old(before) && lineStart == old(lineStart) && line == old(line)
      ensures failed == old(failed) && offset == old(offset)
    {
      hide Tracks, Scan, Contains;
      ghost var was := tokenizer.pairs;
      var found := tokenizer.Feed([]);
      SlotEventsJoin(was, found);
      assert tokenizer.fed == partial;
      tokenizer.PairsAreComplete();
      events := events + SlotEvents(found);
      events := events + [System(line, end, tokenizer.count)];
      assert events == before + (SlotEvents(Scan(partial)) + [System(line, end, |Scan(partial)|)]);
      tokenizer := null;
    }

    /** The line's own event, after the last of its slots. */
    method FinishLine(end: nat)
      requires Valid() && failed.None?
      modifies this, tokenizer
      ensures Reading(before, failed) ==
              Then(Reading(old(before), None), LineReading(json, old(partial), old(lineStart) == 0, old(line), end))
      ensures failed.None? ==> Valid() && tokenizer == null && partial == [] && lineStart == end && line == old(line) + 1
      ensures failed.Some? ==> events == before && tokenizer == old(tokenizer)
      ensures offset == old(offset)
    {
      hide Tracks, Scan, LineReading, Contains;
      if tokenizer != null {
        FinishSystemLine(end);
      } else {
        var bytes := Flatten(pending);
        pending, pendingBytes := [], 0;
        var reading := ReadLine(json, bytes, lineStart == 0, line, end);
        if reading.failed.Some? {
          failed := reading.failed;
          return;
        }
        events := events + reading.events;
      }
      before, partial := events, [];
      lineStart, line, checkedPrefix := end, line + 1, false;
    }

    /** What was read and what is left make the whole reading. */
    ghost predicate Stands(whole: Reading, left: ByteString)
      reads this
    {
      if failed.Some? then whole == Reading(before, failed) && events == before
      else whole == Then(Reading(before, None), ReadAll(json, partial + left, lineStart, line))
    }

    lemma LineStands(whole: Reading, rest: ByteString)
      requires failed.None? && NoNewline(partial) && Stands(whole, [NEWLINE] + rest)
      ensures whole == Then(Then(Reading(before, None), LineReading(json, partial, lineStart == 0, line, lineStart + |partial| + 1)),
                            ReadAll(json, rest, lineStart + |partial| + 1, line + 1))
    {
      hide LineReading, ReadAll;
      assert partial + ([NEWLINE] + rest) == partial + [NEWLINE] + rest;
      LineCompletes(json, partial, rest, lineStart, line);
      ThenIsAssociative(Reading(before, None), LineReading(json, partial, lineStart == 0, line, lineStart + |partial| + 1),
                        ReadAll(json, rest, lineStart + |partial| + 1, line + 1));
    }

    /** A newline was read: the line before it is finished. */
    method CompleteLine(ghost whole: Reading, ghost rest: ByteString)
      requires Valid() && failed.None? && Stands(whole, [NEWLINE] + rest) && offset == lineStart + |partial|
      modifies this, tokenizer
      ensures Stands(whole, rest) && (failed.None? ==> Valid() && tokenizer == null && offset == lineStart + |partial|)
      ensures failed.Some? ==> tokenizer == old(tokenizer)
    {
      hide LineReading, ReadAll, Tracks, Scan, Flatten, Contains, Then;
      LineStands(whole, rest);
      ghost var later := ReadAll(json, rest, lineStart + |partial| + 1, line + 1);
      offset := offset + 1;
      FinishLine(offset);
      if failed.Some? {
        NothingAfterFailure(before, failed.value, later);
      } else {
        assert partial + rest == rest;
      }
    }

    /** So many more bytes taken from the stream. */
    method Advance(n: nat)
      requires Valid()
      modifies this`offset
      ensures Valid() && offset == old(offset) + n
    {
      offset := offset + n;
    }

    /** One chunk: its lines finished, its last piece begun. */
    method ReadChunk(chunk: ByteString, ghost whole: Reading, ghost left: ByteString)
      requires Valid() && failed.None? && Stands(whole, chunk + left) && offset == lineStart + |partial|
      modifies this, tokenizer
      ensures Stands(whole, left) && (failed.None? ==> Valid() && offset == lineStart + |partial|)
      ensures (tokenizer == null || tokenizer == old(tokenizer) || fresh(tokenizer))
    {
      hide LineReading, ReadAll, Tracks, Scan, Flatten, Contains, Then, NoNewline, LineLength, DumpReader.Valid;
      var from := 0;
      ghost var given := tokenizer;
      assert chunk[0..] == chunk;
      while from < |chunk|
        invariant from <= |chunk| && failed.None? && Valid() && offset == lineStart + |partial|
        invariant tokenizer == null || tokenizer == given || fresh(tokenizer)
        invariant Stands(whole, chunk[from..] + left)
        decreases |chunk| - from
      {
        var n := LineLength(chunk[from..]);
        ghost var piece, rest := chunk[from..from + n], chunk[from + n..] + left;
        assert piece == chunk[from..][..n];
        LineHasNoNewline(chunk[from..]);
        assert partial + (chunk[from..] + left) == (partial + piece) + rest;
        Consume(chunk[from..from + n]);
        Advance(n);
        if from + n == |chunk| {
          assert rest == left;
          return;
        }
        assert rest == [NEWLINE] + (chunk[from + n + 1..] + left);
        CompleteLine(whole, chunk[from + n + 1..] + left);
        if failed.Some? { return; }
        from := from + n + 1;
      }
      assert chunk[from..] + left == left;
    }
  }

  function JoinFrom(chunks: seq<ByteString>, i: nat): ByteString
    requires i <= |chunks|
    decreases |chunks| - i
  {
    if i == |chunks| then [] else chunks[i] + JoinFrom(chunks, i + 1)
  }

  lemma {:induction false} JoiningChunks(chunks: seq<ByteString>, i: nat)
    requires i <= |chunks|
    ensures Flatten(chunks[..i]) + JoinFrom(chunks, i) == Flatten(chunks)
    decreases |chunks| - i
  {
    if i == |chunks| {
      assert chunks[..i] == chunks && Flatten(chunks) + [] == Flatten(chunks);
    } else {
      assert chunks[..i + 1] == chunks[..i] + [chunks[i]];
      FlattenOne(chunks[..i], chunks[i]);
      JoiningChunks(chunks, i + 1);
      assert Flatten(chunks[..i]) + (chunks[i] + JoinFrom(chunks, i + 1)) == (Flatten(chunks[..i]) + chunks[i]) + JoinFrom(chunks, i + 1);
    }
  }

  /**
   `readGenesisDump`: however the bytes are cut into chunks, the events are
   those of the whole text read line by line.
   */
  method ReadGenesisDump(json: ByteString -> Json, chunks: seq<ByteString>, startOffset: nat, startLine: nat)
    returns (events: seq<DumpEvent>, failed: Option<Failure>)
    ensures Reading(events, failed) == ReadAll(json, Flatten(chunks), startOffset, startLine)
  {
    hide LineReading, Tracks, Scan, ReadAll, Contains, LineLength, SlotEvents;
    var reader := new DumpReader(json, startOffset, startLine);
    ghost var whole := ReadAll(json, JoinFrom(chunks, 0), startOffset, startLine);
    JoiningChunks(chunks, 0);
    assert [] + JoinFrom(chunks, 0) == JoinFrom(chunks, 0);
    assert Then(Reading([], None), whole) == whole;
    for i := 0 to |chunks|
      invariant reader.Valid() && reader.failed.None? && reader.Stands(whole, JoinFrom(chunks, i))
      invariant reader.offset == reader.lineStart + |reader.partial|
      invariant reader.json == json && fresh(reader) && (reader.tokenizer == null || fresh(reader.tokenizer))
    {
      reader.ReadChunk(chunks[i], whole, JoinFrom(chunks, i + 1));
      if reader.failed.Some? { return reader.events, reader.failed; }
    }
    assert reader.partial + [] == reader.partial;
    if reader.tokenizer != null || reader.pendingBytes > 0 {
      LastLine(json, reader.partial, reader.lineStart, reader.line);
      reader.FinishLine(reader.offset);
    } else {
      NothingToRead(json, reader.lineStart, reader.line);
    }
    return reader.events, reader.failed;
  }

  /** A dump's root by its first event: the root; no root, so that the dump is refused; or JSON that does not parse. */
  datatype RootLine = Found(root: ByteString) | NoRoot | Unreadable

  function RootOf(reading: Reading): RootLine {
    if reading.events != [] then
      if reading.events[0].Root? then Found(reading.events[0].root) else NoRoot
    else if reading.failed == Some(BadJson) then Unreadable
    else NoRoot
  }

  /** `readDumpRoot`: the first event from the start of the bytes. */
  method ReadDumpRoot(json: ByteString -> Json, chunks: seq<ByteString>) returns (root: RootLine)
    ensures root == RootOf(ReadAll(json, Flatten(chunks), 0, 1))
  {
    var events, failed := ReadGenesisDump(json, chunks, 0, 1);
    if events != [] && events[0].Root? { return Found(events[0].root); }
    if events == [] && failed == Some(BadJson) { return Unreadable; }
    return NoRoot;
  }

  /** Past the start of the dump nothing is refused: what a line throws is its JSON. */
  lemma {:induction false} LaterLinesAreNotRefused(json: ByteString -> Json, s: ByteString, at: nat, line: nat)
    requires at > 0
    ensures ReadAll(json, s, at, line).failed != Some(Refusal)
    decreases |s|
  {
    hide Scan, LineLength;
    if s != [] { LaterLinesAreNotRefused(json, s[LineSpan(s)..], at + LineSpan(s), line + 1); }
  }

  /** A dump with a root throws only for JSON that does not parse. */
  lemma RootedIsNotRefused(json: ByteString -> Json, s: ByteString)
    requires RootOf(ReadAll(json, s, 0, 1)).Found?
    ensures ReadAll(json, s, 0, 1).failed != Some(Refusal)
  {
    hide Scan, LineLength, SlotEvents;
    if s != [] { LaterLinesAreNotRefused(json, s[LineSpan(s)..], LineSpan(s), 2); }
  }
}
