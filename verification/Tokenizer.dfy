/**
 Pulling `"slot":"value"` pairs out of a byte stream that arrives in chunks
 (`SystemStorageTokenizer` in src/entityGenesisDump.ts). Bytes stand for the
 characters they decode to: a pair is ASCII throughout.
 */
module Tokenizer {
  import opened ByteStrings

  const QUOTE: Byte := 34
  const COLON: Byte := 58
  const TOKENIZER_TAIL := 256

  datatype Pair = Pair(slot: ByteString, value: ByteString)

  predicate IsHexChar(b: Byte) { 48 <= b <= 57 || 65 <= b <= 70 || 97 <= b <= 102 }

  /** How many hex digits the text starts with. */
  function HexRun(t: ByteString): (n: nat)
    ensures n <= |t|
    ensures forall i :: 0 <= i < n ==> IsHexChar(t[i])
    ensures n < |t| ==> !IsHexChar(t[n])
  {
    if t == [] || !IsHexChar(t[0]) then 0 else 1 + HexRun(t[1..])
  }

  /** The fixed part of a pair: the quoted slot, the colon, and the value's opening. */
  predicate OpensPair(t: ByteString) {
    && |t| >= 72
    && t[0] == QUOTE && t[1] == 48 && t[2] == 120
    && (forall i :: 3 <= i < 67 ==> IsHexChar(t[i]))
    && t[67] == QUOTE && t[68] == COLON && t[69] == QUOTE && t[70] == 48 && t[71] == 120
  }

  /** The length of the pair the text starts with; 0 when it does not start with one. */
  function MatchLength(t: ByteString): (m: nat)
    ensures m == 0 || 74 <= m <= 137
    ensures m <= |t|
  {
    if !OpensPair(t) then 0
    else
      var n := HexRun(t[72..]);
      if 1 <= n <= 64 && 72 + n < |t| && t[72 + n] == QUOTE then 73 + n else 0
  }

  function PairOf(t: ByteString, m: nat): Pair
    requires 74 <= m <= |t|
  {
    Pair(t[1..67], t[70..m - 1])
  }

  /** The matches of the global regular expression: leftmost, one after the other. */
  function Scan(t: ByteString): seq<Pair>
    decreases |t|
  {
    if t == [] then []
    else
      var m := MatchLength(t);
      if m > 0 then [PairOf(t, m)] + Scan(t[m..]) else Scan(t[1..])
  }

  /** Where the last match ends; 0 without one. */
  function Consumed(t: ByteString): (c: nat)
    ensures c <= |t|
    decreases |t|
  {
    if t == [] then 0
    else
      var m := MatchLength(t);
      if m > 0 then m + Consumed(t[m..])
      else if Consumed(t[1..]) == 0 then 0 else 1 + Consumed(t[1..])
  }

  /** What is kept for the next chunk: nothing that is matched, and never more than the tail. */
  function Kept(t: ByteString): ByteString {
    var tail := if |t| > TOKENIZER_TAIL then |t| - TOKENIZER_TAIL else 0;
    t[if Consumed(t) > tail then Consumed(t) else tail..]
  }

  // ---------------------------------------------------------------------
  // Matches do not depend on what follows

  lemma {:induction false} HexRunExtends(t: ByteString, u: ByteString)
    requires HexRun(t) < |t|
    ensures HexRun(t + u) == HexRun(t)
  {
    if IsHexChar(t[0]) {
      assert (t + u)[1..] == t[1..] + u;
      HexRunExtends(t[1..], u);
    }
  }

  lemma MatchExtends(t: ByteString, u: ByteString)
    requires MatchLength(t) > 0
    ensures MatchLength(t + u) == MatchLength(t) && PairOf(t + u, MatchLength(t)) == PairOf(t, MatchLength(t))
  {
    assert (t + u)[72..] == t[72..] + u;
    HexRunExtends(t[72..], u);
  }

  lemma {:induction false} HexRunShrinks(t: ByteString, u: ByteString)
    requires HexRun(t + u) < |t|
    ensures HexRun(t) == HexRun(t + u)
  {
    if t != [] && IsHexChar(t[0]) {
      assert (t + u)[1..] == t[1..] + u;
      HexRunShrinks(t[1..], u);
    }
  }

  /** A match that ends inside the text so far was already one. */
  lemma MatchShrinks(t: ByteString, u: ByteString)
    requires 0 < MatchLength(t + u) <= |t|
    ensures MatchLength(t) == MatchLength(t + u)
  {
    var s := t + u;
    assert forall i :: 0 <= i < |t| ==> s[i] == t[i];
    assert s[72..] == t[72..] + u;
    HexRunShrinks(t[72..], u);
  }

  /** Of two overlapping matches the one that starts first ends first. */
  lemma EarlierMatchEndsFirst(s: ByteString, p: nat)
    requires 0 < p < MatchLength(s) && MatchLength(s[p..]) > 0
    ensures p + MatchLength(s[p..]) > MatchLength(s)
  {
    var n := HexRun(s[72..]);
    assert s[p..][0] == s[p] == QUOTE && s[p..][1] == s[p + 1] == 48;
    assert forall i :: 72 <= i < 72 + n ==> s[i] == s[72..][i - 72];
    assert p >= 67;
  }

  // ---------------------------------------------------------------------
  // Scanning in pieces

  /** While the text has a match further on, none that starts here can run past the text. */
  lemma {:induction false} NoMatchAcrossALaterOne(t: ByteString, u: ByteString, p: nat)
    requires p < |t| && MatchLength(t) == 0 && MatchLength(t[p..]) > 0
    ensures MatchLength(t + u) == 0
  {
    hide MatchLength;
    if MatchLength(t + u) > 0 {
      if MatchLength(t + u) <= |t| {
        MatchShrinks(t, u);
      } else {
        var s := t + u;
        assert s[p..] == t[p..] + u;
        MatchExtends(t[p..], u);
        EarlierMatchEndsFirst(s, p);
      }
    }
  }

  lemma {:induction false} ConsumedHasMatch(t: ByteString)
    requires Consumed(t) > 0
    ensures exists p :: 0 <= p < |t| && MatchLength(t[p..]) > 0
    decreases |t|
  {
    assert t[0..] == t;
    if MatchLength(t) == 0 {
      ConsumedHasMatch(t[1..]);
      var p :| 0 <= p < |t[1..]| && MatchLength(t[1..][p..]) > 0;
      assert t[1..][p..] == t[p + 1..];
    }
  }

  lemma ScanOfMatch(t: ByteString, u: ByteString)
    requires MatchLength(t) > 0
    ensures var m := MatchLength(t);
            Scan(t + u) == [PairOf(t, m)] + Scan(t[m..] + u) && Scan(t) == [PairOf(t, m)] + Scan(t[m..]) &&
            t[Consumed(t)..] == t[m..][Consumed(t[m..])..]
  {
    MatchExtends(t, u);
    assert (t + u)[MatchLength(t)..] == t[MatchLength(t)..] + u;
  }

  lemma ScanOfOther(t: ByteString, u: ByteString)
    requires t != [] && MatchLength(t) == 0 && Consumed(t) > 0
    ensures Scan(t + u) == Scan(t[1..] + u) && Scan(t) == Scan(t[1..]) && t[Consumed(t)..] == t[1..][Consumed(t[1..])..]
  {
    hide MatchLength;
    ConsumedHasMatch(t);
    var p :| 0 <= p < |t| && MatchLength(t[p..]) > 0;
    NoMatchAcrossALaterOne(t, u, p);
    assert (t + u)[1..] == t[1..] + u;
  }

  /** Scanning on after the last match loses nothing. */
  lemma {:induction false} ScanAfterConsumed(t: ByteString, u: ByteString)
    ensures Scan(t + u) == Scan(t) + Scan(t[Consumed(t)..] + u)
    decreases |t|
  {
    hide MatchLength;
    if Consumed(t) == 0 {
      NoPairsUnconsumed(t);
      assert t[0..] == t;
    } else if MatchLength(t) > 0 {
      ScanOfMatch(t, u);
      ScanAfterConsumed(t[MatchLength(t)..], u);
    } else {
      ScanOfOther(t, u);
      ScanAfterConsumed(t[1..], u);
    }
  }

  lemma {:induction false} NoPairsUnconsumed(t: ByteString)
    requires Consumed(t) == 0
    ensures Scan(t) == []
    decreases |t|
  {
    if t != [] { NoPairsUnconsumed(t[1..]); }
  }

  /** A text without a match loses nothing by keeping only its tail. */
  lemma {:induction false} ScanOfTail(r: ByteString, u: ByteString, drop: nat)
    requires Consumed(r) == 0 && (drop == 0 || drop + TOKENIZER_TAIL <= |r|)
    ensures Scan(r + u) == Scan(r[drop..] + u)
    decreases drop
  {
    if drop == 0 {
      assert r[0..] == r;
    } else {
      if MatchLength(r + u) > 0 { MatchShrinks(r, u); }
      assert (r + u)[1..] == r[1..] + u;
      assert r[drop..] == r[1..][drop - 1..];
      ScanOfTail(r[1..], u, drop - 1);
    }
  }

  lemma {:induction false} NothingAfterConsumed(t: ByteString)
    ensures Consumed(t[Consumed(t)..]) == 0
    decreases |t|
  {
    if t != [] {
      var m := MatchLength(t);
      if m > 0 {
        NothingAfterConsumed(t[m..]);
        assert t[m..][Consumed(t[m..])..] == t[Consumed(t)..];
      } else if Consumed(t) > 0 {
        NothingAfterConsumed(t[1..]);
        assert t[1..][Consumed(t[1..])..] == t[Consumed(t)..];
      } else {
        assert t[0..] == t;
      }
    }
  }

  /**
   Whatever the text is cut into, feeding what was kept of one piece together
   with the next finds the pairs of the whole: none lost, doubled or invented.
   */
  lemma ScanInTwo(t: ByteString, u: ByteString)
    ensures Scan(t + u) == Scan(t) + Scan(Kept(t) + u)
  {
    var c := Consumed(t);
    var r := t[c..];
    var tail := if |t| > TOKENIZER_TAIL then |t| - TOKENIZER_TAIL else 0;
    ScanAfterConsumed(t, u);
    NothingAfterConsumed(t);
    var drop := if c > tail then 0 else tail - c;
    assert Kept(t) == r[drop..];
    ScanOfTail(r, u, drop);
  }

  // ---------------------------------------------------------------------
  // The tokenizer

  /** The pairs emitted so far and the text held stand for all the text fed, whatever comes next. */
  ghost predicate Tracks(pairs: seq<Pair>, text: ByteString, fed: ByteString) {
    forall u :: Scan(fed + u) == pairs + Scan(text + u)
  }

  lemma TracksGrow(pairs: seq<Pair>, text: ByteString, fed: ByteString, bytes: ByteString)
    requires Tracks(pairs, text, fed)
    ensures Tracks(pairs + Scan(text + bytes), Kept(text + bytes), fed + bytes)
  {
    hide Scan, Kept;
    var t := text + bytes;
    forall u ensures Scan(fed + bytes + u) == (pairs + Scan(t)) + Scan(Kept(t) + u) {
      assert fed + bytes + u == fed + (bytes + u) && text + (bytes + u) == t + u;
      ScanInTwo(t, u);
    }
  }

  /** What is kept holds no complete pair. */
  lemma KeptHasNoPair(t: ByteString)
    ensures Scan(Kept(t)) == []
  {
    ScanInTwo(t, []);
    assert t + [] == t && Kept(t) + [] == Kept(t);
    assert |Scan(t)| == |Scan(t)| + |Scan(Kept(t))|;
  }

  /** The `exec` loop: match after match, and where the last one ended. */
  method ScanText(t: ByteString) returns (found: seq<Pair>, consumed: nat)
    ensures found == Scan(t) && consumed == Consumed(t)
  {
    hide MatchLength;
    found, consumed := [], 0;
    var at := 0;
    assert t[0..] == t;
    while at < |t|
      invariant 0 <= consumed <= at <= |t|
      invariant found + Scan(t[at..]) == Scan(t)
      invariant Consumed(t) == if Consumed(t[at..]) == 0 then consumed else at + Consumed(t[at..])
    {
      var m := MatchLength(t[at..]);
      assert t[at..][if m > 0 then m else 1..] == t[at + (if m > 0 then m else 1)..];
      if m > 0 {
        found, at := found + [PairOf(t[at..], m)], at + m;
        consumed := at;
      } else {
        at := at + 1;
      }
    }
  }

  class SystemStorageTokenizer {
    var text: ByteString
    var count: nat
    /** All the text fed, and all the pairs given out. */
    ghost var fed: ByteString
    ghost var pairs: seq<Pair>

    ghost predicate Valid()
      reads this
    {
      Tracks(pairs, text, fed) && count == |pairs| && Scan(text) == []
    }

    constructor ()
      ensures Valid() && fed == [] && pairs == []
    {
      text, count, fed, pairs := [], 0, [], [];
      new;
      assert forall u :: [] + Scan(u) == Scan(u) && fed + u == u && text + u == u;
    }

    method Feed(bytes: ByteString) returns (found: seq<Pair>)
      requires Valid()
      modifies this
      ensures Valid() && fed == old(fed) + bytes && pairs == old(pairs) + found
    {
      hide Scan, Consumed, MatchLength, Tracks;
      text := text + bytes;
      var consumed;
      found, consumed := ScanText(text);
      TracksGrow(pairs, old(text), fed, bytes);
      KeptHasNoPair(text);
      var tail := if |text| > TOKENIZER_TAIL then |text| - TOKENIZER_TAIL else 0;
      text := text[if consumed > tail then consumed else tail..];
      count := count + |found|;
      fed, pairs := fed + bytes, pairs + found;
    }

    /** At any moment the pairs given out are those of the whole text fed. */
    lemma PairsAreComplete()
      requires Valid()
      ensures pairs == Scan(fed)
    {
      assert fed + [] == fed && text + [] == text;
      assert pairs + [] == pairs;
      assert Scan(fed + []) == pairs + Scan(text + []);
    }
  }

  function Flatten(parts: seq<ByteString>): ByteString {
    if parts == [] then [] else Flatten(parts[..|parts| - 1]) + parts[|parts| - 1]
  }

  /** Feeding a text in any chunks finds the pairs of the whole text. */
  method TokenizeChunks(chunks: seq<ByteString>) returns (found: seq<Pair>)
    ensures found == Scan(Flatten(chunks))
  {
    hide Scan, Tracks, Kept;
    var tokenizer := new SystemStorageTokenizer();
    found := [];
    for i := 0 to |chunks|
      invariant tokenizer.Valid() && tokenizer.fed == Flatten(chunks[..i]) && found == tokenizer.pairs
    {
      assert chunks[..i + 1][..i] == chunks[..i];
      var more := tokenizer.Feed(chunks[i]);
      found := found + more;
    }
    assert chunks[..|chunks|] == chunks;
    var last := tokenizer.Feed([]);
    found := found + last;
    assert tokenizer.fed == Flatten(chunks);
    tokenizer.PairsAreComplete();
  }
}
