/**
 Proving that a dump's records stand in entity-id order by two hash chains
 (`GenesisIdLedger` in src/entityGenesisDump.ts). The hash is a parameter; where
 collisions matter it is taken to be injective.
 */
module Ledger {
  import opened Wrappers
  import opened ByteStrings
  import opened BigEndian
  import opened EntityIndex
  import opened Tokenizer
  import opened GenesisDump

  type Hash = ByteString -> ByteString

  ghost predicate Injective(hash: Hash) {
    forall a, b :: hash(a) == hash(b) ==> a == b
  }

  /** "arkiv.entity_count" and "arkiv.id2key" */
  const ENTITY_COUNT: ByteString := [97, 114, 107, 105, 118, 46, 101, 110, 116, 105, 116, 121, 95, 99, 111, 117, 110, 116]
  const ID_TO_KEY: ByteString := [97, 114, 107, 105, 118, 46, 105, 100, 50, 107, 101, 121]

  /** A slot as the dump spells it: 0x and lowercase hex. */
  function Spelled(word: ByteString): ByteString { [48, 120] + Hex(word) }

  function CountSlot(hash: Hash): ByteString { Spelled(hash(ENTITY_COUNT)) }

  function IdToKeySlot(hash: Hash, id: nat): ByteString { Spelled(hash(ID_TO_KEY + Encode(id, 8))) }

  function Zeros(n: nat): ByteString { if n == 0 then [] else [0] + Zeros(n - 1) }

  /** The pair's value as a 32-byte word: its hex digits, zero-padded on the left. */
  function Word(value: ByteString): ByteString {
    Encode(Number(value), 32)
  }

  /** `BigInt("0x...")` */
  function Number(value: ByteString): nat {
    if |value| <= 2 then 0
    else
      var last := value[|value| - 1];
      16 * Number(value[..|value| - 1]) + (if IsHexChar(last) then HexCharValue(last) else 0)
  }

  /** The chain over some words, from 32 zero bytes. */
  function Chain(hash: Hash, words: seq<ByteString>): ByteString {
    if words == [] then Zeros(32) else hash(Chain(hash, words[..|words| - 1]) + Last(words))
  }

  /** The words listed for ids 0, 1, 2, ... in that order; every other pair is passed over. */
  function IdWords(hash: Hash, pairs: seq<Pair>): (words: seq<ByteString>)
    ensures |words| <= |pairs|
    ensures forall i :: 0 <= i < |words| ==> |words[i]| == 32
  {
    if pairs == [] then []
    else
      var before, pair := IdWords(hash, pairs[..|pairs| - 1]), Last(pairs);
      if Lower(pair.slot) != CountSlot(hash) && Lower(pair.slot) == IdToKeySlot(hash, |before|) then before + [Word(pair.value)]
      else before
  }

  /** The entity count slot's value, the last one where there are several. */
  function CountIn(hash: Hash, pairs: seq<Pair>): Option<nat> {
    if pairs == [] then None
    else if Lower(Last(pairs).slot) == CountSlot(hash) then Some(Number(Last(pairs).value))
    else CountIn(hash, pairs[..|pairs| - 1])
  }

  datatype LedgerState = LedgerState(
    records: nat, recordChain: ByteString, systemSeen: bool, ids: nat, idChain: ByteString, entityCount: Option<nat>)

  /** The ledger of some record keys and storage pairs, each in file order. */
  function StateOf(hash: Hash, keys: seq<ByteString>, pairs: seq<Pair>, systemSeen: bool): LedgerState {
    LedgerState(|keys|, Chain(hash, keys), systemSeen, |IdWords(hash, pairs)|, Chain(hash, IdWords(hash, pairs)), CountIn(hash, pairs))
  }

  /** Booking a record's key moves only the records' side. */
  function WithRecord(hash: Hash, s: LedgerState, key: ByteString): LedgerState {
    s.(records := s.records + 1, recordChain := hash(s.recordChain + key))
  }

  /** Booking a pair: the count, the next id's key, or nothing. */
  function WithSlot(hash: Hash, s: LedgerState, slot: ByteString, value: ByteString): LedgerState {
    if Lower(slot) == CountSlot(hash) then s.(entityCount := Some(Number(value)))
    else if Lower(slot) != IdToKeySlot(hash, s.ids) then s
    else s.(ids := s.ids + 1, idChain := hash(s.idChain + Word(value)))
  }

  lemma RecordIsBooked(hash: Hash, keys: seq<ByteString>, pairs: seq<Pair>, seen: bool, key: ByteString)
    ensures WithRecord(hash, StateOf(hash, keys, pairs, seen), key) == StateOf(hash, keys + [key], pairs, seen)
  {
    assert (keys + [key])[..|keys|] == keys;
  }

  lemma SlotIsBooked(hash: Hash, keys: seq<ByteString>, pairs: seq<Pair>, seen: bool, pair: Pair)
    ensures WithSlot(hash, StateOf(hash, keys, pairs, seen), pair.slot, pair.value) == StateOf(hash, keys, pairs + [pair], seen)
  {
    hide Word, Lower, IdToKeySlot, CountSlot;
    assert (pairs + [pair])[..|pairs|] == pairs;
    var words := IdWords(hash, pairs);
    assert (words + [Word(pair.value)])[..|words|] == words;
  }

  predicate AddsUp(state: LedgerState, total: nat) {
    state.records == total && state.systemSeen && state.entityCount == Some(total) && state.ids == state.records &&
    state.recordChain == state.idChain
  }

  // ---------------------------------------------------------------------
  // Soundness

  /** Chains of as many 32-byte words are equal only for the same words. */
  lemma {:induction false} ChainIsInjective(hash: Hash, a: seq<ByteString>, b: seq<ByteString>)
    requires Injective(hash) && |a| == |b| && Chain(hash, a) == Chain(hash, b)
    requires forall i :: 0 <= i < |a| ==> |a[i]| == 32
    requires forall i :: 0 <= i < |b| ==> |b[i]| == 32
    ensures a == b
  {
    if a != [] {
      var n := |a| - 1;
      var s, t := Chain(hash, a[..n]) + a[n], Chain(hash, b[..n]) + b[n];
      assert hash(s) == hash(t);
      assert s == t;
      assert |s| == |Chain(hash, a[..n])| + 32 && |t| == |Chain(hash, b[..n])| + 32;
      assert a[n] == s[|s| - 32..] == t[|t| - 32..] == b[n];
      assert Chain(hash, a[..n]) == s[..|s| - 32] == t[..|t| - 32] == Chain(hash, b[..n]);
      ChainIsInjective(hash, a[..n], b[..n]);
      assert a == a[..n] + [a[n]] && b == b[..n] + [b[n]];
    }
  }

  /** Where each id's pair stands, one after the other. */
  ghost predicate ListsIds(hash: Hash, pairs: seq<Pair>, words: seq<ByteString>, places: seq<nat>) {
    && |places| == |words|
    && (forall i, j :: 0 <= i < j < |places| ==> places[i] < places[j])
    && (forall i :: 0 <= i < |places| ==>
          places[i] < |pairs| && Lower(pairs[places[i]].slot) == IdToKeySlot(hash, i) && Word(pairs[places[i]].value) == words[i])
  }

  /** The words matched do stand in the account's storage, in id order. */
  lemma {:induction false} IdWordsAreListed(hash: Hash, pairs: seq<Pair>) returns (places: seq<nat>)
    ensures ListsIds(hash, pairs, IdWords(hash, pairs), places)
  {
    hide IdToKeySlot, CountSlot, Word, Lower;
    if pairs == [] {
      places := [];
    } else {
      var n := |pairs| - 1;
      var before := IdWords(hash, pairs[..n]);
      var earlier := IdWordsAreListed(hash, pairs[..n]);
      if Lower(pairs[n].slot) != CountSlot(hash) && Lower(pairs[n].slot) == IdToKeySlot(hash, |before|) {
        places := earlier + [n];
      } else {
        places := earlier;
      }
    }
  }

  /**
   Soundness: when the ledger adds up, the record keys in file order are
   exactly the values the system account stores for ids 0, 1, ... in order,
   as many as the manifest says.
   */
  lemma VerifiedRecordsAreInIdOrder(hash: Hash, keys: seq<ByteString>, pairs: seq<Pair>, systemSeen: bool, total: nat)
    returns (places: seq<nat>)
    requires Injective(hash) && forall i :: 0 <= i < |keys| ==> |keys[i]| == 32
    requires AddsUp(StateOf(hash, keys, pairs, systemSeen), total)
    ensures |keys| == total && systemSeen && CountIn(hash, pairs) == Some(total)
    ensures ListsIds(hash, pairs, keys, places)
  {
    ChainIsInjective(hash, keys, IdWords(hash, pairs));
    places := IdWordsAreListed(hash, pairs);
  }

  // ---------------------------------------------------------------------
  // Completeness

  /** The account lists the keys in id order, once each, and no further id: whatever else stands between them. */
  ghost predicate WellFormedAccount(hash: Hash, pairs: seq<Pair>, keys: seq<ByteString>, places: seq<nat>) {
    && ListsIds(hash, pairs, keys, places)
    && (forall p, id :: 0 <= p < |pairs| && 0 <= id <= |keys| && Lower(pairs[p].slot) == IdToKeySlot(hash, id) ==>
          id < |keys| && p == places[id])
  }

  lemma CountSlotIsApart(hash: Hash, id: nat)
    requires Injective(hash)
    ensures IdToKeySlot(hash, id) != CountSlot(hash)
  {
    var a, b := ID_TO_KEY + Encode(id, 8), ENTITY_COUNT;
    assert |a| == 20 && |b| == 18;
    if Spelled(hash(a)) == Spelled(hash(b)) {
      SpelledIsInjective(hash(a), hash(b));
    }
  }

  lemma SpelledIsInjective(a: ByteString, b: ByteString)
    requires Spelled(a) == Spelled(b)
    ensures a == b
  {
    UnhexHex(a);
    UnhexHex(b);
    assert Spelled(a)[2..] == Hex(a) && Spelled(b)[2..] == Hex(b);
  }

  lemma PairPassedOver(hash: Hash, pairs: seq<Pair>, p: nat, words: seq<ByteString>)
    requires 0 < p <= |pairs| && IdWords(hash, pairs[..p - 1]) == words
    requires Lower(pairs[p - 1].slot) != IdToKeySlot(hash, |words|)
    ensures IdWords(hash, pairs[..p]) == words
  {
    hide IdToKeySlot, CountSlot, Word, Lower;
    assert pairs[..p][..p - 1] == pairs[..p - 1];
  }

  lemma PairMatched(hash: Hash, pairs: seq<Pair>, p: nat, words: seq<ByteString>)
    requires Injective(hash) && 0 < p <= |pairs| && IdWords(hash, pairs[..p - 1]) == words
    requires Lower(pairs[p - 1].slot) == IdToKeySlot(hash, |words|)
    ensures IdWords(hash, pairs[..p]) == words + [Word(pairs[p - 1].value)]
  {
    CountSlotIsApart(hash, |words|);
    hide IdToKeySlot, CountSlot, Word, Lower;
    assert pairs[..p][..p - 1] == pairs[..p - 1];
  }

  lemma NoWords(hash: Hash, pairs: seq<Pair>)
    ensures IdWords(hash, pairs[..0]) == []
  {
  }

  /** After some pairs, as many ids are matched as have their place among them. */
  lemma {:induction false} MatchesAsListed(hash: Hash, pairs: seq<Pair>, keys: seq<ByteString>, places: seq<nat>, p: nat, i: nat)
    requires Injective(hash) && WellFormedAccount(hash, pairs, keys, places)
    requires p <= |pairs| && i <= |keys|
    requires i > 0 ==> places[i - 1] < p
    requires i < |keys| ==> p <= places[i]
    ensures IdWords(hash, pairs[..p]) == keys[..i]
  {
    hide IdToKeySlot, CountSlot, Word, Lower, Injective, IdWords;
    if p == 0 {
      NoWords(hash, pairs);
    } else {
      if i > 0 && places[i - 1] == p - 1 {
        MatchesAsListed(hash, pairs, keys, places, p - 1, i - 1);
        PairMatched(hash, pairs, p, keys[..i - 1]);
        assert keys[..i] == keys[..i - 1] + [keys[i - 1]];
      } else {
        MatchesAsListed(hash, pairs, keys, places, p - 1, i);
        PairPassedOver(hash, pairs, p, keys[..i]);
      }
    }
  }

  /** Completeness: a well-formed account with the right count always adds up, whatever foreign slots are interleaved. */
  lemma WellFormedAccountAddsUp(hash: Hash, pairs: seq<Pair>, keys: seq<ByteString>, places: seq<nat>)
    requires Injective(hash) && WellFormedAccount(hash, pairs, keys, places)
    requires CountIn(hash, pairs) == Some(|keys|)
    ensures AddsUp(StateOf(hash, keys, pairs, true), |keys|)
  {
    assert |places| > 0 ==> places[|places| - 1] < |pairs|;
    MatchesAsListed(hash, pairs, keys, places, |pairs|, |keys|);
    assert pairs[..|pairs|] == pairs && keys[..|keys|] == keys;
  }

  // ---------------------------------------------------------------------
  // The ledger

  class GenesisIdLedger {
    const hash: Hash
    var records: nat
    var recordChain: ByteString
    var systemSeen: bool
    var ids: nat
    var idChain: ByteString
    var entityCount: Option<nat>
    /** The next id's slot, computed when first asked for. */
    var expectedSlot: Option<ByteString>
    ghost var keys: seq<ByteString>
    ghost var pairs: seq<Pair>

    ghost predicate Valid()
      reads this
    {
      State() == StateOf(hash, keys, pairs, systemSeen) &&
      (expectedSlot.Some? ==> expectedSlot.value == IdToKeySlot(hash, ids))
    }

    /** `state()` */
    function State(): LedgerState
      reads this
    {
      LedgerState(records, recordChain, systemSeen, ids, idChain, entityCount)
    }

    constructor (hash: Hash)
      ensures Valid() && this.hash == hash && keys == [] && pairs == [] && !systemSeen
    {
      this.hash := hash;
      records, recordChain, systemSeen, ids, idChain, entityCount := 0, Zeros(32), false, 0, Zeros(32), None;
      expectedSlot, keys, pairs := None, [], [];
    }

    /** Rebuilt from a stored state, which is all it stands for. */
    constructor Resume(hash: Hash, state: LedgerState, ghost keys: seq<ByteString>, ghost pairs: seq<Pair>)
      requires state == StateOf(hash, keys, pairs, state.systemSeen)
      ensures Valid() && State() == state && this.hash == hash && this.keys == keys && this.pairs == pairs
    {
      this.hash := hash;
      records, recordChain, systemSeen := state.records, state.recordChain, state.systemSeen;
      ids, idChain, entityCount := state.ids, state.idChain, state.entityCount;
      expectedSlot := None;
      this.keys, this.pairs := keys, pairs;
    }

    /** Book a record's key; its ordinal is the id it was given. */
    method AddRecord(key: ByteString) returns (id: nat)
      requires Valid()
      modifies this
      ensures Valid() && keys == old(keys) + [key] && pairs == old(pairs) && systemSeen == old(systemSeen)
      ensures id == old(records) && State() == WithRecord(hash, old(State()), key)
    {
      assert (keys + [key])[..|keys|] == keys;
      recordChain := hash(recordChain + key);
      id, records := records, records + 1;
      keys := keys + [key];
    }

    /** Book one of the system account's storage pairs. */
    method AddSlot(slot: ByteString, value: ByteString)
      requires Valid()
      modifies this
      ensures Valid() && pairs == old(pairs) + [Pair(slot, value)] && keys == old(keys) && systemSeen == old(systemSeen)
      ensures State() == WithSlot(hash, old(State()), slot, value)
    {
      hide IdToKeySlot, CountSlot, Word, Lower, Number, StateOf;
      SlotIsBooked(hash, keys, pairs, systemSeen, Pair(slot, value));
      pairs := pairs + [Pair(slot, value)];
      var lower := Lower(slot);
      if lower == CountSlot(hash) {
        entityCount := Some(Number(value));
        return;
      }
      if expectedSlot.None? { expectedSlot := Some(IdToKeySlot(hash, ids)); }
      if lower != expectedSlot.value { return; }
      idChain := hash(idChain + Word(value));
      ids := ids + 1;
      expectedSlot := None;
    }

    method MarkSystemSeen()
      requires Valid()
      modifies this
      ensures Valid() && keys == old(keys) && pairs == old(pairs) && State() == old(State()).(systemSeen := true)
    {
      systemSeen := true;
    }

    method Verify(total: nat) returns (ok: bool)
      requires Valid()
      ensures ok <==> AddsUp(State(), total)
    {
      if records != total { return false; }
      if !systemSeen { return false; }
      if entityCount.None? { return false; }
      if entityCount.value != total { return false; }
      if ids != records { return false; }
      return recordChain == idChain;
    }
  }

  /** A ledger rebuilt from another's state answers every later run of bookings as the other does. */
  lemma RebuiltLedgerAgrees(hash: Hash, keys: seq<ByteString>, pairs: seq<Pair>, keys': seq<ByteString>, pairs': seq<Pair>, seen: bool,
                            moreKeys: seq<ByteString>, morePairs: seq<Pair>, seenLater: bool)
    requires StateOf(hash, keys, pairs, seen) == StateOf(hash, keys', pairs', seen)
    ensures StateOf(hash, keys + moreKeys, pairs + morePairs, seenLater) == StateOf(hash, keys' + moreKeys, pairs' + morePairs, seenLater)
  {
    ChainContinues(hash, keys, keys', moreKeys);
    IdWordsContinue(hash, pairs, pairs', morePairs);
  }

  lemma {:induction false} ChainContinues(hash: Hash, a: seq<ByteString>, b: seq<ByteString>, more: seq<ByteString>)
    requires Chain(hash, a) == Chain(hash, b)
    ensures Chain(hash, a + more) == Chain(hash, b + more)
  {
    if more == [] {
      assert a + more == a && b + more == b;
    } else {
      var n := |more| - 1;
      assert (a + more)[..|a + more| - 1] == a + more[..n] && (b + more)[..|b + more| - 1] == b + more[..n];
      ChainContinues(hash, a, b, more[..n]);
    }
  }

  lemma OnePairMore(hash: Hash, a: seq<Pair>, pair: Pair)
    ensures IdWords(hash, a + [pair]) ==
            if Lower(pair.slot) != CountSlot(hash) && Lower(pair.slot) == IdToKeySlot(hash, |IdWords(hash, a)|) then IdWords(hash, a) + [Word(pair.value)]
            else IdWords(hash, a)
    ensures forall b :: CountIn(hash, a) == CountIn(hash, b) ==> CountIn(hash, a + [pair]) == CountIn(hash, b + [pair])
  {
    assert (a + [pair])[..|a|] == a;
    forall b | CountIn(hash, a) == CountIn(hash, b) ensures CountIn(hash, a + [pair]) == CountIn(hash, b + [pair]) {
      assert (b + [pair])[..|b|] == b;
    }
  }

  lemma {:induction false} IdWordsContinue(hash: Hash, a: seq<Pair>, b: seq<Pair>, more: seq<Pair>)
    requires |IdWords(hash, a)| == |IdWords(hash, b)| && Chain(hash, IdWords(hash, a)) == Chain(hash, IdWords(hash, b))
    requires CountIn(hash, a) == CountIn(hash, b)
    ensures |IdWords(hash, a + more)| == |IdWords(hash, b + more)|
    ensures Chain(hash, IdWords(hash, a + more)) == Chain(hash, IdWords(hash, b + more))
    ensures CountIn(hash, a + more) == CountIn(hash, b + more)
  {
    hide IdToKeySlot, CountSlot, Word, Lower, IdWords, CountIn, Chain;
    if more == [] {
      assert a + more == a && b + more == b;
    } else {
      var n := |more| - 1;
      assert a + more == (a + more[..n]) + [more[n]] && b + more == (b + more[..n]) + [more[n]];
      IdWordsContinue(hash, a, b, more[..n]);
      OnePairMore(hash, a + more[..n], more[n]);
      OnePairMore(hash, b + more[..n], more[n]);
      ChainContinues(hash, IdWords(hash, a + more[..n]), IdWords(hash, b + more[..n]), [Word(more[n].value)]);
    }
  }
}
