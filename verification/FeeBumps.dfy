/**
 Sending one nonce's batch with fee bumps (src/baseloadRuntime.ts,
 src/baseloadTaskHelpers.ts), against an environment that may time out, fail
 to answer, or refuse to send. The wait may never end; a script of what the
 environment does in each round stands for any part of it.
 */
module FeeBumps {
  import opened Wrappers
  import opened ByteStrings

  const MAX_FEE_BUMPS_PER_NONCE: nat := 2
  const REPLACEMENT_PRICE_BUMP_PERCENT: nat := 10

  // ---------------------------------------------------------------------
  // Fees

  datatype Fees = Fees(maxFee: nat, tip: nat)

  /** Strictly more than ten percent above. */
  predicate ClearsReplacementPriceBump(previous: nat, next: nat) {
    next * 100 > previous * (100 + REPLACEMENT_PRICE_BUMP_PERCENT)
  }

  /** An eighth up, rounded up, and by at least one wei. */
  function BumpByAnEighth(wei: nat): nat {
    var bumped := (wei * 9 + 7) / 8;
    if bumped > wei then bumped else wei + 1
  }

  function Min(a: nat, b: nat): nat { if a < b then a else b }

  function BumpReplacementFees(previous: Fees, cap: nat): Option<Fees> {
    var maxFee := Min(BumpByAnEighth(previous.maxFee), cap);
    var tip := Min(BumpByAnEighth(previous.tip), maxFee);
    if !ClearsReplacementPriceBump(previous.maxFee, maxFee) || !ClearsReplacementPriceBump(previous.tip, tip) then None
    else Some(Fees(maxFee, tip))
  }

  function InitialMaxFeePerGas(cap: nat, baseFee: Option<nat>, tip: nat): nat {
    if baseFee.None? then cap
    else Min(if baseFee.value * 2 > tip then baseFee.value * 2 else tip, cap)
  }

  /** Both fields raised enough to replace the previous copy. */
  predicate Outbids(next: Fees, previous: Fees) {
    ClearsReplacementPriceBump(previous.maxFee, next.maxFee) && ClearsReplacementPriceBump(previous.tip, next.tip)
  }

  lemma EighthClears(wei: nat)
    ensures ClearsReplacementPriceBump(wei, BumpByAnEighth(wei))
  {
    var bumped := (wei * 9 + 7) / 8;
    assert 8 * bumped >= wei * 9;
  }

  /** A bump outbids, within the worker's cap and with the tip under the fee. */
  lemma BumpOutbids(previous: Fees, cap: nat)
    requires BumpReplacementFees(previous, cap).Some?
    ensures var next := BumpReplacementFees(previous, cap).value;
            Outbids(next, previous) && next.maxFee <= cap && next.tip <= next.maxFee
  {
  }

  /** From a tip under its fee, there is a bump exactly when the cap itself outbids the previous fee. */
  lemma BumpExistsExactly(previous: Fees, cap: nat)
    requires previous.tip <= previous.maxFee
    ensures BumpReplacementFees(previous, cap).Some? <==> 100 * cap > 110 * previous.maxFee
  {
    EighthClears(previous.maxFee);
    EighthClears(previous.tip);
  }

  /** The first fee leaves the cap as headroom: under it, the base fee may double and the tip still fits. */
  lemma InitialFeeLeavesRoom(cap: nat, baseFee: Option<nat>, tip: nat)
    ensures var fee := InitialMaxFeePerGas(cap, baseFee, tip);
            fee <= cap && (fee < cap ==> baseFee.Some? && fee >= 2 * baseFee.value && (fee == tip || fee == 2 * baseFee.value)) &&
            (tip <= cap ==> tip <= fee)
  {
  }

  // ---------------------------------------------------------------------
  // The environment

  type TxHash = ByteString

  /** A receipt lookup: it failed, there is none, or the copy was mined. */
  datatype Lookup = LookupFailed | NoReceipt | Mined(ok: bool)

  /** How a wait over the sent copies ends: a receipt for one of them, a stall given up, or an error. */
  datatype Waited = Receipt(copy: nat, ok: bool) | TimedOut | WaitThrew

  datatype Sent = SentAs(hash: TxHash) | SendFailed

  /**
   One round: how the wait ends; the nonce as the stall check reads it, and as
   the check after the timeout does; each copy's lookup; whether the worker was
   stopped; and what a send would come to.
   */
  datatype Round = Round(
    waited: Waited, stallNonce: Option<nat>, latestNonce: Option<nat>, lookups: seq<Lookup>, aborted: bool, send: Sent)

  function LookupOf(r: Round, i: nat): Lookup {
    if i < |r.lookups| then r.lookups[i] else LookupFailed
  }

  datatype Found = Unspent | Unsettled | Landed(copy: nat, ok: bool) | SpentElsewhere

  /** The first copy with a receipt, from `i` on; a failed lookup leaves the matter open. */
  function FoundFrom(r: Round, copies: nat, i: nat, unsettled: bool): Found
    requires i <= copies
    decreases copies - i
  {
    if i == copies then (if unsettled then Unsettled else SpentElsewhere)
    else if LookupOf(r, i).Mined? then Landed(i, LookupOf(r, i).ok)
    else FoundFrom(r, copies, i + 1, unsettled || LookupOf(r, i).LookupFailed?)
  }

  function FoundLanded(r: Round, nonce: nat, copies: nat): Found {
    if r.latestNonce.None? || r.latestNonce.value <= nonce then Unspent else FoundFrom(r, copies, 0, false)
  }

  /** "Spent elsewhere" needs the nonce seen past and every copy's lookup answered null; a copy found is one that was mined. */
  lemma {:induction false} FoundMeans(r: Round, copies: nat, i: nat, unsettled: bool)
    requires i <= copies
    ensures FoundFrom(r, copies, i, unsettled).SpentElsewhere? <==>
            !unsettled && forall j :: i <= j < copies ==> LookupOf(r, j) == NoReceipt
    ensures !FoundFrom(r, copies, i, unsettled).Unspent?
    ensures var f := FoundFrom(r, copies, i, unsettled);
            f.Landed? ==> i <= f.copy < copies && LookupOf(r, f.copy) == Mined(f.ok) &&
                          forall j :: i <= j < f.copy ==> !LookupOf(r, j).Mined?
    decreases copies - i
  {
    if i < copies { FoundMeans(r, copies, i + 1, unsettled || LookupOf(r, i).LookupFailed?); }
  }

  // ---------------------------------------------------------------------
  // The loop's state

  datatype Ending = Waiting | Returned(hash: TxHash) | Reverted(hash: TxHash) | Elsewhere | Stopped | Threw

  /** `offers` lists the fees of every `send` made, failed ones included; `hashes` the copies that were accepted. */
  datatype State = State(
    fees: Fees, offers: seq<Fees>, hashes: seq<TxHash>, feeBumps: nat, bumpsExhausted: bool, ending: Ending)

  function Begun(fees: Fees, send: Sent): State {
    if send.SendFailed? then State(fees, [fees], [], 0, false, Threw) else State(fees, [fees], [send.hash], 0, false, Waiting)
  }

  /** What the wait and the check after it say of this round's copies. */
  function Landing(s: State, r: Round, nonce: nat): Found
    requires s.hashes != []
  {
    match r.waited
    case Receipt(copy, ok) => Landed(copy % |s.hashes|, ok)
    case WaitThrew => Unsettled
    case TimedOut =>
      // Out of bumps, a stall is given up only once the nonce is seen past.
      if s.bumpsExhausted && (r.stallNonce.None? || r.stallNonce.value <= nonce) then Unsettled
      else FoundLanded(r, nonce, |s.hashes|)
  }

  function Bumped(s: State, r: Round, cap: nat): State {
    var fees := if s.feeBumps < MAX_FEE_BUMPS_PER_NONCE then BumpReplacementFees(s.fees, cap) else None;
    if s.bumpsExhausted then s
    else if fees.None? then s.(bumpsExhausted := true)
    else if r.aborted then s.(ending := Stopped)
    else s.(feeBumps := s.feeBumps + 1, fees := fees.value, offers := s.offers + [fees.value],
            hashes := if r.send.SentAs? then s.hashes + [r.send.hash] else s.hashes)
  }

  function After(s: State, r: Round, nonce: nat, cap: nat): State {
    if !s.ending.Waiting? || s.hashes == [] then s
    else if r.waited.WaitThrew? then s.(ending := Threw)
    else
      match Landing(s, r, nonce)
      case Unsettled => s
      case Unspent => Bumped(s, r, cap)
      case SpentElsewhere => s.(ending := Elsewhere)
      case Landed(copy, ok) =>
        if copy >= |s.hashes| then s
        else if ok then s.(ending := Returned(s.hashes[copy])) else s.(ending := Reverted(s.hashes[copy]))
  }

  function AfterAll(s: State, rounds: seq<Round>, nonce: nat, cap: nat): State {
    if rounds == [] then s else After(AfterAll(s, rounds[..|rounds| - 1], nonce, cap), rounds[|rounds| - 1], nonce, cap)
  }

  // ---------------------------------------------------------------------
  // What holds against any environment

  /** Every later offer outbids the one before, within the cap, with its tip under its fee. */
  ghost predicate OffersClimb(offers: seq<Fees>, cap: nat) {
    forall i :: 0 < i < |offers| ==>
      Outbids(offers[i], offers[i - 1]) && offers[i].maxFee <= cap && offers[i].tip <= offers[i].maxFee
  }

  ghost predicate Sound(s: State, first: Fees, cap: nat) {
    && s.offers != [] && s.offers[0] == first && s.fees == s.offers[|s.offers| - 1]
    && |s.offers| == 1 + s.feeBumps && s.feeBumps <= MAX_FEE_BUMPS_PER_NONCE && |s.hashes| <= |s.offers|
    && OffersClimb(s.offers, cap)
    && (s.ending.Returned? ==> s.ending.hash in s.hashes)
    && (s.ending.Reverted? ==> s.ending.hash in s.hashes)
    && (s.hashes == [] ==> s.ending.Threw?)
  }

  lemma BumpKeepsSound(s: State, r: Round, first: Fees, cap: nat)
    requires Sound(s, first, cap) && s.ending.Waiting?
    ensures Sound(Bumped(s, r, cap), first, cap)
  {
    if s.feeBumps < MAX_FEE_BUMPS_PER_NONCE && BumpReplacementFees(s.fees, cap).Some? {
      BumpOutbids(s.fees, cap);
    }
  }

  lemma RoundKeepsSound(s: State, r: Round, nonce: nat, first: Fees, cap: nat)
    requires Sound(s, first, cap)
    ensures Sound(After(s, r, nonce, cap), first, cap)
  {
    hide Outbids, BumpReplacementFees, Bumped, FoundFrom, LookupOf;
    if s.ending.Waiting? {
      BumpKeepsSound(s, r, first, cap);
    }
  }

  /**
   Against any environment there are at most three sends; each later one
   outbids the one before in both fields, keeps to the worker's cap and its tip
   to its fee; and what is returned is the hash of a copy that was sent.
   */
  lemma {:induction false} SendsClimb(first: Fees, send: Sent, rounds: seq<Round>, nonce: nat, cap: nat)
    ensures var s := AfterAll(Begun(first, send), rounds, nonce, cap);
            Sound(s, first, cap) && 1 <= |s.offers| <= 3
  {
    if rounds != [] {
      SendsClimb(first, send, rounds[..|rounds| - 1], nonce, cap);
      RoundKeepsSound(AfterAll(Begun(first, send), rounds[..|rounds| - 1], nonce, cap), rounds[|rounds| - 1], nonce, first, cap);
    }
  }

  /** Once the bumps are exhausted, or the run has ended, nothing more is ever sent. */
  lemma {:induction false} NothingIsSentAfterExhaustion(s: State, rounds: seq<Round>, nonce: nat, cap: nat)
    requires s.bumpsExhausted || !s.ending.Waiting?
    ensures var t := AfterAll(s, rounds, nonce, cap);
            t.offers == s.offers && t.hashes == s.hashes && (t.bumpsExhausted || !t.ending.Waiting?)
  {
    if rounds != [] {
      NothingIsSentAfterExhaustion(s, rounds[..|rounds| - 1], nonce, cap);
    }
  }

  /**
   A round ends with "spent elsewhere" only on a nonce read past this one and
   a null lookup for every copy sent, and returns a hash only on a successful
   receipt of that copy, from the wait or from a lookup.
   */
  lemma RoundEndsForCause(s: State, r: Round, nonce: nat, cap: nat)
    requires s.ending.Waiting? && s.hashes != []
    ensures var t := After(s, r, nonce, cap);
            (t.ending.Elsewhere? ==>
               r.latestNonce.Some? && r.latestNonce.value > nonce && forall i :: 0 <= i < |s.hashes| ==> LookupOf(r, i) == NoReceipt) &&
            (t.ending.Returned? ==> exists i :: 0 <= i < |s.hashes| && s.hashes[i] == t.ending.hash && HasReceipt(r, |s.hashes|, i, true)) &&
            (t.ending.Reverted? ==> exists i :: 0 <= i < |s.hashes| && s.hashes[i] == t.ending.hash && HasReceipt(r, |s.hashes|, i, false))
  {
    FoundMeans(r, |s.hashes|, 0, false);
    var f := Landing(s, r, nonce);
    if f.Landed? && !r.waited.WaitThrew? {
      assert f.copy < |s.hashes|;
      assert HasReceipt(r, |s.hashes|, f.copy, f.ok);
    }
  }

  predicate HasReceipt(r: Round, copies: nat, i: nat, ok: bool) {
    copies > 0 && ((r.waited.Receipt? && r.waited.copy % copies == i && r.waited.ok == ok) || LookupOf(r, i) == Mined(ok))
  }

  /** The round that ended a run said why. */
  ghost predicate Justified(s: State, r: Round, nonce: nat) {
    match s.ending
    case Elsewhere => r.latestNonce.Some? && r.latestNonce.value > nonce && forall i :: 0 <= i < |s.hashes| ==> LookupOf(r, i) == NoReceipt
    case Returned(hash) => exists i :: 0 <= i < |s.hashes| && s.hashes[i] == hash && HasReceipt(r, |s.hashes|, i, true)
    case Reverted(hash) => exists i :: 0 <= i < |s.hashes| && s.hashes[i] == hash && HasReceipt(r, |s.hashes|, i, false)
    case Stopped => r.aborted
    case _ => true
  }

  /**
   Over a whole run: "spent elsewhere" is reported only after a round in which
   the nonce was read past this one and every copy sent was looked up and not
   found; a hash is returned only on a successful receipt of that sent copy.
   */
  lemma {:induction false} RunsEndForCause(first: Fees, send: Sent, rounds: seq<Round>, nonce: nat, cap: nat)
    ensures var s := AfterAll(Begun(first, send), rounds, nonce, cap);
            s.ending.Waiting? || s.ending.Threw? || exists i :: 0 <= i < |rounds| && Justified(s, rounds[i], nonce)
  {
    if rounds != [] {
      var n := |rounds| - 1;
      var before := AfterAll(Begun(first, send), rounds[..n], nonce, cap);
      RunsEndForCause(first, send, rounds[..n], nonce, cap);
      SendsClimb(first, send, rounds[..n], nonce, cap);
      if before.ending.Waiting? {
        RoundEndsForCause(before, rounds[n], nonce, cap);
        assert After(before, rounds[n], nonce, cap).ending.Waiting? || After(before, rounds[n], nonce, cap).ending.Threw? ||
               Justified(After(before, rounds[n], nonce, cap), rounds[n], nonce);
      } else if !before.ending.Threw? {
        var i :| 0 <= i < n && Justified(before, rounds[..n][i], nonce);
        assert Justified(before, rounds[i], nonce);
      }
    }
  }

  /** The cap decides how often a stuck nonce can be bumped: the bumps stop exactly when the cap no longer outbids, or at two. */
  lemma BumpsStopExactly(s: State, r: Round, nonce: nat, cap: nat)
    requires s.ending.Waiting? && s.hashes != [] && !s.bumpsExhausted && s.fees.tip <= s.fees.maxFee
    requires r.waited.TimedOut? && FoundLanded(r, nonce, |s.hashes|).Unspent?
    ensures After(s, r, nonce, cap).bumpsExhausted <==> s.feeBumps >= MAX_FEE_BUMPS_PER_NONCE || 100 * cap <= 110 * s.fees.maxFee
  {
    BumpExistsExactly(s.fees, cap);
  }

  // ---------------------------------------------------------------------
  // The loop as the source writes it

  method FindLandedTransaction(r: Round, nonce: nat, hashes: seq<TxHash>) returns (found: Found)
    ensures found == FoundLanded(r, nonce, |hashes|)
  {
    if r.latestNonce.None? || r.latestNonce.value <= nonce { return Unspent; }
    var unsettled := false;
    for i := 0 to |hashes|
      invariant FoundFrom(r, |hashes|, 0, false) == FoundFrom(r, |hashes|, i, unsettled)
    {
      var receipt := LookupOf(r, i);
      if receipt.LookupFailed? { unsettled := true; }
      if receipt.Mined? { return Landed(i, receipt.ok); }
    }
    if unsettled { return Unsettled; }
    return SpentElsewhere;
  }

  method SendWithFeeBumps(first: Fees, nonce: nat, cap: nat, send: Sent, script: seq<Round>) returns (s: State)
    ensures s == AfterAll(Begun(first, send), script, nonce, cap)
  {
    hide BumpReplacementFees, FoundFrom, LookupOf;
    ghost var begun := Begun(first, send);
    var fees, offers := first, [first];
    if send.SendFailed? {
      NothingIsSentAfterExhaustion(begun, script, nonce, cap);
      EndedStays(begun, script, nonce, cap, 0);
      return State(fees, offers, [], 0, false, Threw);
    }
    var sentHashes := [send.hash];
    var feeBumps, bumpsExhausted := 0, false;
    var i := 0;
    while i < |script|
      invariant i <= |script|
      invariant AfterAll(begun, script[..i], nonce, cap) == State(fees, offers, sentHashes, feeBumps, bumpsExhausted, Waiting)
      invariant sentHashes != []
    {
      var round := script[i];
      assert script[..i + 1][..i] == script[..i];
      i := i + 1;
      ghost var s' := After(State(fees, offers, sentHashes, feeBumps, bumpsExhausted, Waiting), round, nonce, cap);
      assert AfterAll(begun, script[..i], nonce, cap) == s';
      if !s'.ending.Waiting? { EndedStays(begun, script, nonce, cap, i); }
      var landed;
      match round.waited {
        case WaitThrew =>
          return State(fees, offers, sentHashes, feeBumps, bumpsExhausted, Threw);
        case Receipt(copy, ok) =>
          landed := Landed(copy % |sentHashes|, ok);
        case TimedOut =>
          if bumpsExhausted && (round.stallNonce.None? || round.stallNonce.value <= nonce) {
            landed := Unsettled;
          } else {
            landed := FindLandedTransaction(round, nonce, sentHashes);
          }
      }
      FoundMeans(round, |sentHashes|, 0, false);
      if landed.Unsettled? { continue; }
      if landed.SpentElsewhere? { return State(fees, offers, sentHashes, feeBumps, bumpsExhausted, Elsewhere); }
      if landed.Landed? {
        if !landed.ok { return State(fees, offers, sentHashes, feeBumps, bumpsExhausted, Reverted(sentHashes[landed.copy])); }
        return State(fees, offers, sentHashes, feeBumps, bumpsExhausted, Returned(sentHashes[landed.copy]));
      }
      if bumpsExhausted { continue; }
      var bumped := if feeBumps < MAX_FEE_BUMPS_PER_NONCE then BumpReplacementFees(fees, cap) else None;
      if bumped.None? {
        bumpsExhausted := true;
        continue;
      }
      if round.aborted { return State(fees, offers, sentHashes, feeBumps, bumpsExhausted, Stopped); }
      feeBumps, fees := feeBumps + 1, bumped.value;
      offers := offers + [fees];
      if round.send.SentAs? { sentHashes := sentHashes + [round.send.hash]; }
    }
    assert script[..|script|] == script;
    return State(fees, offers, sentHashes, feeBumps, bumpsExhausted, Waiting);
  }

  /** A run that has ended stays as it ended. */
  lemma {:induction false} EndedStays(s: State, rounds: seq<Round>, nonce: nat, cap: nat, i: nat)
    requires i <= |rounds| && !AfterAll(s, rounds[..i], nonce, cap).ending.Waiting?
    ensures AfterAll(s, rounds, nonce, cap) == AfterAll(s, rounds[..i], nonce, cap)
  {
    if i == |rounds| {
      assert rounds[..i] == rounds;
    } else {
      var n := |rounds| - 1;
      assert rounds[..n][..i] == rounds[..i];
      EndedStays(s, rounds[..n], nonce, cap, i);
    }
  }
}
