/**
 What the projector's invariant gives a reader of the index: block by block it
 is the fold of what is stored, it ends the same however the steps were
 interleaved, the late scan and the repair get there, and it answers for the
 past.
 */
module ProjectorTheorems {
  import opened Wrappers
  import opened ByteStrings
  import opened EntityIndex
  import opened FoldProperties
  import opened IndexStorage
  import opened StoredPast
  import opened Projector
  import opened ProjectorRuns

  // ---------------------------------------------------------------------
  // The index is the fold

  /** Queries are answered when a fold point is stored and no import owns the index. */
  ghost predicate Ready(w: World) {
    w.index.through.Some? && FoldingAllowed(w.index.genesis)
  }

  /** The genesis state every key's fold stands on in a ready index. */
  ghost function Ground(c: Setting, w: World, k: ByteString): Option<Version> {
    if w.index.genesis.Done? then SeedOf(c, k) else None
  }

  /** A row of the key at or below the block, written after the mark less the overlap, which the next late scan lists. */
  ghost predicate AwaitsLateScan(c: Setting, w: World, k: ByteString, block: nat) {
    Pending(c, w.db, block, Mark(w), k)
  }

  /** What may keep a key from standing at a block. */
  ghost predicate Behind(c: Setting, w: World, k: ByteString, block: nat) {
    AwaitsLateScan(c, w, k, block) || k in w.overlooked
  }

  ghost predicate Stands(c: Setting, w: World, k: ByteString, block: nat) {
    StandsAt(w.db, w.index.hist, k, block, Ground(c, w, k))
  }

  lemma ReadyKeysStand(c: Setting, w: World, k: ByteString, block: nat)
    requires Invariant(c, w) && Ready(w) && block <= w.index.through.value
    ensures Stands(c, w, k, block) || Behind(c, w, k, block)
  {
    hide StandsAt, Pending, SeedRows, NoneAhead, VersionsHaveRows, LocalInvariant;
    assert Vouched(c, w.index.genesis, k);
    if k !in w.overlooked { assert StandsOrWaits(c, w.db, w.index, Mark(w), k, block); }
  }

  /**
   In every state of every run, whatever was interleaved and wherever it
   crashed, each key's stored versions are, at every block up to the fold point,
   the fold of its operations up to that block on its genesis state; or it has a
   row at or below that block which the next late scan reads; or it is one of
   the keys the first watermark passed over.
   */
  lemma ReadyIndexIsTheFold(c: Setting, states: seq<World>, actions: seq<Action>, i: nat, k: ByteString, block: nat)
    requires WellFormedSetting(c) && IsRun(c, states, actions) && StartsClean(c, states[0]) && i < |states|
    requires Ready(states[i]) && block <= states[i].index.through.value
    ensures Stands(c, states[i], k, block) || Behind(c, states[i], k, block)
  {
    hide Invariant, IsRun, Stands, Behind;
    RunsKeepInvariant(c, states, actions, i);
    ReadyKeysStand(c, states[i], k, block);
  }

  /** A key awaits the late scan at some block covered exactly when the next one lists it. */
  lemma LateScanListsThePending(c: Setting, w: World, k: ByteString)
    requires WellFormedDatabase(w.db) && FoldPoint(w.index).Some? && w.index.watermark.Some?
    ensures (exists block: nat :: block <= Covered(w.index) && AwaitsLateScan(c, w, k, block)) <==>
            k in KeysScannedSince(w.db, w.index.watermark.value - c.overlap, FoldPoint(w.index).value)
  {
    if block: nat :| block <= Covered(w.index) && AwaitsLateScan(c, w, k, block) {
      var at :| at in w.db && at.block <= block && Touches(w.db[at], k) && w.db[at].scannedAt > w.index.watermark.value - c.overlap;
      var i :| 0 <= i < |w.db[at].rows| && w.db[at].rows[i].entityKey == Some(k);
    }
    if k in KeysScannedSince(w.db, w.index.watermark.value - c.overlap, FoldPoint(w.index).value) {
      assert AwaitsLateScan(c, w, k, Covered(w.index));
    }
  }

  // ---------------------------------------------------------------------
  // Confluence

  /** The two tables hold nothing but what the histories say. */
  lemma TablesAreDetermined(versions: VersionTable, versions': VersionTable, attributes: AttributeTable, attributes': AttributeTable,
                            hist: Histories)
    requires IsVersionTable(versions, hist) && IsVersionTable(versions', hist)
    requires IsAttributeTable(attributes, hist) && IsAttributeTable(attributes', hist)
    ensures versions == versions' && attributes == attributes'
  {
    forall id ensures id in versions <==> id in versions' {
      if id in versions { assert Recorded(hist, versions[id]); }
      if id in versions' { assert Recorded(hist, versions'[id]); }
    }
    forall id | id in versions ensures versions[id] == versions'[id] {
      assert Recorded(hist, versions[id]);
    }
    AttributeTableIsIncluded(attributes, attributes', hist);
    AttributeTableIsIncluded(attributes', attributes, hist);
  }

  lemma AttributeTableIsIncluded(a: AttributeTable, b: AttributeTable, hist: Histories)
    requires RowsHaveSources(a, hist) && AttributesHaveRows(b, hist)
    ensures forall id :: id in a ==> id in b && b[id] == a[id]
  {
    forall id | id in a ensures id in b && b[id] == a[id] {
      assert HasSource(hist, id, a[id]);
      var v :| Recorded(hist, v) && a[id].attribute in v.attributes &&
               id == AttributeIdOf(v, a[id].attribute) && a[id] == RowOf(v, a[id].attribute);
      assert HasRow(b, v, a[id].attribute);
    }
  }

  /** Any run, in whatever order it imported, folded, rescanned and crashed, that ends with nothing behind and every receipt readable. */
  ghost predicate SettlesIn(c: Setting, states: seq<World>, actions: seq<Action>, w: World)
    requires WellFormedSetting(c)
  {
    IsRun(c, states, actions) && StartsClean(c, states[0]) && w == states[|actions|] && Ready(w) && w.index.through.value >= 0 &&
    (forall k :: !Behind(c, w, k, w.index.through.value)) &&
    forall k :: Truth(k, Relevant(w.db, k, w.index.through.value), Ground(c, w, k)).Ok?
  }

  lemma GroundIsWellFormed(c: Setting, w: World, k: ByteString)
    requires WellFormedSetting(c)
    ensures WellFormedBase(k, Ground(c, w, k))
  {
    if SeedOf(c, k).Some? { SeedIsCanonical(c, k); }
  }

  lemma SettledInvariant(c: Setting, states: seq<World>, actions: seq<Action>, w: World)
    requires WellFormedSetting(c) && SettlesIn(c, states, actions, w)
    ensures Invariant(c, w) && WellFormedDatabase(w.db) && WellFormedHistories(w.index.hist)
  {
    RunsKeepInvariant(c, states, actions, |actions|);
  }

  lemma SettledKey(c: Setting, states: seq<World>, actions: seq<Action>, w: World, k: ByteString, block: nat)
    requires WellFormedSetting(c) && SettlesIn(c, states, actions, w) && block <= w.index.through.value
    ensures Truth(k, Relevant(w.db, k, block), Ground(c, w, k)) == Ok(Started(VersionsOf(w.index.hist, k), block))
  {
    hide Truth, Relevant, Started, IsRun, Ground, Invariant;
    var through := w.index.through.value;
    SettledInvariant(c, states, actions, w);
    ReadyKeysStand(c, w, k, block);
    assert !Behind(c, w, k, through);
    if Pending(c, w.db, block, Mark(w), k) { PendingGrows(c, w.db, block, through, Mark(w), k); }
    GroundIsWellFormed(c, w, k);
    TruthInThePast(w.db, k, through, block, Ground(c, w, k));
  }

  /** No stored version starts above the fold point. */
  ghost predicate NothingAhead(w: World)
    requires w.index.through.Some?
  {
    forall k, i :: 0 <= i < |VersionsOf(w.index.hist, k)| ==> VersionsOf(w.index.hist, k)[i].fromBlock <= w.index.through.value
  }

  /**
   Genesis before, between or after the folding, chunks of any size, refolds
   any number of times: two runs that end at the same fold point over the same
   stored operations, with nothing behind and no unreadable receipt, end with
   the same versions of everything, as they stood at every block up to the fold
   point; and with the same histories altogether, where neither has started one
   above it.
   */
  lemma RunsAreConfluent(c: Setting, s1: seq<World>, a1: seq<Action>, w1: World, s2: seq<World>, a2: seq<Action>, w2: World)
    requires WellFormedSetting(c) && SettlesIn(c, s1, a1, w1) && SettlesIn(c, s2, a2, w2)
    requires w1.db == w2.db && w1.index.through == w2.index.through && (w1.index.genesis.Done? <==> w2.index.genesis.Done?)
    ensures forall k, block: nat :: block <= w1.index.through.value ==>
              Started(VersionsOf(w1.index.hist, k), block) == Started(VersionsOf(w2.index.hist, k), block)
    ensures NothingAhead(w1) && NothingAhead(w2) ==> w1.index.hist == w2.index.hist
  {
    hide IsRun, StartsClean, Invariant, Truth, Relevant, Started, Behind;
    forall k, block: nat | block <= w1.index.through.value
      ensures Started(VersionsOf(w1.index.hist, k), block) == Started(VersionsOf(w2.index.hist, k), block)
    {
      SettledKey(c, s1, a1, w1, k, block);
      SettledKey(c, s2, a2, w2, k, block);
      assert Ground(c, w1, k) == Ground(c, w2, k);
    }
    if NothingAhead(w1) && NothingAhead(w2) {
      SettledInvariant(c, s1, a1, w1);
      SettledInvariant(c, s2, a2, w2);
      forall k ensures VersionsOf(w1.index.hist, k) == VersionsOf(w2.index.hist, k) {
        AllStarted(w1.index.hist, k, w1.index.through.value);
        AllStarted(w2.index.hist, k, w1.index.through.value);
      }
      HistoriesAgree(w1.index.hist, w2.index.hist);
    }
  }

  lemma AllStarted(hist: Histories, k: ByteString, block: nat)
    requires WellFormedHistories(hist)
    requires forall i :: 0 <= i < |VersionsOf(hist, k)| ==> VersionsOf(hist, k)[i].fromBlock <= block
    ensures Started(VersionsOf(hist, k), block) == VersionsOf(hist, k)
  {
    var vs := VersionsOf(hist, k);
    if vs != [] {
      assert WellFormedVersions(k, vs);
      assert vs[|vs| - 1 := Last(vs).(toBlock := None)] == vs;
    }
  }

  // ---------------------------------------------------------------------
  // The late scan and the repair make progress

  /** After a late scan a key awaits the next one at a block only for rows up to there stamped within the overlap before it began. */
  lemma LateScanSettles(c: Setting, w: World, k: ByteString, block: nat)
    requires WellFormedSetting(c) && Invariant(c, w) && Allowed(c, w, FinishLate) && Vouched(c, w.index.genesis, k)
    requires block <= Covered(w.index) && k !in w.overlooked
    requires forall at :: at in w.db && at.block <= block && Touches(w.db[at], k) ==> w.db[at].scannedAt <= w.local.now - c.overlap
    ensures var w' := Do(c, w, FinishLate);
            w'.index.watermark == Some(w.local.now) && StandsAt(w'.db, w'.index.hist, k, block, BaseFor(c, w'.index.genesis, k))
  {
    hide Truth, Started, Relevant, SeedRows, NoneAhead, VersionsHaveRows, WellFormedHistories, Vouched;
    assert StandsOrWaits(c, w.db, w.index, w.local.now, k, block);
  }

  /** An undisturbed late scan of readable receipts runs to its end and moves the watermark to when it began. */
  lemma LateScanCompletes(c: Setting, w: World)
    requires WellFormedSetting(c) && Invariant(c, w) && w.local == Idle && Ready(w) && w.index.watermark.Some?
    requires Refolded(w.db, w.index.hist,
                      KeysScannedSince(w.db, w.index.watermark.value - c.overlap, w.index.through.value), w.index.through.value).Ok?
    ensures Allowed(c, w, StartLate)
    ensures var w1 := Do(c, w, StartLate);
            Allowed(c, w1, ReadLate) &&
            var w2 := Do(c, w1, ReadLate);
            Allowed(c, w2, RefoldLate) &&
            var w3 := Do(c, w2, RefoldLate);
            Allowed(c, w3, FinishLate) && Do(c, w3, FinishLate).index.watermark == Some(w.clock)
  {
    hide Invariant, Refolded, KeysScannedSince;
  }

  /** The genesis keys a repair has yet to pass. */
  ghost function Unrepaired(c: Setting, g: Genesis): set<ByteString> {
    if !g.Repair? then {} else set i | 0 <= i < |c.seed| && Before(g.after, c.seed[i].entityKey) :: c.seed[i].entityKey
  }

  /** A repair page that commits finishes the repair or leaves strictly fewer keys: the keyset walk ends, for any limits and any number of backends. */
  lemma RepairProgresses(c: Setting, w: World, b: nat)
    requires Repairing(c, w, b)
    ensures var g := Do(c, w, CommitRepair(b)).index.genesis;
            g.Done? || (g.Repair? && Before(w.index.genesis.after, g.after) && Unrepaired(c, g) < Unrepaired(c, w.index.genesis))
  {
    hide Agreement, SeedRows, SkippedAreLate, WellFormedHistories, CreatesNoSeed, WalkedRows, VersionsHaveRows, NoneAhead, Unfolded, LocalInvariant,
      PagesStand, Refolded;
    StandsByBoth(c, w, b);
    CommittedPageStands(c, w, b, Mark(w));
    var page, after := w.pages[b].page, w.index.genesis.after;
    var g := AfterPage(page, w.pages[b].limit);
    if g.Repair? {
      var last := Last(page);
      assert IsSeedKey(c, last) && Before(after, last);
      forall k | k in Unrepaired(c, g) ensures k in Unrepaired(c, w.index.genesis) {
        BeforeIsTransitive(after, last, k);
      }
      BeforeIsIrreflexive(last);
      var i :| 0 <= i < |c.seed| && c.seed[i].entityKey == last;
      assert last in Unrepaired(c, w.index.genesis) && last !in Unrepaired(c, g);
    }
  }

  lemma StepKeepsPassed(c: Setting, w: World, a: Action, after: ByteString)
    requires WellFormedSetting(c) && Invariant(c, w) && Allowed(c, w, a) && HasPassed(w.index.genesis, after)
    ensures HasPassed(Do(c, w, a).index.genesis, after)
  {
    hide Invariant, Allowed, Do, Refolded;
    if !a.CommitRepair? {
      PassedStaysPassed(c, w, a, after);
    } else if w.index.genesis.Repair? {
      RepairMovesOn(c, w, a.b);
      var g := Do(c, w, a).index.genesis;
      if g.Repair? && g.after != w.index.genesis.after { BeforeIsTransitive(after, w.index.genesis.after, g.after); }
    } else {
      RepairMovesOn(c, w, a.b);
    }
  }

  lemma RepairMovesOn(c: Setting, w: World, b: nat)
    requires WellFormedSetting(c) && Invariant(c, w) && Allowed(c, w, CommitRepair(b))
    ensures var g := Do(c, w, CommitRepair(b)).index.genesis;
            g == w.index.genesis || (w.index.genesis.Repair? && (g.Done? || (g.Repair? && Before(w.index.genesis.after, g.after))))
  {
    hide Invariant, Refolded, Unrepaired;
    if Repairing(c, w, b) { RepairProgresses(c, w, b); }
  }

  /** Once the repair has gone past a key it never comes back to it, in any run. */
  lemma {:induction false} PassedForGood(c: Setting, states: seq<World>, actions: seq<Action>, i: nat, j: nat, after: ByteString)
    requires WellFormedSetting(c) && IsRun(c, states, actions) && StartsClean(c, states[0]) && i <= j < |states|
    requires HasPassed(states[i].index.genesis, after)
    ensures HasPassed(states[j].index.genesis, after)
    decreases j
  {
    hide Invariant, Allowed, Do, StartsClean;
    if i < j {
      PassedForGood(c, states, actions, i, j - 1, after);
      RunsKeepInvariant(c, states, actions, j - 1);
      StepKeepsPassed(c, states[j - 1], actions[j - 1], after);
    }
  }

  /**
   The repair's compare-and-swap, over whole runs: once any backend's page has
   moved the repair past the key a page was read after, or the repair is over,
   committing that page changes nothing, however much later it comes.
   */
  lemma StalePageChangesNothing(c: Setting, states: seq<World>, actions: seq<Action>, i: nat, j: nat, b: nat)
    requires WellFormedSetting(c) && IsRun(c, states, actions) && StartsClean(c, states[0]) && i <= j < |actions|
    requires actions[j] == CommitRepair(b) && b in states[j].pages && HasPassed(states[i].index.genesis, states[j].pages[b].after)
    ensures states[j + 1].index == states[j].index && states[j + 1].overlooked == states[j].overlooked
  {
    hide Invariant, StartsClean, Refolded;
    var after := states[j].pages[b].after;
    PassedForGood(c, states, actions, i, j, after);
    BeforeIsIrreflexive(after);
    assert states[j + 1] == Do(c, states[j], actions[j]);
  }

  /** When the repair is done, every genesis entity stands in the index on its own genesis state. */
  lemma RepairedSeedStands(c: Setting, w: World, i: nat, block: nat)
    requires WellFormedSetting(c) && Invariant(c, w) && w.index.genesis.Done? && i < |c.seed|
    ensures FoldPoint(w.index).Some?
    ensures var k := c.seed[i].entityKey;
            Opened(BaseOf(VersionsOf(w.index.hist, k))) == Some(c.seed[i]) &&
            (block <= Covered(w.index) ==> StandsAt(w.db, w.index.hist, k, block, Some(c.seed[i])) || Behind(c, w, k, block))
  {
    hide Truth, Started, Relevant, Pending, NoneAhead, VersionsHaveRows, WellFormedHistories, LocalInvariant, CreatesNoSeed;
    SeedOfIsSeed(c, i);
    var k := c.seed[i].entityKey;
    assert Vouched(c, w.index.genesis, k);
    assert IsSeedKey(c, k);
    if block <= Covered(w.index) && k !in w.overlooked { assert StandsOrWaits(c, w.db, w.index, Mark(w), k, block); }
  }

  // ---------------------------------------------------------------------
  // The index answers for the past

  /** What a key looked like at a block: the last version of its fold up to there. */
  ghost function StateAt(k: ByteString, db: Database, block: int, base: Option<Version>): Option<Version> {
    var past := Truth(k, Relevant(db, k, block), base);
    if past.Fault? || past.value == [] then None else Some(Last(past.value))
  }

  /** The stored version that is valid at a block, open. */
  ghost predicate IsValidVersion(hist: Histories, k: ByteString, i: nat, block: nat, seen: Version) {
    i < |VersionsOf(hist, k)| && ValidAt(VersionsOf(hist, k)[i], block) && seen == VersionsOf(hist, k)[i].(toBlock := None)
  }

  /**
   A key with nothing behind at a block answers for it: its state there is the
   one stored version valid at the block, but for when later versions closed it,
   and there is none exactly when no version is valid. Nothing above the block
   plays a part, neither what was folded there nor what is still to be.
   */
  lemma IndexAnswersThePast(c: Setting, w: World, k: ByteString, block: nat)
    requires WellFormedSetting(c) && Invariant(c, w) && Ready(w) && block <= w.index.through.value
    requires !Behind(c, w, k, block)
    ensures forall i: nat, seen :: IsValidVersion(w.index.hist, k, i, block, seen) ==> StateAt(k, w.db, block, Ground(c, w, k)) == Some(seen)
    ensures var was := StateAt(k, w.db, block, Ground(c, w, k));
            was.Some? ==> IsValidVersion(w.index.hist, k, was.value.version, block, was.value)
  {
    hide Invariant, Behind, Stands;
    ReadyKeysStand(c, w, k, block);
    assert WellFormedHistories(w.index.hist) by { InvariantHasHistories(c, w); }
    StandingKeyAnswers(c, w, k, block);
  }

  lemma InvariantHasHistories(c: Setting, w: World)
    requires Invariant(c, w)
    ensures WellFormedHistories(w.index.hist) && WellFormedDatabase(w.db)
  {
  }

  /** The same of a key that stands at the block for whatever reason. */
  lemma StandingKeyAnswers(c: Setting, w: World, k: ByteString, block: nat)
    requires WellFormedHistories(w.index.hist) && Stands(c, w, k, block)
    ensures forall i: nat, seen :: IsValidVersion(w.index.hist, k, i, block, seen) ==> StateAt(k, w.db, block, Ground(c, w, k)) == Some(seen)
    ensures var was := StateAt(k, w.db, block, Ground(c, w, k));
            was.Some? ==> IsValidVersion(w.index.hist, k, was.value.version, block, was.value)
  {
    hide Truth, Relevant, Started;
    var vs := VersionsOf(w.index.hist, k);
    if vs != [] {
      assert WellFormedVersions(k, vs);
      var n := StartedOfHistory(k, vs, block);
    } else {
      assert Started([], block) == [] by { NothingStarted(block); }
    }
  }

  lemma NothingStarted(block: nat)
    ensures Started([], block) == []
  {
  }
}
