/**
 Every run of the projector keeps its invariant, and what that means for
 whoever reads the index.
 */
module ProjectorRuns {
  import opened Wrappers
  import opened ByteStrings
  import opened EntityIndex
  import opened FoldProperties
  import opened IndexStorage
  import opened IndexTables
  import opened StoredPast
  import opened Projector

  // ---------------------------------------------------------------------
  // What folds to nothing, and what a write leaves alone

  ghost predicate NeverCreates(txs: Database, k: ByteString) {
    forall at, i :: at in txs && 0 <= i < |txs[at].rows| && txs[at].rows[i].entityKey == Some(k) ==>
      txs[at].rows[i].operationType != CREATE
  }

  /** Operations on a key nothing creates fold to nothing. */
  lemma TruthWithoutCreates(k: ByteString, txs: Database)
    requires WellFormedDatabase(txs) && NeverCreates(txs, k)
    ensures Truth(k, txs, None).Fault? || Truth(k, txs, None) == Ok([])
  {
    if OpsAmong(k, txs).Ok? {
      var ops := Enumerate(OpsAmong(k, txs).value);
      forall o | o in ops ensures o.operationType != CREATE {
        var at :| at in txs && o in LoadedTx(at, txs[at]).value && o.entityKey == k;
        LoadedShape(at, txs[at]);
        assert FromRow(o, at, txs[at]);
      }
      OpsAmongAreWellFormed(k, txs);
      SortedOpsIsSorted(ops);
      NoCreateFoldsToNothing(k, SortedOps(ops));
    }
  }

  lemma TruthOfNothing(k: ByteString, base: Option<Version>)
    requires base.Some? ==> Canonical(base.value)
    ensures Truth(k, map[], base) == Ok(if base.None? then [] else [base.value])
  {
    var txs: Database := map[];
    assert OpsAmong(k, txs).value == {};
    assert SortedOps(Enumerate({})) == [];
    if base.Some? { StartOfCanonical(base.value); }
  }

  lemma SeedOfIsSeed(c: Setting, i: nat)
    requires WellFormedSetting(c) && i < |c.seed|
    ensures SeedOf(c, c.seed[i].entityKey) == Some(c.seed[i])
  {
    assert IsSeedKey(c, c.seed[i].entityKey);
    var j :| 0 <= j < |c.seed| && c.seed[j].entityKey == c.seed[i].entityKey && SeedOf(c, c.seed[i].entityKey) == Some(c.seed[j]);
    assert i == j;
  }

  lemma SeedIsCanonical(c: Setting, k: ByteString)
    requires WellFormedSetting(c) && SeedOf(c, k).Some?
    ensures Canonical(SeedOf(c, k).value) && SeedOf(c, k).value.entityKey == k && IsSeedKey(c, k) && k != []
  {
  }

  /** A write that does not touch a key up to a block leaves its transactions as they are. */
  lemma UntouchedByWrite(c: Setting, w: World, writes: Database, k: ByteString, block: int)
    requires Writable(c, w, writes)
    requires forall at :: at in writes && at.block <= block ==> !Touches(writes[at], k)
    ensures Relevant(w.db + writes, k, block) == Relevant(w.db, k, block)
  {
  }

  lemma PendingGrows(c: Setting, db: Database, block: int, later: int, mark: int, k: ByteString)
    requires Pending(c, db, block, mark, k) && block <= later
    ensures Pending(c, db, later, mark, k)
  {
    var at :| at in db && at.block <= block && Touches(db[at], k) && db[at].scannedAt > mark - c.overlap;
    assert at.block <= later;
  }

  /** At each block a write leaves a key as it stood, or awaiting the late scan: only where it touches the key at or below the block. */
  lemma WriteKeepsStanding(c: Setting, w: World, writes: Database, index: Index, mark: int, k: ByteString, block: nat)
    requires Writable(c, w, writes) && mark <= w.clock && StandsOrWaits(c, w.db, index, mark, k, block)
    ensures StandsOrWaits(c, w.db + writes, index, mark, k, block)
  {
    hide Truth, Relevant, Started;
    var db := w.db + writes;
    if at :| at in writes && at.block <= block && Touches(writes[at], k) {
      assert db[at] == writes[at];
      assert Pending(c, db, block, mark, k);
    } else {
      UntouchedByWrite(c, w, writes, k, block);
      if Pending(c, w.db, block, mark, k) {
        var at :| at in w.db && at.block <= block && Touches(w.db[at], k) && w.db[at].scannedAt > mark - c.overlap;
        assert at !in writes;
        assert db[at] == w.db[at];
      }
    }
  }

  lemma WriteKeepsAgreement(c: Setting, w: World, writes: Database, index: Index, mark: int, overlooked: set<ByteString>)
    requires Writable(c, w, writes) && FoldPoint(index).Some? && mark <= w.clock
    requires Agreement(c, w.db, index, mark, overlooked)
    ensures Agreement(c, w.db + writes, index, mark, overlooked)
  {
    hide StandsOrWaits, Writable, Vouched;
    forall k, block: nat | Vouched(c, index.genesis, k) && block <= Covered(index) && k !in overlooked
      ensures StandsOrWaits(c, w.db + writes, index, mark, k, block)
    {
      WriteKeepsStanding(c, w, writes, index, mark, k, block);
    }
  }

  lemma WriteKeepsDatabase(c: Setting, w: World, writes: Database)
    requires Writable(c, w, writes) && WellFormedDatabase(w.db) && CreatesNoSeed(c, w.db)
    ensures WellFormedDatabase(w.db + writes) && CreatesNoSeed(c, w.db + writes)
  {
    var db := w.db + writes;
    forall at | at in db
      ensures at.block >= 1 && forall i, j :: 0 <= i < j < |db[at].rows| ==> db[at].rows[i].opIndex < db[at].rows[j].opIndex
    {
      assert db[at] == if at in writes then writes[at] else w.db[at];
    }
    forall at, i | at in db && 0 <= i < |db[at].rows| ensures RowCreatesNoSeed(c, db[at].rows[i]) {
      assert db[at] == if at in writes then writes[at] else w.db[at];
    }
  }

  lemma WriteKeepsRows(c: Setting, w: World, writes: Database, hist: Histories)
    requires Writable(c, w, writes) && VersionsHaveRows(w.db, hist)
    ensures VersionsHaveRows(w.db + writes, hist)
  {
    var db := w.db + writes;
    forall k ensures StandOnRows(db, k, VersionsOf(hist, k)) {
      var vs := VersionsOf(hist, k);
      assert StandOnRows(w.db, k, vs);
      forall i | 0 <= i < |vs| && vs[i].fromBlock >= 1 ensures HasRowAt(db, k, vs[i].fromBlock) {
        var at :| at in w.db && at.block == vs[i].fromBlock && Touches(w.db[at], k);
        assert at in db && Touches(db[at], k);
      }
    }
  }

  lemma WriteKeepsPlan(c: Setting, w: World, writes: Database, keys: set<ByteString>, after: int, end: int, watermark: int)
    requires Writable(c, w, writes) && watermark <= w.clock
    requires UnlistedAreLate(c, w.db, keys, after, end, watermark)
    ensures UnlistedAreLate(c, w.db + writes, keys, after, end, watermark)
  {
  }

  lemma WriteKeepsScan(c: Setting, w: World, writes: Database, keys: set<ByteString>, through: int, watermark: int, now: int)
    requires Writable(c, w, writes) && now <= w.clock
    requires UnscannedAreOldOrNew(c, w.db, keys, through, watermark, now)
    ensures UnscannedAreOldOrNew(c, w.db + writes, keys, through, watermark, now)
  {
  }

  lemma WriteKeepsPage(c: Setting, w: World, writes: Database, after: ByteString, page: seq<ByteString>, limit: nat,
                       through: int, watermark: int)
    requires Writable(c, w, writes) && watermark <= w.clock
    requires SkippedAreLate(c, w.db, after, page, limit, through, watermark)
    ensures SkippedAreLate(c, w.db + writes, after, page, limit, through, watermark)
  {
  }

  lemma WriteKeepsLocal(c: Setting, w: World, writes: Database)
    requires Invariant(c, w) && Writable(c, w, writes)
    ensures LocalInvariant(c, w.(db := w.db + writes))
  {
    hide UnlistedAreLate, UnscannedAreOldOrNew, SkippedAreLate, Agreement, Writable, UnlistedDoNotStart;
    match w.local
    case Detected(floor) => WriteKeepsAgreement(c, w, writes, w.index.(floor := Some(floor)), w.detectedAt, {});
    case Starting(floor, now) => WriteKeepsAgreement(c, w, writes, w.index.(floor := Some(floor)), w.detectedAt, {});
    case LateRefolded(now) => WriteKeepsAgreement(c, w, writes, w.index, now, w.overlooked);
    case ChunkPlanned(keys, end) =>
      WriteKeepsPlan(c, w, writes, keys, FoldPoint(w.index).value, end, w.index.watermark.value);
    case LateRead(now, keys) =>
      WriteKeepsScan(c, w, writes, keys, FoldPoint(w.index).value, w.index.watermark.value, now);
    case _ =>
  }

  // ---------------------------------------------------------------------
  // Repair pages in flight

  /** A page is read only while a repair runs over a stored floor of 0. */
  lemma PageMeansRepair(c: Setting, w: World, b: nat)
    requires PagesInvariant(c, w) && b in w.pages
    ensures w.index.floor == Some(0) && (w.index.genesis.Repair? || w.index.genesis.Done? || w.index.genesis.Failed?)
  {
    assert PageHolds(c, w, w.pages[b], Mark(w));
  }

  /** A key once passed stays passed whatever the import does next. */
  lemma PassedStaysPassed(c: Setting, w: World, a: Action, after: ByteString)
    requires WellFormedSetting(c) && Allowed(c, w, a) && !a.CommitRepair? && HasPassed(w.index.genesis, after)
    ensures HasPassed(Do(c, w, a).index.genesis, after)
  {
    hide PassedOver, Inserted, Refolded;
  }

  /** No transaction lies at or below block 0, so nothing there is skipped. */
  lemma NothingSkippedEarly(c: Setting, db: Database, after: ByteString, page: seq<ByteString>, limit: nat, through: int, mark: int)
    requires WellFormedDatabase(db) && through <= 0
    ensures SkippedAreLate(c, db, after, page, limit, through, mark)
  {
  }

  /** With no late key listed, what waits for the stored watermark waits for the scan's own start. */
  lemma NothingListedPage(c: Setting, w: World, p: PageRead)
    requires w.local.LateRead? && w.local.lateKeys == {} && LocalInvariant(c, w) && WellFormedDatabase(w.db)
    requires PageStands(c, w, p, Mark(w))
    ensures PageStands(c, w, p, w.local.now)
  {
    forall at, k | at in w.db && at.block <= p.through && Touches(w.db[at], k) && IsSeedKey(c, k) && Before(p.after, k) && k !in p.page &&
                   (|p.page| < p.limit || p.page == [] || AtMost(k, Last(p.page)))
      ensures w.db[at].scannedAt > w.local.now - c.overlap
    {
      assert w.db[at].scannedAt > Mark(w) - c.overlap;
      assert at.block >= 1 && at.block <= FoldPoint(w.index).value;
      assert k !in w.local.lateKeys;
    }
  }

  /** A page that stands does so after any step but the repair's own, relative to whichever watermark then counts. */
  lemma StandingPageStays(c: Setting, w: World, a: Action, p: PageRead, mark: int)
    requires WellFormedSetting(c) && Invariant(c, w) && Allowed(c, w, a) && !a.ReadRepair? && !a.CommitRepair?
    requires w.index.floor == Some(0) && w.index.genesis == Repair(p.after) && PageStands(c, w, p, Mark(w)) && p.limit > 0
    requires w.local.LateRefolded? ==> PageStands(c, w, p, w.local.now)
    requires mark == Mark(Do(c, w, a)) || (Do(c, w, a).local.LateRefolded? && mark == Do(c, w, a).local.now)
    ensures PageHolds(c, Do(c, w, a), p, mark)
  {
    hide Agreement, SeedRows, WellFormedHistories, CreatesNoSeed, WalkedRows, VersionsHaveRows, NoneAhead, Unfolded, PassedOver, Inserted,
      Refolded, SkippedAreLate, UnlistedAreLate, UnlistedDoNotStart, UnscannedAreOldOrNew, WellFormedDatabase, PagesStand, Writable,
      KeysTouchedBetween, KeysScannedSince, IsFloor;
    match a
    case Write(writes) =>
      WriteKeepsPage(c, w, writes, p.after, p.page, p.limit, p.through, Mark(w));
      if w.local.LateRefolded? { WriteKeepsPage(c, w, writes, p.after, p.page, p.limit, p.through, w.local.now); }
    case PutWatermark => NothingSkippedEarly(c, w.db, p.after, p.page, p.limit, p.through, mark);
    case FirstWatermark => NothingSkippedEarly(c, w.db, p.after, p.page, p.limit, p.through, mark);
    case RefoldLate => if w.local.lateKeys == {} { NothingListedPage(c, w, p); }
    case _ =>
  }

  /** Every step but the repair's own leaves the pages in flight as they stand. */
  lemma OthersKeepPages(c: Setting, w: World, a: Action)
    requires WellFormedSetting(c) && Invariant(c, w) && Allowed(c, w, a) && !a.ReadRepair? && !a.CommitRepair?
    ensures PagesInvariant(c, Do(c, w, a))
  {
    hide Agreement, SeedRows, WellFormedHistories, CreatesNoSeed, WalkedRows, VersionsHaveRows, NoneAhead, Unfolded, PassedOver, Inserted,
      Refolded, SkippedAreLate, UnlistedAreLate, UnlistedDoNotStart, UnscannedAreOldOrNew, WellFormedDatabase, Writable, KeysTouchedBetween,
      KeysScannedSince, IsFloor, PageStands, LocalInvariant;
    var w' := Do(c, w, a);
    assert w'.pages == w.pages;
    forall b, mark: int | b in w'.pages && (mark == Mark(w') || (w'.local.LateRefolded? && mark == w'.local.now))
      ensures PageHolds(c, w', w'.pages[b], mark)
    {
      var p := w.pages[b];
      assert PageHolds(c, w, p, Mark(w));
      PageMeansRepair(c, w, b);
      if HasPassed(w.index.genesis, p.after) {
        PassedStaysPassed(c, w, a, p.after);
        FloorStaysZero(c, w, a);
      } else {
        if w.local.LateRefolded? { assert PageHolds(c, w, p, w.local.now); }
        StandingPageStays(c, w, a, p, mark);
      }
    }
  }

  /** A floor of 0 is not replaced: no other start is under way. */
  lemma FloorStaysZero(c: Setting, w: World, a: Action)
    requires WellFormedSetting(c) && Invariant(c, w) && Allowed(c, w, a) && w.index.floor == Some(0)
    ensures Do(c, w, a).index.floor == Some(0)
  {
    hide Agreement, SeedRows, WellFormedHistories, CreatesNoSeed, WalkedRows, VersionsHaveRows, NoneAhead, Unfolded, PassedOver, Inserted,
      Refolded, UnlistedAreLate, UnlistedDoNotStart, UnscannedAreOldOrNew, WellFormedDatabase, PagesInvariant;
  }

  lemma WriteKeepsInvariant(c: Setting, w: World, writes: Database)
    requires WellFormedSetting(c) && Invariant(c, w) && Allowed(c, w, Write(writes))
    ensures Invariant(c, Do(c, w, Write(writes)))
  {
    hide PagesInvariant, Agreement, LocalInvariant, VersionsHaveRows, NoneAhead;
    OthersKeepPages(c, w, Write(writes));
    WriteKeepsDatabase(c, w, writes);
    WriteKeepsRows(c, w, writes, w.index.hist);
    WriteKeepsLocal(c, w, writes);
    if FoldPoint(w.index).Some? {
      WriteKeepsAgreement(c, w, writes, w.index, Mark(w), w.overlooked);
    }
  }

  // ---------------------------------------------------------------------
  // Starting

  lemma SeedOfSome(c: Setting, k: ByteString)
    ensures SeedOf(c, k).Some? <==> IsSeedKey(c, k)
  {
  }

  /** Where nothing creates a key, having no versions of it is standing for its fold. */
  lemma NothingStands(db: Database, hist: Histories, k: ByteString, block: nat)
    requires WellFormedDatabase(db) && VersionsOf(hist, k) == [] && NeverCreates(Relevant(db, k, block), k)
    ensures StandsAt(db, hist, k, block, None)
  {
    RelevantIsWellFormed(db, k, block);
    TruthWithoutCreates(k, Relevant(db, k, block));
  }

  lemma UnfoldedKeys(c: Setting, index: Index, k: ByteString)
    requires WellFormedSetting(c) && SeedRows(c, index) && Unfolded(c, index.hist)
    ensures OnOneSide(VersionsOf(index.hist, k), 0) && forall block: nat :: OnOneSide(VersionsOf(index.hist, k), block)
    ensures Vouched(c, index.genesis, k) && !index.genesis.Done? && (index.genesis.Repair? ==> index.genesis.after == []) ==>
              VersionsOf(index.hist, k) == [] && BaseFor(c, index.genesis, k).None?
  {
    SeedOfSome(c, k);
    if IsSeedKey(c, k) { SeedIsCanonical(c, k); }
  }

  lemma DetectKeepsInvariant(c: Setting, w: World, floor: nat)
    requires WellFormedSetting(c) && Invariant(c, w) && Allowed(c, w, Detect(floor))
    ensures Invariant(c, Do(c, w, Detect(floor)))
  {
    hide PagesInvariant;
    OthersKeepPages(c, w, Detect(floor));
    var index := w.index.(floor := Some(floor));
    forall k, block: nat | Vouched(c, index.genesis, k) && block <= Covered(index)
      ensures StandsOrWaits(c, w.db, index, w.clock, k, block)
    {
      UnfoldedKeys(c, w.index, k);
      NothingBelowOne(w.db, k);
      assert NeverCreates(Relevant(w.db, k, block), k);
      NothingStands(w.db, w.index.hist, k, block);
    }
  }

  lemma PutFloorKeepsInvariant(c: Setting, w: World)
    requires WellFormedSetting(c) && Invariant(c, w) && Allowed(c, w, PutFloor)
    ensures Invariant(c, Do(c, w, PutFloor))
  {
    hide PagesInvariant, StandsOrWaits, OnOneSide, VersionsHaveRows, WellFormedHistories, CreatesNoSeed;
    OthersKeepPages(c, w, PutFloor);
    forall k, block: nat ensures OnOneSide(VersionsOf(w.index.hist, k), block) {
      UnfoldedKeys(c, w.index, k);
    }
  }

  /** The agreement speaks of the histories, the import and what is covered, not of how far the progress rows have come. */
  lemma SameAgreement(c: Setting, db: Database, index: Index, other: Index, mark: int, overlooked: set<ByteString>)
    requires FoldPoint(index).Some? && FoldPoint(other).Some? && Covered(other) <= Covered(index)
    requires other.hist == index.hist && other.genesis == index.genesis
    requires Agreement(c, db, index, mark, overlooked)
    ensures Agreement(c, db, other, mark, overlooked)
  {
    hide StandsAt, Pending, Vouched;
    forall k, block: nat | Vouched(c, other.genesis, k) && block <= Covered(other) && k !in overlooked
      ensures StandsOrWaits(c, db, other, mark, k, block)
    {
      assert StandsOrWaits(c, db, index, mark, k, block);
    }
  }

  lemma SameSeedRows(c: Setting, index: Index, other: Index)
    requires SeedRows(c, index) && WalkedRows(c, index) && other.hist == index.hist && other.genesis == index.genesis
    ensures SeedRows(c, other) && WalkedRows(c, other)
  {
  }

  lemma PutFoldPointKeepsInvariant(c: Setting, w: World)
    requires WellFormedSetting(c) && Invariant(c, w) && Allowed(c, w, PutFoldPoint)
    ensures Invariant(c, Do(c, w, PutFoldPoint))
  {
    hide PagesInvariant, Agreement, OnOneSide, VersionsHaveRows, WellFormedHistories, CreatesNoSeed, Unfolded, SeedRows, WalkedRows;
    OthersKeepPages(c, w, PutFoldPoint);
    SameSeedRows(c, w.index, w.index.(through := Some(w.local.floor - 1)));
    SameAgreement(c, w.db, w.index, w.index.(through := Some(w.local.floor - 1)), Mark(w), w.overlooked);
  }

  /** A key that would not stand and not wait with this watermark has a row, so it is on record as passed over. */
  lemma PassedOverIsRecorded(c: Setting, db: Database, index: Index, mark: int, watermark: int, k: ByteString, block: nat)
    requires FoldPoint(index).Some? && Vouched(c, index.genesis, k) && block <= Covered(index)
    requires StandsOrWaits(c, db, index, mark, k, block) && !StandsOrWaits(c, db, index, watermark, k, block)
    ensures k in PassedOver(c, db, index, watermark)
  {
    hide StandsAt, Vouched;
    assert IsPassedOver(c, db, index, watermark, k);
    var at :| at in db && at.block <= block && Touches(db[at], k) && db[at].scannedAt > mark - c.overlap;
    var i :| 0 <= i < |db[at].rows| && db[at].rows[i].entityKey == Some(k);
  }

  /** The first watermark keeps every key in agreement that it does not pass over. */
  lemma MarkedAgrees(c: Setting, db: Database, index: Index, mark: int, watermark: int)
    requires FoldPoint(index).Some? && Agreement(c, db, index, mark, {})
    ensures Agreement(c, db, index.(watermark := Some(watermark)), watermark, PassedOver(c, db, index, watermark))
  {
    hide StandsOrWaits, PassedOver, Vouched;
    var overlooked := PassedOver(c, db, index, watermark);
    forall k, block: nat | Vouched(c, index.genesis, k) && block <= Covered(index) && k !in overlooked
      ensures StandsOrWaits(c, db, index, watermark, k, block)
    {
      if !StandsOrWaits(c, db, index, watermark, k, block) {
        PassedOverIsRecorded(c, db, index, mark, watermark, k, block);
      }
    }
    SameAgreement(c, db, index, index.(watermark := Some(watermark)), watermark, overlooked);
  }

  lemma MarkedKeepsInvariant(c: Setting, w: World, a: Action)
    requires WellFormedSetting(c) && Invariant(c, w) && Allowed(c, w, a) && (a.PutWatermark? || a.FirstWatermark?)
    ensures Invariant(c, Do(c, w, a))
  {
    hide PagesInvariant, Agreement, OnOneSide, VersionsHaveRows, WellFormedHistories, CreatesNoSeed, Unfolded, PassedOver, SeedRows, WalkedRows;
    OthersKeepPages(c, w, a);
    SameSeedRows(c, w.index, w.index.(watermark := Some(w.local.now)));
    MarkedAgrees(c, w.db, w.index, Mark(w), w.local.now);
    assert {} + PassedOver(c, w.db, w.index, w.local.now) == PassedOver(c, w.db, w.index, w.local.now);
  }

  lemma SeedKeysAreNonempty(c: Setting, k: ByteString)
    requires WellFormedSetting(c)
    ensures IsSeedKey(c, k) ==> k != [] && !AtMost(k, [])
  {
  }

  /** Before any genesis key is refolded, a fold that starts over at block 0 has all of an entity's own versions ahead of it. */
  lemma OwnVersionsStartLater(c: Setting, index: Index, k: ByteString)
    requires WellFormedSetting(c) && WellFormedHistories(index.hist) && SeedRows(c, index)
    requires index.genesis.Repair? && index.genesis.after == []
    ensures OnOneSide(VersionsOf(index.hist, k), 0)
    ensures Vouched(c, index.genesis, k) ==> !IsSeedKey(c, k) && BaseFor(c, index.genesis, k).None?
  {
    SeedKeysAreNonempty(c, k);
    SeedOfSome(c, k);
    var vs := VersionsOf(index.hist, k);
    if !IsSeedKey(c, k) && vs != [] {
      assert WellFormedVersions(k, vs);
      forall i | 0 <= i < |vs| ensures vs[i].fromBlock > 0 {
        assert i == 0 || Earlier(FromLocation(vs[0]), FromLocation(vs[i]));
      }
    }
  }

  /** The index as the repair's opening transaction leaves it, but for the watermark. */
  ghost function OpenedForRepair(index: Index): Index {
    index.(floor := Some(0), through := if index.through.None? then Some(0) else index.through)
  }

  lemma OpenedAgrees(c: Setting, w: World)
    requires WellFormedSetting(c) && Invariant(c, w) && w.index.genesis.Repair? && w.index.floor != Some(0)
    ensures var index := OpenedForRepair(w.index);
            NoneAhead(index) && Agreement(c, w.db, index, Mark(w), w.overlooked)
  {
    hide LocalInvariant, VersionsHaveRows, WalkedRows, CreatesNoSeed, StandsOrWaits;
    var index := OpenedForRepair(w.index);
    forall k ensures OnOneSide(VersionsOf(index.hist, k), 0) {
      OwnVersionsStartLater(c, w.index, k);
    }
    if FoldPoint(w.index).Some? {
      SameAgreement(c, w.db, w.index, index, Mark(w), w.overlooked);
    } else {
      forall k | Vouched(c, index.genesis, k) ensures StandsOrWaits(c, w.db, index, Mark(w), k, 0) {
        OwnVersionsStartLater(c, w.index, k);
        UnfoldedKeys(c, w.index, k);
        NothingBelowOne(w.db, k);
        NothingStands(w.db, w.index.hist, k, 0);
        assert StandsAt(w.db, index.hist, k, 0, None);
        StandingSuffices(c, w.db, index, Mark(w), k, 0);
      }
    }
  }

  lemma StandingSuffices(c: Setting, db: Database, index: Index, mark: int, k: ByteString, block: nat)
    requires StandsAt(db, index.hist, k, block, BaseFor(c, index.genesis, k))
    ensures StandsOrWaits(c, db, index, mark, k, block)
  {
  }

  lemma OpenRepairKeepsInvariant(c: Setting, w: World)
    requires WellFormedSetting(c) && Invariant(c, w) && Allowed(c, w, OpenRepair)
    ensures Invariant(c, Do(c, w, OpenRepair))
  {
    hide PagesInvariant, Agreement, OnOneSide, VersionsHaveRows, WellFormedHistories, CreatesNoSeed, Unfolded, PassedOver, SeedRows, WalkedRows, StandsOrWaits;
    OthersKeepPages(c, w, OpenRepair);
    if w.index.floor != Some(0) {
      OpenedAgrees(c, w);
      SameSeedRows(c, w.index, Do(c, w, OpenRepair).index);
      var index := OpenedForRepair(w.index);
      if w.index.watermark.None? {
        MarkedAgrees(c, w.db, index, Mark(w), w.clock);
        assert {} + PassedOver(c, w.db, index, w.clock) == PassedOver(c, w.db, index, w.clock);
      }
    }
  }

  // ---------------------------------------------------------------------
  // Refolding

  lemma StoredBaseIsWellFormed(hist: Histories, k: ByteString)
    requires WellFormedHistories(hist)
    ensures WellFormedBase(k, Opened(BaseOf(VersionsOf(hist, k))))
  {
    if BaseOf(VersionsOf(hist, k)).Some? { assert WellFormedVersions(k, hist[k]); }
  }

  /** What a refold leaves of one of its keys. */
  lemma RefoldedKey(db: Database, hist: Histories, keys: set<ByteString>, through: int, k: ByteString)
    requires WellFormedDatabase(db) && WellFormedHistories(hist) && k in keys
    requires Refolded(db, hist, keys, through).Ok?
    ensures var vs, base := VersionsOf(Refolded(db, hist, keys, through).value, k), Opened(BaseOf(VersionsOf(hist, k)));
            Truth(k, Relevant(db, k, through), base) == Ok(vs) && Opened(BaseOf(vs)) == base && WellFormedBase(k, base)
  {
    RefoldedVersions(db, hist, keys, through, k);
    RenewedIsWellFormed(db, hist, k, through);
    StoredBaseIsWellFormed(hist, k);
  }

  /** After a refold, a key in it stands for its fold at every block up to there, on the genesis state it had. */
  lemma RefoldedStands(db: Database, hist: Histories, keys: set<ByteString>, through: int, k: ByteString, block: nat)
    requires WellFormedDatabase(db) && WellFormedHistories(hist) && k in keys && block <= (if through < 0 then 0 else through)
    requires Refolded(db, hist, keys, through).Ok?
    ensures StandsAt(db, Refolded(db, hist, keys, through).value, k, block, Opened(BaseOf(VersionsOf(hist, k))))
  {
    hide Refolded, Truth, WellFormedHistories, Relevant, Started;
    RefoldedKey(db, hist, keys, through, k);
    CutBelowOne(db, k, through);
    TruthInThePast(db, k, if through < 0 then 0 else through, block, Opened(BaseOf(VersionsOf(hist, k))));
  }

  ghost predicate StartedBy(vs: seq<Version>, block: nat) {
    forall i :: 0 <= i < |vs| ==> vs[i].fromBlock <= block
  }

  /** Its versions stand on rows and have all started by there. */
  lemma RefoldedHasRows(db: Database, hist: Histories, keys: set<ByteString>, through: int, k: ByteString)
    requires WellFormedDatabase(db) && WellFormedHistories(hist) && k in keys
    requires Refolded(db, hist, keys, through).Ok?
    ensures var vs := VersionsOf(Refolded(db, hist, keys, through).value, k);
            StandOnRows(db, k, vs) && StartedBy(vs, if through < 0 then 0 else through)
  {
    hide Refolded, Truth, WellFormedHistories, Relevant;
    RefoldedKey(db, hist, keys, through, k);
    TruthStandsOnRows(db, k, through, Opened(BaseOf(VersionsOf(hist, k))));
  }

  lemma RefoldKeepsRows(db: Database, hist: Histories, keys: set<ByteString>, through: int)
    requires WellFormedDatabase(db) && WellFormedHistories(hist) && VersionsHaveRows(db, hist)
    requires Refolded(db, hist, keys, through).Ok?
    ensures VersionsHaveRows(db, Refolded(db, hist, keys, through).value)
  {
    hide Refolded, WellFormedHistories, StandOnRows;
    var after := Refolded(db, hist, keys, through).value;
    forall k ensures StandOnRows(db, k, VersionsOf(after, k)) {
      if k in keys { RefoldedHasRows(db, hist, keys, through, k); } else { RefoldedVersions(db, hist, keys, through, k); }
    }
  }

  /** A genesis key with no genesis state yet still folds to nothing. */
  lemma SeedWithoutBaseStaysEmpty(c: Setting, db: Database, hist: Histories, keys: set<ByteString>, through: int, k: ByteString)
    requires WellFormedDatabase(db) && CreatesNoSeed(c, db) && IsSeedKey(c, k)
    requires VersionsOf(hist, k) == [] && Refolded(db, hist, keys, through).Ok?
    ensures VersionsOf(Refolded(db, hist, keys, through).value, k) == []
  {
    RefoldedVersions(db, hist, keys, through, k);
    if k in keys {
      var txs := Relevant(db, k, through);
      RelevantIsWellFormed(db, k, through);
      forall at, i | at in txs && 0 <= i < |txs[at].rows| && txs[at].rows[i].entityKey == Some(k)
        ensures txs[at].rows[i].operationType != CREATE
      {
        assert RowCreatesNoSeed(c, db[at].rows[i]);
      }
      TruthWithoutCreates(k, txs);
    }
  }

  lemma BaseWhileFolding(c: Setting, index: Index, k: ByteString)
    requires WellFormedSetting(c) && SeedRows(c, index) && FoldingAllowed(index.genesis)
    ensures Opened(BaseOf(VersionsOf(index.hist, k))) == BaseFor(c, index.genesis, k)
  {
    if IsSeedKey(c, k) { SeedOfSome(c, k); }
  }

  lemma RefoldKeepsSeedRows(c: Setting, w: World, keys: set<ByteString>, through: int)
    requires WellFormedSetting(c) && Invariant(c, w) && FoldingAllowed(w.index.genesis)
    requires Refolded(w.db, w.index.hist, keys, through).Ok?
    ensures var after := Refolded(w.db, w.index.hist, keys, through).value;
            WellFormedHistories(after) && SeedRows(c, w.index.(hist := after)) && VersionsHaveRows(w.db, after)
  {
    hide Agreement, LocalInvariant, StandOnRows, Truth, NoneAhead, WellFormedVersions;
    var after := Refolded(w.db, w.index.hist, keys, through).value;
    RefoldKeepsWellFormed(w.db, w.index.hist, keys, through);
    RefoldKeepsRows(w.db, w.index.hist, keys, through);
    forall k ensures Opened(BaseOf(VersionsOf(after, k))) == Opened(BaseOf(VersionsOf(w.index.hist, k))) {
      RefoldedVersions(w.db, w.index.hist, keys, through, k);
      if k in keys { RefoldedKey(w.db, w.index.hist, keys, through, k); }
    }
    if !w.index.genesis.Done? {
      forall k | IsSeedKey(c, k) ensures VersionsOf(after, k) == [] {
        SeedWithoutBaseStaysEmpty(c, w.db, w.index.hist, keys, through, k);
      }
    }
  }

  /** A chunk fold that commits. */
  ghost predicate Folding(c: Setting, w: World) {
    WellFormedSetting(c) && Invariant(c, w) && w.local.ChunkPlanned? && FoldingAllowed(w.index.genesis) &&
    Refolded(w.db, w.index.hist, w.local.keys, w.local.end).Ok?
  }

  ghost function FoldedIndex(w: World): Index
    requires w.local.ChunkPlanned? && Refolded(w.db, w.index.hist, w.local.keys, w.local.end).Ok?
  {
    w.index.(hist := Refolded(w.db, w.index.hist, w.local.keys, w.local.end).value, through := Some(w.local.end))
  }

  lemma PlannedKeyStands(c: Setting, w: World, k: ByteString, block: nat)
    requires Folding(c, w) && k in w.local.keys && block <= Covered(FoldedIndex(w))
    ensures StandsOrWaits(c, w.db, FoldedIndex(w), Mark(w), k, block)
  {
    hide StandsAt, Refolded, Agreement, VersionsHaveRows, SeedRows, WellFormedHistories, CreatesNoSeed, UnlistedAreLate, UnlistedDoNotStart, WalkedRows;
    BaseWhileFolding(c, w.index, k);
    RefoldedStands(w.db, w.index.hist, w.local.keys, w.local.end, k, block);
  }

  /** Past what was covered, an unplanned key is as it was there, or has a row recent enough to wait. */
  lemma UnplannedKeyStands(c: Setting, w: World, k: ByteString, block: nat)
    requires Folding(c, w) && k !in w.local.keys && Vouched(c, w.index.genesis, k) && k !in w.overlooked
    requires block <= Covered(FoldedIndex(w))
    ensures StandsOrWaits(c, w.db, FoldedIndex(w), Mark(w), k, block)
  {
    hide Truth, Refolded, Started, VersionsHaveRows, SeedRows, WellFormedHistories, CreatesNoSeed, WalkedRows, Relevant, Vouched, NoneAhead, WellFormedDatabase;
    var keys, covered := w.local.keys, Covered(w.index);
    RefoldedVersions(w.db, w.index.hist, keys, w.local.end, k);
    if block <= covered {
      assert StandsOrWaits(c, w.db, w.index, Mark(w), k, block);
    } else if at :| at in w.db && covered < at.block <= block && Touches(w.db[at], k) {
      assert Pending(c, w.db, block, Mark(w), k);
    } else {
      NothingInBetween(w.db, k, covered, block);
      NothingStartsInBetween(VersionsOf(w.index.hist, k), covered, block);
      assert StandsOrWaits(c, w.db, w.index, Mark(w), k, covered);
      if Pending(c, w.db, covered, Mark(w), k) { PendingGrows(c, w.db, covered, block, Mark(w), k); }
    }
  }

  lemma FoldedIsOnOneSide(c: Setting, w: World, k: ByteString)
    requires Folding(c, w)
    ensures OnOneSide(VersionsOf(FoldedIndex(w).hist, k), Covered(FoldedIndex(w)))
  {
    hide Truth, Refolded, Agreement, VersionsHaveRows, SeedRows, WellFormedHistories, CreatesNoSeed, WalkedRows, WellFormedDatabase, UnlistedAreLate;
    if k in w.local.keys {
      RefoldedHasRows(w.db, w.index.hist, w.local.keys, w.local.end, k);
    } else {
      RefoldedVersions(w.db, w.index.hist, w.local.keys, w.local.end, k);
      assert OnOneSide(VersionsOf(w.index.hist, k), Covered(w.index));
    }
  }

  lemma FoldChunkKeepsInvariant(c: Setting, w: World)
    requires WellFormedSetting(c) && Invariant(c, w) && Allowed(c, w, FoldChunk)
    ensures Invariant(c, Do(c, w, FoldChunk))
  {
    hide PagesInvariant, StandsOrWaits, OnOneSide, UnlistedAreLate, UnlistedDoNotStart, VersionsHaveRows, WellFormedHistories, SeedRows, CreatesNoSeed, Refolded, Vouched;
    OthersKeepPages(c, w, FoldChunk);
    if FoldingAllowed(w.index.genesis) && Refolded(w.db, w.index.hist, w.local.keys, w.local.end).Ok? {
      RefoldKeepsSeedRows(c, w, w.local.keys, w.local.end);
      SameSeedRows(c, w.index.(hist := FoldedIndex(w).hist), FoldedIndex(w));
      forall k ensures OnOneSide(VersionsOf(FoldedIndex(w).hist, k), Covered(FoldedIndex(w))) {
        FoldedIsOnOneSide(c, w, k);
      }
      forall k, block: nat
        | Vouched(c, w.index.genesis, k) && block <= Covered(FoldedIndex(w)) && k !in w.overlooked - w.local.keys
        ensures StandsOrWaits(c, w.db, FoldedIndex(w), Mark(w), k, block)
      {
        if k in w.local.keys { PlannedKeyStands(c, w, k, block); } else { UnplannedKeyStands(c, w, k, block); }
      }
      assert Agreement(c, w.db, FoldedIndex(w), Mark(w), w.overlooked - w.local.keys);
    }
  }

  lemma PlanChunkKeepsInvariant(c: Setting, w: World, end: int)
    requires WellFormedSetting(c) && Invariant(c, w) && Allowed(c, w, PlanChunk(end))
    ensures Invariant(c, Do(c, w, PlanChunk(end)))
  {
    hide PagesInvariant, Agreement, WellFormedHistories, SeedRows, CreatesNoSeed, WalkedRows, NoneAhead;
    OthersKeepPages(c, w, PlanChunk(end));
    var after := FoldPoint(w.index).value;
    var keys := KeysTouchedBetween(w.db, after, end);
    forall at, k | at in w.db && after < at.block <= end && Touches(w.db[at], k) ensures k in keys {
      var i :| 0 <= i < |w.db[at].rows| && w.db[at].rows[i].entityKey == Some(k);
    }
    forall k, i | k !in keys && 0 <= i < |VersionsOf(w.index.hist, k)|
      ensures !(Covered(w.index) < VersionsOf(w.index.hist, k)[i].fromBlock <= end)
    {
      assert StandOnRows(w.db, k, VersionsOf(w.index.hist, k));
      if at :| at in w.db && at.block == VersionsOf(w.index.hist, k)[i].fromBlock && Touches(w.db[at], k) {
        assert !(after < at.block <= end);
      }
    }
  }

  // ---------------------------------------------------------------------
  // The late scan

  lemma ReadLateKeepsInvariant(c: Setting, w: World)
    requires WellFormedSetting(c) && Invariant(c, w) && Allowed(c, w, ReadLate)
    ensures Invariant(c, Do(c, w, ReadLate))
  {
    hide PagesInvariant, Agreement, WellFormedHistories, SeedRows, CreatesNoSeed, WalkedRows, NoneAhead, VersionsHaveRows;
    OthersKeepPages(c, w, ReadLate);
    var since, through := w.index.watermark.value - c.overlap, FoldPoint(w.index).value;
    var keys := KeysScannedSince(w.db, since, through);
    forall at, k | at in w.db && at.block <= through && Touches(w.db[at], k) && w.db[at].scannedAt > since ensures k in keys {
      var i :| 0 <= i < |w.db[at].rows| && w.db[at].rows[i].entityKey == Some(k);
    }
  }

  /** At each block a key the late scan did not list stands, or awaits the next late scan already. */
  lemma UnlistedStandsAtNow(c: Setting, w: World, now: int, keys: set<ByteString>, k: ByteString, block: nat)
    requires FoldPoint(w.index).Some? && w.index.watermark.Some? && WellFormedDatabase(w.db) && k !in keys && block <= Covered(w.index)
    requires UnscannedAreOldOrNew(c, w.db, keys, FoldPoint(w.index).value, w.index.watermark.value, now)
    requires StandsOrWaits(c, w.db, w.index, w.index.watermark.value, k, block)
    ensures StandsOrWaits(c, w.db, w.index, now, k, block)
  {
    hide Truth, Started, Relevant;
    if Pending(c, w.db, block, w.index.watermark.value, k) {
      var at :| at in w.db && at.block <= block && Touches(w.db[at], k) &&
                w.db[at].scannedAt > w.index.watermark.value - c.overlap;
      assert w.db[at].scannedAt > now - c.overlap;
    }
  }

  /** A late refold that commits. */
  ghost predicate Rescanning(c: Setting, w: World) {
    WellFormedSetting(c) && Invariant(c, w) && w.local.LateRead? && FoldingAllowed(w.index.genesis) &&
    Refolded(w.db, w.index.hist, w.local.lateKeys, FoldPoint(w.index).value).Ok?
  }

  ghost function RescannedIndex(w: World): Index
    requires w.local.LateRead? && FoldPoint(w.index).Some? && Refolded(w.db, w.index.hist, w.local.lateKeys, FoldPoint(w.index).value).Ok?
  {
    w.index.(hist := Refolded(w.db, w.index.hist, w.local.lateKeys, FoldPoint(w.index).value).value)
  }

  /** After it each key stands at each block covered, or has a row the next late scan will read. */
  lemma RescannedStands(c: Setting, w: World, k: ByteString, block: nat)
    requires Rescanning(c, w) && block <= Covered(w.index) && Vouched(c, w.index.genesis, k)
    requires k !in w.overlooked || k in w.local.lateKeys
    ensures StandsOrWaits(c, w.db, RescannedIndex(w), w.local.now, k, block)
    ensures k in w.local.lateKeys ==> StandsOrWaits(c, w.db, RescannedIndex(w), Mark(w), k, block)
    ensures k !in w.local.lateKeys ==> StandsOrWaits(c, w.db, RescannedIndex(w), Mark(w), k, block)
  {
    hide Truth, Started, Relevant, Refolded, VersionsHaveRows, SeedRows, WellFormedHistories, CreatesNoSeed, WalkedRows, UnscannedAreOldOrNew, Vouched, NoneAhead, WellFormedDatabase;
    var keys, through := w.local.lateKeys, FoldPoint(w.index).value;
    if k in keys {
      BaseWhileFolding(c, w.index, k);
      RefoldedStands(w.db, w.index.hist, keys, through, k, block);
    } else {
      assert StandsOrWaits(c, w.db, w.index, Mark(w), k, block);
      UnlistedStandsAtNow(c, w, w.local.now, keys, k, block);
      RefoldedVersions(w.db, w.index.hist, keys, through, k);
    }
  }

  lemma RescannedIsOnOneSide(c: Setting, w: World, k: ByteString)
    requires Rescanning(c, w)
    ensures OnOneSide(VersionsOf(RescannedIndex(w).hist, k), Covered(w.index))
  {
    hide Truth, Refolded, Agreement, VersionsHaveRows, SeedRows, WellFormedHistories, CreatesNoSeed, WalkedRows, WellFormedDatabase, UnscannedAreOldOrNew;
    if k in w.local.lateKeys {
      RefoldedHasRows(w.db, w.index.hist, w.local.lateKeys, FoldPoint(w.index).value, k);
    } else {
      RefoldedVersions(w.db, w.index.hist, w.local.lateKeys, FoldPoint(w.index).value, k);
    }
  }

  lemma RefoldLateKeepsInvariant(c: Setting, w: World)
    requires WellFormedSetting(c) && Invariant(c, w) && Allowed(c, w, RefoldLate)
    ensures Invariant(c, Do(c, w, RefoldLate))
  {
    hide PagesInvariant, StandsOrWaits, OnOneSide, UnscannedAreOldOrNew, VersionsHaveRows, WellFormedHistories, SeedRows, CreatesNoSeed, Refolded, Vouched, WellFormedDatabase;
    OthersKeepPages(c, w, RefoldLate);
    var now, keys := w.local.now, w.local.lateKeys;
    if keys == {} {
      forall k, block: nat | Vouched(c, w.index.genesis, k) && block <= Covered(w.index) && k !in w.overlooked
        ensures StandsOrWaits(c, w.db, w.index, now, k, block)
      {
        UnlistedStandsAtNow(c, w, now, keys, k, block);
      }
    } else if FoldingAllowed(w.index.genesis) && Refolded(w.db, w.index.hist, keys, FoldPoint(w.index).value).Ok? {
      RefoldKeepsSeedRows(c, w, keys, FoldPoint(w.index).value);
      forall k ensures OnOneSide(VersionsOf(RescannedIndex(w).hist, k), Covered(w.index)) {
        RescannedIsOnOneSide(c, w, k);
      }
      forall k, block: nat | Vouched(c, w.index.genesis, k) && block <= Covered(w.index) && k !in w.overlooked - keys
        ensures StandsOrWaits(c, w.db, RescannedIndex(w), now, k, block) && StandsOrWaits(c, w.db, RescannedIndex(w), Mark(w), k, block)
      {
        RescannedStands(c, w, k, block);
      }
      assert Agreement(c, w.db, RescannedIndex(w), now, w.overlooked - keys);
      assert Agreement(c, w.db, RescannedIndex(w), Mark(w), w.overlooked - keys);
    }
  }

  // ---------------------------------------------------------------------
  // The genesis import

  /** The import's own steps: a probe's answer, a batch of the walk, a rewind, a failure. */
  predicate IsImportStep(a: Action) {
    a.Probe? || a.CommitWalk? || a.RestartWalk? || a.FailWalk?
  }

  /** A step of the import leaves alone every key the index still answers for. */
  lemma ImportKeepsKey(c: Setting, w: World, a: Action, k: ByteString)
    requires WellFormedSetting(c) && SeedRows(c, w.index) && WellFormedHistories(w.index.hist)
    requires Allowed(c, w, a) && IsImportStep(a)
    ensures var index := Do(c, w, a).index;
            VersionsOf(index.hist, k) == VersionsOf(w.index.hist, k) || (IsSeedKey(c, k) && Some(VersionsOf(index.hist, k)) == Alone(c, k))
    ensures var index := Do(c, w, a).index;
            Vouched(c, index.genesis, k) ==>
              Vouched(c, w.index.genesis, k) && VersionsOf(index.hist, k) == VersionsOf(w.index.hist, k) &&
              BaseFor(c, index.genesis, k) == BaseFor(c, w.index.genesis, k)
  {
    hide Inserted, SeedRows, WellFormedHistories;
    SeedOfSome(c, k);
    SeedKeysAreNonempty(c, k);
    if a.CommitWalk? { ImportedVersions(c, w.index, a.imported, a.finished, k); }
  }

  lemma ImportKeepsAgreement(c: Setting, w: World, a: Action, index: Index, mark: int, overlooked: set<ByteString>)
    requires WellFormedSetting(c) && SeedRows(c, w.index) && WellFormedHistories(w.index.hist)
    requires Allowed(c, w, a) && IsImportStep(a)
    requires index.hist == w.index.hist && index.genesis == w.index.genesis && FoldPoint(index).Some?
    requires Agreement(c, w.db, index, mark, overlooked)
    ensures var after := index.(hist := Do(c, w, a).index.hist, genesis := Do(c, w, a).index.genesis);
            Agreement(c, w.db, after, mark, overlooked)
  {
    hide SeedRows, WellFormedHistories, Do, Allowed, Pending, Truth, Started, Vouched, BaseFor;
    var after := index.(hist := Do(c, w, a).index.hist, genesis := Do(c, w, a).index.genesis);
    forall k, block: nat | Vouched(c, after.genesis, k) && block <= Covered(after) && k !in overlooked
      ensures StandsOrWaits(c, w.db, after, mark, k, block)
    {
      ImportKeepsKey(c, w, a, k);
      assert StandsOrWaits(c, w.db, index, mark, k, block);
    }
  }

  lemma AloneStartsAtZero(c: Setting, db: Database, vs: seq<Version>, k: ByteString)
    requires WellFormedSetting(c) && Some(vs) == Alone(c, k)
    ensures StandOnRows(db, k, vs) && |vs| == 1 && vs[0].fromBlock == 0 && forall block: nat :: OnOneSide(vs, block)
  {
    SeedIsCanonical(c, k);
  }

  lemma ImportKeepsRows(c: Setting, w: World, a: Action)
    requires WellFormedSetting(c) && Invariant(c, w) && Allowed(c, w, a) && IsImportStep(a)
    ensures VersionsHaveRows(w.db, Do(c, w, a).index.hist)
    ensures FoldPoint(w.index).Some? ==> NoneAhead(Do(c, w, a).index)
    ensures w.index.watermark.None? ==> Unfolded(c, Do(c, w, a).index.hist)
    ensures w.local.ChunkPlanned? ==> UnlistedDoNotStart(Do(c, w, a).index.hist, w.local.keys, Covered(w.index), w.local.end)
  {
    hide SeedRows, WellFormedHistories, Agreement, WalkedRows, CreatesNoSeed, WellFormedDatabase, StandOnRows, OnOneSide, UnlistedAreLate;
    var after := Do(c, w, a).index.hist;
    forall k
      ensures VersionsOf(after, k) == VersionsOf(w.index.hist, k) || Some(VersionsOf(after, k)) == Alone(c, k)
      ensures Some(VersionsOf(after, k)) == Alone(c, k) ==>
                StandOnRows(w.db, k, VersionsOf(after, k)) && |VersionsOf(after, k)| == 1 && VersionsOf(after, k)[0].fromBlock == 0 &&
                forall block: nat :: OnOneSide(VersionsOf(after, k), block)
    {
      ImportKeepsKey(c, w, a, k);
      if Some(VersionsOf(after, k)) == Alone(c, k) { AloneStartsAtZero(c, w.db, VersionsOf(after, k), k); }
    }
  }

  lemma ImportKeepsLocal(c: Setting, w: World, a: Action)
    requires WellFormedSetting(c) && Invariant(c, w) && Allowed(c, w, a) && IsImportStep(a)
    ensures LocalInvariant(c, Do(c, w, a))
  {
    hide Agreement, SeedRows, WellFormedHistories, WalkedRows, CreatesNoSeed, WellFormedDatabase, VersionsHaveRows, NoneAhead, Unfolded, UnlistedAreLate, UnlistedDoNotStart, Inserted, UnscannedAreOldOrNew, SkippedAreLate;
    match w.local
    case Detected(floor) => ImportKeepsAgreement(c, w, a, w.index.(floor := Some(floor)), w.detectedAt, {});
    case Starting(floor, now) => ImportKeepsAgreement(c, w, a, w.index.(floor := Some(floor)), w.detectedAt, {});
    case LateRefolded(now) => ImportKeepsAgreement(c, w, a, w.index, now, w.overlooked);
    case ChunkPlanned(_, _) => ImportKeepsRows(c, w, a);
    case _ =>
  }

  /** Whatever else holds of the rows, a step of the import keeps the index standing. */
  lemma ImportStepKeepsInvariant(c: Setting, w: World, a: Action)
    requires WellFormedSetting(c) && Invariant(c, w) && Allowed(c, w, a) && IsImportStep(a)
    requires var index := Do(c, w, a).index; WellFormedHistories(index.hist) && SeedRows(c, index) && WalkedRows(c, index)
    ensures Invariant(c, Do(c, w, a))
  {
    hide PagesInvariant, Agreement, SeedRows, WellFormedHistories, WalkedRows, CreatesNoSeed, WellFormedDatabase, VersionsHaveRows, NoneAhead, Unfolded, LocalInvariant, Inserted;
    OthersKeepPages(c, w, a);
    ImportKeepsRows(c, w, a);
    ImportKeepsLocal(c, w, a);
    if FoldPoint(w.index).Some? { ImportKeepsAgreement(c, w, a, w.index, Mark(w), w.overlooked); }
  }

  lemma ProbeKeepsInvariant(c: Setting, w: World, found: Genesis)
    requires WellFormedSetting(c) && Invariant(c, w) && Allowed(c, w, Probe(found))
    ensures Invariant(c, Do(c, w, Probe(found)))
  {
    hide Agreement, VersionsHaveRows, NoneAhead, Unfolded, LocalInvariant, WellFormedHistories, CreatesNoSeed, WellFormedDatabase;
    ImportStepKeepsInvariant(c, w, Probe(found));
  }

  /** While a walk runs, the table holds a genesis entity's own version or nothing for its key. */
  lemma SeedRowInWalk(c: Setting, index: Index, i: nat)
    requires WellFormedSetting(c) && SeedRows(c, index) && index.genesis.Walk? && i < |c.seed|
    requires WellFormedHistories(index.hist)
    ensures var k := c.seed[i].entityKey; k !in index.hist || index.hist[k] == [c.seed[i]]
  {
    var k := c.seed[i].entityKey;
    assert IsSeedKey(c, k);
    SeedOfIsSeed(c, i);
    assert VersionsOf(index.hist, k) == [] || Some(VersionsOf(index.hist, k)) == Alone(c, k);
  }

  lemma SeedKeysAreDistinct(c: Setting, from: nat, to: nat, v: Version, w: Version)
    requires WellFormedSetting(c) && from <= to <= |c.seed|
    requires v in c.seed[from..to] && w in c.seed[from..to] && w.entityKey == v.entityKey
    ensures w == v
  {
    var i :| from <= i < to && c.seed[i] == v;
    var j :| from <= j < to && c.seed[j] == w;
    assert i == j;
  }

  lemma WalkSliceIsInsertable(c: Setting, index: Index, imported: nat)
    requires WellFormedSetting(c) && SeedRows(c, index) && index.genesis.Walk? && index.genesis.imported <= imported <= |c.seed|
    requires WellFormedHistories(index.hist)
    ensures Insertable(index.hist, c.seed[index.genesis.imported..imported])
  {
    var slice := c.seed[index.genesis.imported..imported];
    forall v | v in slice ensures Canonical(v) && (v.entityKey !in index.hist || index.hist[v.entityKey] == [v]) {
      var i :| index.genesis.imported <= i < imported && c.seed[i] == v;
      SeedRowInWalk(c, index, i);
    }
    forall v, w | v in slice && w in slice && w.entityKey == v.entityKey ensures w == v {
      SeedKeysAreDistinct(c, index.genesis.imported, imported, v, w);
    }
  }

  /** After a walk's commit a key holds what it held, or the genesis state just written for it. */
  lemma ImportedVersions(c: Setting, index: Index, imported: nat, finished: bool, k: ByteString)
    requires WellFormedSetting(c) && SeedRows(c, index) && WellFormedHistories(index.hist)
    requires index.genesis.Walk? && index.genesis.imported <= imported <= |c.seed|
    ensures var vs := VersionsOf(Imported(c, index, imported, finished).hist, k);
            vs == VersionsOf(index.hist, k) || (IsSeedKey(c, k) && Some(vs) == Alone(c, k))
  {
    hide WellFormedHistories, Insertable, SeedRows, WellFormedSetting;
    var slice := c.seed[index.genesis.imported..imported];
    WalkSliceIsInsertable(c, index, imported);
    InsertableIsOneEach(index.hist, slice);
    var after := Inserted(index.hist, slice);
    if k !in index.hist && k in after {
      InsertedVersion(index.hist, slice, k);
      var i :| index.genesis.imported <= i < imported && after[k] == [c.seed[i]] && c.seed[i].entityKey == k;
      SeedOfIsSeed(c, i);
    }
  }

  lemma InsertableIsOneEach(hist: Histories, vs: seq<Version>)
    requires Insertable(hist, vs)
    ensures forall v, w :: v in vs && w in vs && w.entityKey == v.entityKey ==> w == v
  {
  }

  lemma InsertedVersion(hist: Histories, vs: seq<Version>, k: ByteString)
    requires forall v, w :: v in vs && w in vs && w.entityKey == v.entityKey ==> w == v
    requires k !in hist && k in Inserted(hist, vs)
    ensures exists i :: 0 <= i < |vs| && vs[i].entityKey == k && Inserted(hist, vs)[k] == [vs[i]]
  {
    var v :| v in vs && v.entityKey == k && Inserted(hist, vs)[k] == [v];
    var i :| 0 <= i < |vs| && vs[i] == v;
  }

  lemma ImportedSlice(c: Setting, index: Index, imported: nat, finished: bool, i: nat)
    requires WellFormedSetting(c) && SeedRows(c, index) && WellFormedHistories(index.hist)
    requires index.genesis.Walk? && index.genesis.imported <= i < imported <= |c.seed|
    ensures VersionsOf(Imported(c, index, imported, finished).hist, c.seed[i].entityKey) == [c.seed[i]]
  {
    var slice, k := c.seed[index.genesis.imported..imported], c.seed[i].entityKey;
    WalkSliceIsInsertable(c, index, imported);
    assert slice[i - index.genesis.imported] == c.seed[i] && c.seed[i] in slice;
    SeedRowInWalk(c, index, i);
    var after := Inserted(index.hist, slice);
    if k !in index.hist {
      var v :| v in slice && v.entityKey == k && after[k] == [v];
      SeedKeysAreDistinct(c, index.genesis.imported, imported, c.seed[i], v);
    }
  }

  lemma CommitWalkKeepsSeedRows(c: Setting, w: World, imported: nat, finished: bool)
    requires WellFormedSetting(c) && Invariant(c, w) && Allowed(c, w, CommitWalk(imported, finished))
    ensures var index := Imported(c, w.index, imported, finished);
            WellFormedHistories(index.hist) && SeedRows(c, index) && WalkedRows(c, index)
  {
    var index := Imported(c, w.index, imported, finished);
    WalkSliceIsInsertable(c, w.index, imported);
    InsertedIsWellFormed(w.index.hist, c.seed[w.index.genesis.imported..imported]);
    forall i | 0 <= i < imported ensures VersionsOf(index.hist, c.seed[i].entityKey) == [c.seed[i]] {
      if i >= w.index.genesis.imported {
        ImportedSlice(c, w.index, imported, finished, i);
      } else {
        ImportedVersions(c, w.index, imported, finished, c.seed[i].entityKey);
        SeedOfIsSeed(c, i);
      }
    }
    forall k
      ensures !IsSeedKey(c, k) ==> BaseOf(VersionsOf(index.hist, k)).None?
      ensures IsSeedKey(c, k) ==> VersionsOf(index.hist, k) == [] || Some(VersionsOf(index.hist, k)) == Alone(c, k)
      ensures IsSeedKey(c, k) && index.genesis.Repair? ==> Some(VersionsOf(index.hist, k)) == Alone(c, k) && !AtMost(k, [])
    {
      ImportedVersions(c, w.index, imported, finished, k);
      if IsSeedKey(c, k) {
        var i :| 0 <= i < |c.seed| && c.seed[i].entityKey == k;
        SeedOfIsSeed(c, i);
        SeedIsCanonical(c, k);
      }
    }
  }

  lemma CommitWalkKeepsInvariant(c: Setting, w: World, imported: nat, finished: bool)
    requires WellFormedSetting(c) && Invariant(c, w) && Allowed(c, w, CommitWalk(imported, finished))
    ensures Invariant(c, Do(c, w, CommitWalk(imported, finished)))
  {
    hide Invariant, WellFormedHistories, SeedRows, WalkedRows;
    CommitWalkKeepsSeedRows(c, w, imported, finished);
    ImportStepKeepsInvariant(c, w, CommitWalk(imported, finished));
  }

  lemma StopWalkKeepsInvariant(c: Setting, w: World, a: Action)
    requires WellFormedSetting(c) && Invariant(c, w) && Allowed(c, w, a) && (a.FailWalk? || a.RestartWalk?)
    ensures Invariant(c, Do(c, w, a))
  {
    hide Agreement, VersionsHaveRows, NoneAhead, Unfolded, LocalInvariant, WellFormedHistories, CreatesNoSeed, WellFormedDatabase;
    forall k ensures SeedOf(c, k).Some? <==> IsSeedKey(c, k) {
      SeedOfSome(c, k);
      if IsSeedKey(c, k) { SeedIsCanonical(c, k); }
    }
    ImportStepKeepsInvariant(c, w, a);
  }

  // ---------------------------------------------------------------------
  // The repair

  lemma PageKeysAreSeed(c: Setting, w: World, b: nat, page: seq<ByteString>, limit: nat)
    requires Invariant(c, w) && Allowed(c, w, ReadRepair(b, page, limit))
    ensures forall i :: 0 <= i < |page| ==> IsSeedKey(c, page[i]) && Before(w.index.genesis.after, page[i])
  {
    hide SkippedAreLate, WellFormedHistories, Agreement, VersionsHaveRows, NoneAhead, Unfolded, PagesInvariant, LocalInvariant;
    forall i | 0 <= i < |page| ensures IsSeedKey(c, page[i]) && Before(w.index.genesis.after, page[i]) {
      assert RepairCandidate(w.db, w.index.hist, RepairPoint(w.index), w.index.genesis.after, page[i]);
    }
  }

  /** A genesis key with operations that the page leaves out stands past its end. */
  lemma LeftOutStandsPast(c: Setting, w: World, b: nat, page: seq<ByteString>, limit: nat, at: TxLocation, k: ByteString)
    requires WellFormedSetting(c) && SeedRows(c, w.index) && Allowed(c, w, ReadRepair(b, page, limit))
    requires at in w.db && at.block <= RepairPoint(w.index) && Touches(w.db[at], k)
    requires IsSeedKey(c, k) && Before(w.index.genesis.after, k) && k !in page
    ensures !(|page| < limit || page == [] || AtMost(k, Last(page)))
  {
    var after, through := w.index.genesis.after, RepairPoint(w.index);
    assert at in Relevant(w.db, k, through);
    BeforeIsTotal(after, k);
    SeedOfSome(c, k);
    assert RepairCandidate(w.db, w.index.hist, through, after, k);
    assert |page| > 0 ==> Before(Last(page), k);
    if |page| > 0 { BeforeIsTotal(Last(page), k); }
  }

  /** While nothing is folded a repair covers no operations, and its page is empty. */
  lemma EarlyPageIsEmpty(c: Setting, w: World, b: nat, page: seq<ByteString>, limit: nat)
    requires WellFormedDatabase(w.db) && Progress(w) && Allowed(c, w, ReadRepair(b, page, limit)) && w.index.watermark.None?
    ensures page == []
  {
    if page != [] {
      assert RepairCandidate(w.db, w.index.hist, RepairPoint(w.index), w.index.genesis.after, page[0]);
      CutBelowOne(w.db, page[0], RepairPoint(w.index));
      NothingBelowOne(w.db, page[0]);
    }
  }

  /** A page just read stands, relative to any watermark. */
  lemma ReadPageStands(c: Setting, w: World, b: nat, page: seq<ByteString>, limit: nat, mark: int)
    requires WellFormedSetting(c) && Invariant(c, w) && Allowed(c, w, ReadRepair(b, page, limit))
    ensures PageStands(c, w, PageRead(w.index.genesis.after, RepairPoint(w.index), page, limit), mark)
  {
    hide Agreement, WellFormedHistories, SeedRows, RepairCandidate, CreatesNoSeed, WellFormedDatabase, VersionsHaveRows, NoneAhead, Unfolded,
      PagesInvariant, LocalInvariant;
    var after, through := w.index.genesis.after, RepairPoint(w.index);
    PageKeysAreSeed(c, w, b, page, limit);
    assert SkippedAreLate(c, w.db, after, page, limit, through, mark) by {
      forall at, k | at in w.db && at.block <= through && Touches(w.db[at], k) && IsSeedKey(c, k) && Before(after, k) && k !in page
        ensures !(|page| < limit || page == [] || AtMost(k, Last(page)))
      {
        LeftOutStandsPast(c, w, b, page, limit, at, k);
      }
    }
    if w.index.watermark.None? { EarlyPageIsEmpty(c, w, b, page, limit); }
  }

  lemma ReadRepairKeepsInvariant(c: Setting, w: World, b: nat, page: seq<ByteString>, limit: nat)
    requires WellFormedSetting(c) && Invariant(c, w) && Allowed(c, w, ReadRepair(b, page, limit))
    ensures Invariant(c, Do(c, w, ReadRepair(b, page, limit)))
  {
    hide Agreement, WellFormedHistories, SeedRows, IsRepairPage, CreatesNoSeed, WellFormedDatabase, VersionsHaveRows, NoneAhead, Unfolded,
      WalkedRows, SkippedAreLate, UnlistedAreLate, UnlistedDoNotStart, UnscannedAreOldOrNew, PageStands;
    var w' := Do(c, w, ReadRepair(b, page, limit));
    forall d, mark: int | d in w'.pages && (mark == Mark(w) || (w.local.LateRefolded? && mark == w.local.now))
      ensures PageHolds(c, w', w'.pages[d], mark)
    {
      if d == b {
        ReadPageStands(c, w, b, page, limit, mark);
      } else {
        assert PageHolds(c, w, w.pages[d], mark);
      }
      SamePageStands(c, w, w', w'.pages[d], mark);
    }
  }

  /** What stands of a page is a matter of the rows, the fold point and whether anything is folded. */
  lemma SamePageStands(c: Setting, w: World, other: World, p: PageRead, mark: int)
    requires other.db == w.db && other.index == w.index
    ensures PageStands(c, other, p, mark) == PageStands(c, w, p, mark)
  {
  }

  /** A repair page that commits: the repair is still where it was read. */
  ghost predicate Repairing(c: Setting, w: World, b: nat) {
    WellFormedSetting(c) && Invariant(c, w) && b in w.pages && w.index.genesis == Repair(w.pages[b].after) &&
    Refolded(w.db, w.index.hist, KeySet(w.pages[b].page), w.pages[b].through).Ok?
  }

  ghost function RepairedIndex(w: World, b: nat): Index
    requires b in w.pages && Refolded(w.db, w.index.hist, KeySet(w.pages[b].page), w.pages[b].through).Ok?
  {
    w.index.(hist := Refolded(w.db, w.index.hist, KeySet(w.pages[b].page), w.pages[b].through).value,
             genesis := AfterPage(w.pages[b].page, w.pages[b].limit))
  }

  /** Relative to a watermark, the one stored or the one a late scan is about to store, the index and its pages stand. */
  ghost predicate StandsBy(c: Setting, w: World, mark: int) {
    FoldPoint(w.index).Some? && Agreement(c, w.db, w.index, mark, w.overlooked) && PagesStand(c, w, mark)
  }

  lemma StandsByBoth(c: Setting, w: World, b: nat)
    requires Repairing(c, w, b)
    ensures StandsBy(c, w, Mark(w)) && (w.local.LateRefolded? ==> StandsBy(c, w, w.local.now))
  {
    hide Agreement, PagesStand, Refolded;
    assert PageHolds(c, w, w.pages[b], Mark(w)) by { PageIsHeld(c, w, b); }
  }

  lemma PageIsHeld(c: Setting, w: World, b: nat)
    requires PagesInvariant(c, w) && b in w.pages
    ensures PageHolds(c, w, w.pages[b], Mark(w))
  {
  }

  /** The page about to commit stands. */
  lemma CommittedPageStands(c: Setting, w: World, b: nat, mark: int)
    requires b in w.pages && w.index.genesis == Repair(w.pages[b].after) && StandsBy(c, w, mark)
    ensures PageStands(c, w, w.pages[b], mark) && w.pages[b].limit > 0 && w.index.floor == Some(0)
  {
    hide Agreement, PageStands;
    assert PageHolds(c, w, w.pages[b], mark);
    BeforeIsIrreflexive(w.pages[b].after);
  }

  /** What a repair page must leave true of a key at each block covered. */
  ghost predicate Repaired(c: Setting, w: World, b: nat, mark: int, k: ByteString, block: nat) {
    b in w.pages && Refolded(w.db, w.index.hist, KeySet(w.pages[b].page), w.pages[b].through).Ok? &&
    StandsOrWaits(c, w.db, RepairedIndex(w, b), mark, k, block)
  }

  lemma StoredSeed(c: Setting, w: World, k: ByteString)
    requires WellFormedSetting(c) && SeedRows(c, w.index) && w.index.genesis.Repair? && IsSeedKey(c, k)
    ensures Opened(BaseOf(VersionsOf(w.index.hist, k))) == SeedOf(c, k)
    ensures !AtMost(k, w.index.genesis.after) ==> Some(VersionsOf(w.index.hist, k)) == Alone(c, k)
  {
    SeedOfSome(c, k);
    SeedIsCanonical(c, k);
  }

  /** A page's own key is refolded on its genesis state. */
  lemma PageKeyIsRepaired(c: Setting, w: World, b: nat, mark: int, i: nat, block: nat)
    requires b in w.pages && i < |w.pages[b].page| && FoldPoint(w.index).Some? && block <= Covered(w.index)
    requires Repairing(c, w, b) && StandsBy(c, w, mark)
    ensures Repaired(c, w, b, mark, w.pages[b].page[i], block)
  {
    hide Agreement, SkippedAreLate, VersionsHaveRows, NoneAhead, Unfolded, Refolded, StandsAt, SeedRows, WellFormedHistories, CreatesNoSeed, WalkedRows,
      LocalInvariant, PagesStand, PagesInvariant;
    var page, k := w.pages[b].page, w.pages[b].page[i];
    CommittedPageStands(c, w, b, mark);
    SeedOfSome(c, k);
    BeforeIsTotal(w.index.genesis.after, k);
    SeedIsCanonical(c, k);
    StoredSeed(c, w, k);
    RefoldedStands(w.db, w.index.hist, KeySet(page), w.pages[b].through, k, block);
    AscendsToLast(page, i);
  }

  /** A genesis key the page passes over has no operations up to the block, or waits for the late scan. */
  lemma SkippedKeyIsUntouched(c: Setting, w: World, p: PageRead, mark: int, k: ByteString, block: nat)
    requires PageStands(c, w, p, mark) && WellFormedDatabase(w.db) && block <= Covered(w.index)
    requires IsSeedKey(c, k) && k !in p.page && Before(p.after, k) && Vouched(c, AfterPage(p.page, p.limit), k)
    ensures Relevant(w.db, k, block) == map[] || Pending(c, w.db, block, mark, k)
  {
    if at :| at in w.db && at.block <= block && Touches(w.db[at], k) {
      assert |p.page| < p.limit || p.page == [] || AtMost(k, Last(p.page));
      assert at.block <= p.through;
      assert Pending(c, w.db, block, mark, k);
    } else {
      assert Relevant(w.db, k, block) == map[];
    }
  }

  lemma AloneStands(c: Setting, db: Database, hist: Histories, k: ByteString, block: nat)
    requires WellFormedSetting(c) && Some(VersionsOf(hist, k)) == Alone(c, k) && Relevant(db, k, block) == map[]
    ensures StandsAt(db, hist, k, block, SeedOf(c, k))
  {
    hide Truth, SeedOf;
    SeedIsCanonical(c, k);
    TruthOfNothing(k, SeedOf(c, k));
    var seed := SeedOf(c, k).value;
    assert seed.(toBlock := None) == seed;
    assert Started([seed], block) == [seed];
  }

  lemma SkippedKeyIsRepaired(c: Setting, w: World, b: nat, mark: int, k: ByteString, block: nat)
    requires b in w.pages && FoldPoint(w.index).Some? && block <= Covered(w.index)
    requires IsSeedKey(c, k) && k !in w.pages[b].page && Before(w.pages[b].after, k)
    requires Vouched(c, AfterPage(w.pages[b].page, w.pages[b].limit), k)
    requires Repairing(c, w, b) && StandsBy(c, w, mark)
    ensures Repaired(c, w, b, mark, k, block)
  {
    hide Agreement, SkippedAreLate, VersionsHaveRows, NoneAhead, Unfolded, Refolded, StandsAt, SeedRows, WellFormedHistories, CreatesNoSeed, WalkedRows,
      Pending, WellFormedDatabase, LocalInvariant, PagesStand, PagesInvariant, PageStands;
    CommittedPageStands(c, w, b, mark);
    SkippedKeyIsUntouched(c, w, w.pages[b], mark, k, block);
    if Relevant(w.db, k, block) == map[] {
      BeforeIsTotal(w.index.genesis.after, k);
      StoredSeed(c, w, k);
      SeedOfSome(c, k);
      RefoldedVersions(w.db, w.index.hist, KeySet(w.pages[b].page), w.pages[b].through, k);
      AloneStands(c, w.db, RepairedIndex(w, b).hist, k, block);
    }
  }

  /** A key done with before the page stays as it was. */
  lemma EarlierKeyIsRepaired(c: Setting, w: World, b: nat, mark: int, k: ByteString, block: nat)
    requires b in w.pages && FoldPoint(w.index).Some? && block <= Covered(w.index)
    requires k !in w.pages[b].page && k !in w.overlooked && (!IsSeedKey(c, k) || AtMost(k, w.pages[b].after))
    requires Repairing(c, w, b) && StandsBy(c, w, mark)
    ensures Repaired(c, w, b, mark, k, block)
  {
    hide SeedRows, SkippedAreLate, WellFormedHistories, Truth, Refolded, WellFormedSetting, Pending, Started, VersionsHaveRows, NoneAhead, Unfolded,
      LocalInvariant, PagesStand, PagesInvariant;
    var page := w.pages[b].page;
    CommittedPageStands(c, w, b, mark);
    SeedOfSome(c, k);
    RefoldedVersions(w.db, w.index.hist, KeySet(page), w.pages[b].through, k);
    assert StandsOrWaits(c, w.db, w.index, mark, k, block);
    if IsSeedKey(c, k) && page != [] {
      var last := Last(page);
      assert Before(w.index.genesis.after, last);
      if k != w.index.genesis.after { BeforeIsTransitive(k, w.index.genesis.after, last); }
    }
  }

  /** After a repair page every genesis key it reaches stands at each block, or awaits the late scan. */
  lemma RepairPageStands(c: Setting, w: World, b: nat, mark: int, k: ByteString, block: nat)
    requires b in w.pages && FoldPoint(w.index).Some? && block <= Covered(w.index)
    requires Vouched(c, AfterPage(w.pages[b].page, w.pages[b].limit), k) && (k !in w.overlooked || k in w.pages[b].page)
    requires Repairing(c, w, b) && StandsBy(c, w, mark)
    ensures Repaired(c, w, b, mark, k, block)
  {
    hide Repaired, Repairing, StandsBy, Vouched, AtMost;
    var page := w.pages[b].page;
    if k in page {
      var i :| 0 <= i < |page| && page[i] == k;
      PageKeyIsRepaired(c, w, b, mark, i, block);
    } else if IsSeedKey(c, k) && !AtMost(k, w.pages[b].after) {
      NotAtMostIsAfter(k, w.pages[b].after);
      SkippedKeyIsRepaired(c, w, b, mark, k, block);
    } else {
      EarlierKeyIsRepaired(c, w, b, mark, k, block);
    }
  }

  /** So the index stands relative to the same watermark after the page. */
  lemma RepairedAgrees(c: Setting, w: World, b: nat, mark: int)
    requires Repairing(c, w, b) && StandsBy(c, w, mark)
    ensures Agreement(c, w.db, RepairedIndex(w, b), mark, w.overlooked - KeySet(w.pages[b].page))
  {
    hide Repairing, StandsBy, Vouched, StandsOrWaits, Refolded;
    assert FoldPoint(w.index).Some? && b in w.pages && Refolded(w.db, w.index.hist, KeySet(w.pages[b].page), w.pages[b].through).Ok? by {
      RepairingPoint(c, w, b, mark);
    }
    forall k, block: nat
      | Vouched(c, RepairedIndex(w, b).genesis, k) && block <= Covered(w.index) && k !in w.overlooked - KeySet(w.pages[b].page)
      ensures StandsOrWaits(c, w.db, RepairedIndex(w, b), mark, k, block)
    {
      RepairPageStands(c, w, b, mark, k, block);
    }
  }

  lemma RepairingPoint(c: Setting, w: World, b: nat, mark: int)
    requires Repairing(c, w, b) && StandsBy(c, w, mark)
    ensures FoldPoint(w.index).Some? && b in w.pages
    ensures Refolded(w.db, w.index.hist, KeySet(w.pages[b].page), w.pages[b].through).Ok?
  {
  }

  lemma NotAtMostIsAfter(k: ByteString, after: ByteString)
    requires !AtMost(k, after)
    ensures Before(after, k)
  {
    BeforeIsTotal(after, k);
  }

  lemma AscendsToLast(page: seq<ByteString>, i: nat)
    requires i < |page| && forall i, j :: 0 <= i < j < |page| ==> Before(page[i], page[j])
    ensures AtMost(page[i], Last(page))
  {
  }

  lemma RepairPageKeepsSeedRows(c: Setting, w: World, b: nat)
    requires Repairing(c, w, b) && PageStands(c, w, w.pages[b], Mark(w))
    ensures WellFormedHistories(RepairedIndex(w, b).hist) && SeedRows(c, RepairedIndex(w, b)) && VersionsHaveRows(w.db, RepairedIndex(w, b).hist)
  {
    hide Agreement, WalkedRows, Truth, Pending, CreatesNoSeed, Refolded, VersionsHaveRows, NoneAhead, Unfolded, SkippedAreLate, LocalInvariant,
      PagesInvariant;
    var page, through, reached := w.pages[b].page, w.pages[b].through, w.index.genesis.after;
    var keys, g, after := KeySet(page), RepairedIndex(w, b).genesis, RepairedIndex(w, b).hist;
    RefoldKeepsWellFormed(w.db, w.index.hist, keys, through);
    RefoldKeepsRows(w.db, w.index.hist, keys, through);
    forall k
      ensures Opened(BaseOf(VersionsOf(after, k))) == SeedOf(c, k)
      ensures IsSeedKey(c, k) && g.Repair? && !AtMost(k, g.after) ==> Some(VersionsOf(after, k)) == Alone(c, k)
    {
      SeedOfSome(c, k);
      RefoldedVersions(w.db, w.index.hist, keys, through, k);
      if IsSeedKey(c, k) { SeedIsCanonical(c, k); }
      if k in keys {
        RefoldedKey(w.db, w.index.hist, keys, through, k);
        var i :| 0 <= i < |page| && page[i] == k;
        AscendsToLast(page, i);
      }
      if g.Repair? && AtMost(k, reached) && IsSeedKey(c, k) {
        if k != reached { BeforeIsTransitive(k, reached, Last(page)); }
      }
    }
  }

  lemma RepairKeepsSides(c: Setting, w: World, b: nat)
    requires Repairing(c, w, b) && PageStands(c, w, w.pages[b], Mark(w))
    ensures NoneAhead(RepairedIndex(w, b))
    ensures w.index.watermark.None? ==> Unfolded(c, RepairedIndex(w, b).hist)
    ensures w.local.ChunkPlanned? ==> UnlistedDoNotStart(RepairedIndex(w, b).hist, w.local.keys, Covered(w.index), w.local.end)
  {
    hide Agreement, WalkedRows, CreatesNoSeed, Refolded, VersionsHaveRows, SkippedAreLate, SeedRows, WellFormedHistories, WellFormedDatabase,
      PagesInvariant, UnlistedAreLate;
    var page, hist := w.pages[b].page, RepairedIndex(w, b).hist;
    forall k
      ensures k !in page ==> VersionsOf(hist, k) == VersionsOf(w.index.hist, k)
      ensures k in page ==> StartedBy(VersionsOf(hist, k), Covered(w.index))
    {
      RefoldedVersions(w.db, w.index.hist, KeySet(page), w.pages[b].through, k);
      if k in page { RefoldedHasRows(w.db, w.index.hist, KeySet(page), w.pages[b].through, k); }
    }
    forall k ensures OnOneSide(VersionsOf(hist, k), Covered(w.index)) {
      if k !in page { assert OnOneSide(VersionsOf(w.index.hist, k), Covered(w.index)); }
    }
  }

  /** The pages other backends hold are passed by a page that commits, and untouched by one that does not. */
  lemma OtherPagesHold(c: Setting, w: World, b: nat, mark: int)
    requires WellFormedSetting(c) && Allowed(c, w, CommitRepair(b)) && StandsBy(c, w, mark)
    ensures PagesStand(c, Do(c, w, CommitRepair(b)), mark)
  {
    hide Agreement, Refolded, SkippedAreLate;
    var w', read := Do(c, w, CommitRepair(b)), w.pages[b];
    assert PageHolds(c, w, read, mark);
    BeforeIsIrreflexive(read.after);
    forall d | d in w'.pages ensures PageHolds(c, w', w'.pages[d], mark) {
      assert PageHolds(c, w, w.pages[d], mark);
      if w'.index.genesis != w.index.genesis && w'.index.genesis.Repair? {
        var last := Last(read.page);
        assert w.index.genesis == Repair(read.after) && last == read.page[|read.page| - 1];
        if w.pages[d].after != read.after { BeforeIsTransitive(w.pages[d].after, read.after, last); }
      }
    }
  }

  lemma CommitRepairKeepsInvariant(c: Setting, w: World, b: nat)
    requires WellFormedSetting(c) && Invariant(c, w) && Allowed(c, w, CommitRepair(b))
    ensures Invariant(c, Do(c, w, CommitRepair(b)))
  {
    hide StandsOrWaits, OnOneSide, VersionsHaveRows, WellFormedHistories, SeedRows, CreatesNoSeed, Refolded, Vouched, Unfolded, WellFormedDatabase,
      Agreement, PagesStand, UnlistedAreLate, UnlistedDoNotStart, UnscannedAreOldOrNew, PageStands, NoneAhead;
    PageMeansRepair(c, w, b);
    OtherPagesHold(c, w, b, Mark(w));
    if w.local.LateRefolded? { OtherPagesHold(c, w, b, w.local.now); }
    if Repairing(c, w, b) {
      StandsByBoth(c, w, b);
      CommittedPageStands(c, w, b, Mark(w));
      RepairPageKeepsSeedRows(c, w, b);
      RepairKeepsSides(c, w, b);
      RepairedAgrees(c, w, b, Mark(w));
      if w.local.LateRefolded? { RepairedAgrees(c, w, b, w.local.now); }
    }
  }

  // ---------------------------------------------------------------------
  // Runs

  lemma QuietStepKeepsInvariant(c: Setting, w: World, a: Action)
    requires WellFormedSetting(c) && Invariant(c, w) && Allowed(c, w, a) && (a.Advance? || a.ReadClock? || a.StartLate? || a.Crash?)
    ensures Invariant(c, Do(c, w, a))
  {
    hide PagesInvariant, Agreement, NoneAhead, VersionsHaveRows, WellFormedHistories, SeedRows, WalkedRows, CreatesNoSeed, WellFormedDatabase, Unfolded,
      UnlistedAreLate, UnlistedDoNotStart, UnscannedAreOldOrNew, SkippedAreLate;
    OthersKeepPages(c, w, a);
  }

  lemma FinishLateKeepsInvariant(c: Setting, w: World)
    requires WellFormedSetting(c) && Invariant(c, w) && Allowed(c, w, FinishLate)
    ensures Invariant(c, Do(c, w, FinishLate))
  {
    hide PagesInvariant, Agreement, OnOneSide, VersionsHaveRows, WellFormedHistories, SeedRows, WalkedRows, CreatesNoSeed, WellFormedDatabase, Unfolded;
    OthersKeepPages(c, w, FinishLate);
    var index := w.index.(watermark := Some(w.local.now));
    SameSeedRows(c, w.index, index);
    SameAgreement(c, w.db, w.index, index, w.local.now, w.overlooked);
  }

  lemma StepKeepsInvariant(c: Setting, w: World, a: Action)
    requires WellFormedSetting(c) && Invariant(c, w) && Allowed(c, w, a)
    ensures Invariant(c, Do(c, w, a))
  {
    hide Invariant, Allowed, Do;
    match a
    case Write(writes) => WriteKeepsInvariant(c, w, writes);
    case Advance(clock) => QuietStepKeepsInvariant(c, w, a);
    case Detect(floor) => DetectKeepsInvariant(c, w, floor);
    case ReadClock => QuietStepKeepsInvariant(c, w, a);
    case PutFloor => PutFloorKeepsInvariant(c, w);
    case PutFoldPoint => PutFoldPointKeepsInvariant(c, w);
    case PutWatermark => MarkedKeepsInvariant(c, w, a);
    case PlanChunk(end) => PlanChunkKeepsInvariant(c, w, end);
    case FoldChunk => FoldChunkKeepsInvariant(c, w);
    case StartLate => QuietStepKeepsInvariant(c, w, a);
    case FirstWatermark => MarkedKeepsInvariant(c, w, a);
    case ReadLate => ReadLateKeepsInvariant(c, w);
    case RefoldLate => RefoldLateKeepsInvariant(c, w);
    case FinishLate => FinishLateKeepsInvariant(c, w);
    case Probe(found) => ProbeKeepsInvariant(c, w, found);
    case CommitWalk(imported, finished) => CommitWalkKeepsInvariant(c, w, imported, finished);
    case RestartWalk => StopWalkKeepsInvariant(c, w, a);
    case FailWalk => StopWalkKeepsInvariant(c, w, a);
    case OpenRepair => OpenRepairKeepsInvariant(c, w);
    case ReadRepair(b, page, limit) => ReadRepairKeepsInvariant(c, w, b, page, limit);
    case CommitRepair(b) => CommitRepairKeepsInvariant(c, w, b);
    case Crash => QuietStepKeepsInvariant(c, w, a);
  }

  /** A run: each action allowed where it happens, the last state included. */
  ghost predicate IsRun(c: Setting, states: seq<World>, actions: seq<Action>)
    requires WellFormedSetting(c)
  {
    |states| == |actions| + 1 &&
    forall i :: 0 <= i < |actions| ==> Allowed(c, states[i], actions[i]) && states[i + 1] == Do(c, states[i], actions[i])
  }

  ghost predicate StartsClean(c: Setting, w: World) {
    WellFormedDatabase(w.db) && CreatesNoSeed(c, w.db) && w == Initial(w.db, w.clock)
  }

  /** Every state of every run satisfies the invariant. */
  lemma {:induction false} RunsKeepInvariant(c: Setting, states: seq<World>, actions: seq<Action>, i: nat)
    requires WellFormedSetting(c) && IsRun(c, states, actions) && StartsClean(c, states[0]) && i < |states|
    ensures Invariant(c, states[i])
  {
    if i > 0 {
      RunsKeepInvariant(c, states, actions, i - 1);
      StepKeepsInvariant(c, states[i - 1], actions[i - 1]);
    }
  }
}
