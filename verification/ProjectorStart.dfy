/**
 What the start of the projection can lose. Its three progress rows are written
 one by one (`setProgress` without a transaction), and the watermark last: rows
 that were written since the floor was detected, below it, wait for a late scan
 only if they are stamped within the overlap of the watermark that comes in the
 end.
 */
module ProjectorStart {
  import opened Wrappers
  import opened ByteStrings
  import opened EntityIndex
  import opened FoldProperties
  import opened EventPairing
  import opened IndexStorage
  import opened IndexTables
  import opened Projector
  import opened ProjectorRuns
  import opened ProjectorTheorems

  /** The step that stores the first watermark: of the start, of the late scan that finds none, or of the repair. */
  ghost predicate MarksFirst(c: Setting, w: World, a: Action) {
    WellFormedSetting(c) && Invariant(c, w) && Allowed(c, w, a) && w.index.watermark.None? && Do(c, w, a).index.watermark.Some?
  }

  /** The index the watermark is put on. */
  ghost function MarkedIndex(w: World, a: Action): Index {
    if a.OpenRepair? then OpenedForRepair(w.index) else w.index
  }

  lemma MarkingStep(c: Setting, w: World, a: Action)
    requires MarksFirst(c, w, a)
    ensures var w', index := Do(c, w, a), MarkedIndex(w, a);
            FoldPoint(index).Some? && w'.index == index.(watermark := w'.index.watermark) && w'.db == w.db &&
            w'.overlooked == PassedOver(c, w.db, index, Mark(w')) && Agreement(c, w.db, index, w.detectedAt, {})
  {
    hide Agreement, SeedRows, WellFormedHistories, CreatesNoSeed, WalkedRows, VersionsHaveRows, NoneAhead, Unfolded, PassedOver, Inserted, Refolded;
    if a.OpenRepair? { OpenedAgrees(c, w); }
    var passed := PassedOver(c, w.db, MarkedIndex(w, a), Mark(Do(c, w, a)));
    assert {} + passed == passed;
  }

  lemma SameWaiting(c: Setting, db: Database, index: Index, other: Index, mark: int, k: ByteString, block: nat)
    requires other.hist == index.hist && other.genesis == index.genesis
    ensures StandsOrWaits(c, db, other, mark, k, block) == StandsOrWaits(c, db, index, mark, k, block)
  {
  }

  /** The first watermark passes over exactly the keys that stand wrong at some block and wait for no late scan there. */
  lemma FirstWatermarkPassesOver(c: Setting, w: World, a: Action, k: ByteString)
    requires MarksFirst(c, w, a)
    ensures FoldPoint(Do(c, w, a).index).Some?
    ensures var w' := Do(c, w, a);
            k in w'.overlooked <==>
            Vouched(c, w'.index.genesis, k) &&
            exists block: nat :: block <= Covered(w'.index) && !StandsOrWaits(c, w'.db, w'.index, Mark(w'), k, block)
  {
    hide Invariant, Allowed, StandsOrWaits, Do, Vouched;
    MarkingStep(c, w, a);
    var w', index := Do(c, w, a), MarkedIndex(w, a);
    forall block: nat ensures StandsOrWaits(c, w.db, w'.index, Mark(w'), k, block) == StandsOrWaits(c, w.db, index, Mark(w'), k, block) {
      SameWaiting(c, w.db, index, w'.index, Mark(w'), k, block);
    }
    if Vouched(c, index.genesis, k) {
      if block: nat :| block <= Covered(index) && !StandsOrWaits(c, w.db, index, Mark(w'), k, block) {
        assert StandsOrWaits(c, w.db, index, w.detectedAt, k, block);
        PassedOverIsRecorded(c, w.db, index, w.detectedAt, Mark(w'), k, block);
      }
    }
  }

  /** A row of the key at or below a block, stamped after one moment and not after another. */
  ghost predicate StampedBetween(db: Database, k: ByteString, block: int, after: int, upTo: int) {
    exists at :: at in db && at.block <= block && Touches(db[at], k) && after < db[at].scannedAt <= upTo
  }

  /**
   A key that was passed over has a row at or below the fold point that was
   stamped between the detection of the floor and the watermark, each less the
   overlap: nothing is lost that was stored when the floor was detected, and
   nothing at all when no time passes in between.
   */
  lemma PassedOverInTheWindow(c: Setting, w: World, a: Action, k: ByteString)
    requires MarksFirst(c, w, a) && k in Do(c, w, a).overlooked
    ensures FoldPoint(Do(c, w, a).index).Some?
    ensures var w' := Do(c, w, a);
            StampedBetween(w.db, k, Covered(w'.index), w.detectedAt - c.overlap, Mark(w') - c.overlap)
  {
    hide Invariant, Allowed, StandsAt, Do, Vouched;
    FirstWatermarkPassesOver(c, w, a, k);
    MarkingStep(c, w, a);
    var w', index := Do(c, w, a), MarkedIndex(w, a);
    var block: nat :| block <= Covered(w'.index) && !StandsOrWaits(c, w'.db, w'.index, Mark(w'), k, block);
    assert StandsOrWaits(c, w.db, index, w.detectedAt, k, block);
    var at :| at in w.db && at.block <= block && Touches(w.db[at], k) && w.db[at].scannedAt > w.detectedAt - c.overlap;
    assert w.db[at].scannedAt <= Mark(w') - c.overlap;
  }

  /** The rows stored up to a block bring the key into being. */
  ghost predicate Makes(db: Database, k: ByteString, block: nat) {
    var truth := Truth(k, Relevant(db, k, block), None);
    truth.Ok? && truth.value != []
  }

  lemma UnfoldedStandsExactly(c: Setting, w: World, index: Index, k: ByteString, block: nat)
    requires WellFormedSetting(c) && SeedRows(c, w.index) && Unfolded(c, w.index.hist)
    requires index.hist == w.index.hist && index.genesis == w.index.genesis && Vouched(c, index.genesis, k)
    requires !index.genesis.Done? && (index.genesis.Repair? ==> index.genesis.after == [])
    ensures StandsAt(w.db, index.hist, k, block, BaseFor(c, index.genesis, k)) <==> !Makes(w.db, k, block)
  {
    hide Truth, Relevant, SeedRows;
    UnfoldedKeys(c, w.index, k);
    NothingStarted(block);
  }

  /**
   The index is still the fold after its start exactly when every key that the
   rows at or below the fold point bring into being, at any block, has a row up
   to that block stamped within the overlap of the watermark.
   */
  lemma CleanStartExactly(c: Setting, w: World, a: Action)
    requires MarksFirst(c, w, a) && !w.index.genesis.Done? && (w.index.genesis.Repair? ==> w.index.genesis.after == [])
    ensures FoldPoint(Do(c, w, a).index).Some?
    ensures var w' := Do(c, w, a);
            w'.overlooked == {} <==>
            forall k, block: nat :: Vouched(c, w'.index.genesis, k) && block <= Covered(w'.index) && Makes(w'.db, k, block) ==>
              Pending(c, w'.db, block, Mark(w'), k)
  {
    hide Invariant, Allowed, StandsAt, Do, Vouched, Pending, Makes;
    MarkingStep(c, w, a);
    var w' := Do(c, w, a);
    forall k, block: nat | Vouched(c, w'.index.genesis, k)
      ensures StandsOrWaits(c, w'.db, w'.index, Mark(w'), k, block) <==> (Makes(w'.db, k, block) ==> Pending(c, w'.db, block, Mark(w'), k))
    {
      assert WellFormedSetting(c) && SeedRows(c, w.index) && Unfolded(c, w.index.hist) by { MarkedUnfolded(c, w, a); }
      UnfoldedStandsExactly(c, w, w'.index, k, block);
    }
    forall k ensures k in w'.overlooked <==>
                     Vouched(c, w'.index.genesis, k) &&
                     exists block: nat :: block <= Covered(w'.index) && !StandsOrWaits(c, w'.db, w'.index, Mark(w'), k, block)
    {
      FirstWatermarkPassesOver(c, w, a, k);
    }
    if w'.overlooked == {} {
      forall k, block: nat | Vouched(c, w'.index.genesis, k) && block <= Covered(w'.index) && Makes(w'.db, k, block)
        ensures Pending(c, w'.db, block, Mark(w'), k)
      {
        assert k !in w'.overlooked;
        assert StandsOrWaits(c, w'.db, w'.index, Mark(w'), k, block);
      }
    }
  }

  lemma MarkedUnfolded(c: Setting, w: World, a: Action)
    requires MarksFirst(c, w, a)
    ensures WellFormedSetting(c) && SeedRows(c, w.index) && Unfolded(c, w.index.hist) && WellFormedDatabase(w.db)
  {
  }

  /** Enough for it, and read off the rows alone: every keyed create at or below the fold point is stamped within the overlap of the watermark. */
  lemma RecentCreatesSuffice(c: Setting, w: World, a: Action)
    requires MarksFirst(c, w, a) && !w.index.genesis.Done? && (w.index.genesis.Repair? ==> w.index.genesis.after == [])
    requires FoldPoint(Do(c, w, a).index).Some?
    requires forall at, i :: at in w.db && at.block <= Covered(Do(c, w, a).index) && 0 <= i < |w.db[at].rows| &&
                             w.db[at].rows[i].operationType == CREATE && w.db[at].rows[i].entityKey.Some? ==>
               w.db[at].scannedAt > Mark(Do(c, w, a)) - c.overlap
    ensures Do(c, w, a).overlooked == {}
  {
    hide Invariant, Allowed, Do, Vouched;
    CleanStartExactly(c, w, a);
    MarkingStep(c, w, a);
    MarkedUnfolded(c, w, a);
    var w' := Do(c, w, a);
    forall k, block: nat | block <= Covered(w'.index) && Makes(w'.db, k, block) ensures Pending(c, w'.db, block, Mark(w'), k) {
      RelevantIsWellFormed(w.db, k, block);
      if NeverCreates(Relevant(w.db, k, block), k) { TruthWithoutCreates(k, Relevant(w.db, k, block)); }
    }
  }

  // ---------------------------------------------------------------------
  // Over whole runs

  lemma {:induction false} OverlookedOnlyShrinks(c: Setting, states: seq<World>, actions: seq<Action>, i: nat, j: nat)
    requires WellFormedSetting(c) && IsRun(c, states, actions) && StartsClean(c, states[0])
    requires i <= j < |states| && states[i].index.watermark.Some?
    ensures states[j].index.watermark.Some? && states[j].overlooked <= states[i].overlooked
    decreases j
  {
    hide Invariant, Allowed, Do, StartsClean;
    if i < j {
      OverlookedOnlyShrinks(c, states, actions, i, j - 1);
      RunsKeepInvariant(c, states, actions, j - 1);
      StepOverlooksNoMore(c, states[j - 1], actions[j - 1]);
    }
  }

  lemma StepOverlooksNoMore(c: Setting, w: World, a: Action)
    requires WellFormedSetting(c) && Invariant(c, w) && Allowed(c, w, a) && w.index.watermark.Some?
    ensures Do(c, w, a).index.watermark.Some? && Do(c, w, a).overlooked <= w.overlooked
  {
    hide Agreement, SeedRows, WellFormedHistories, CreatesNoSeed, WalkedRows, VersionsHaveRows, NoneAhead, Unfolded, PassedOver, Inserted, Refolded;
  }

  /**
   A run whose first watermark passed over nothing never does: in each later
   state every key of a ready index stands for its fold at every block, or the
   next late scan reads it.
   */
  lemma CleanStartStaysWhole(c: Setting, states: seq<World>, actions: seq<Action>, i: nat, j: nat, k: ByteString, block: nat)
    requires WellFormedSetting(c) && IsRun(c, states, actions) && StartsClean(c, states[0]) && i <= j < |states|
    requires states[i].index.watermark.Some? && states[i].overlooked == {}
    requires Ready(states[j]) && block <= states[j].index.through.value
    ensures Stands(c, states[j], k, block) || AwaitsLateScan(c, states[j], k, block)
  {
    hide IsRun, Stands, AwaitsLateScan;
    OverlookedOnlyShrinks(c, states, actions, i, j);
    ReadyIndexIsTheFold(c, states, actions, j, k, block);
  }

  // ---------------------------------------------------------------------
  // What was passed over stays so

  /** Passed over, not folded, with no row that a chunk or a late scan has yet to come to. */
  ghost predicate Stranded(c: Setting, w: World, k: ByteString) {
    && !IsSeedKey(c, k) && k in w.overlooked && VersionsOf(w.index.hist, k) == []
    && w.index.through.Some? && w.index.watermark.Some?
    && (forall at :: at in w.db && Touches(w.db[at], k) ==> at.block <= w.index.through.value && w.db[at].scannedAt <= Mark(w) - c.overlap)
    && (w.local.ChunkPlanned? ==> k !in w.local.keys)
    && (w.local.LateRead? ==> k !in w.local.lateKeys)
  }

  /** The step writes no row of the key. */
  predicate LeavesAlone(a: Action, k: ByteString) {
    a.Write? ==> forall at :: at in a.writes ==> !Touches(a.writes[at], k)
  }

  lemma UnlistedStayEmpty(w: World, keys: set<ByteString>, through: int, k: ByteString)
    requires k !in keys && VersionsOf(w.index.hist, k) == [] && Refolded(w.db, w.index.hist, keys, through).Ok?
    ensures VersionsOf(Refolded(w.db, w.index.hist, keys, through).value, k) == []
  {
    RefoldedVersions(w.db, w.index.hist, keys, through, k);
  }

  lemma StepLeavesStranded(c: Setting, w: World, a: Action, k: ByteString)
    requires WellFormedSetting(c) && Invariant(c, w) && Allowed(c, w, a) && LeavesAlone(a, k) && Stranded(c, w, k)
    ensures Stranded(c, Do(c, w, a), k)
  {
    hide Agreement, SeedRows, WellFormedHistories, CreatesNoSeed, WalkedRows, VersionsHaveRows, NoneAhead, Unfolded, PassedOver, Inserted,
      Refolded, SkippedAreLate, UnlistedAreLate, UnlistedDoNotStart, UnscannedAreOldOrNew, WellFormedDatabase;
    match a
    case FoldChunk =>
      if Refolded(w.db, w.index.hist, w.local.keys, w.local.end).Ok? { UnlistedStayEmpty(w, w.local.keys, w.local.end, k); }
    case RefoldLate =>
      if Refolded(w.db, w.index.hist, w.local.lateKeys, FoldPoint(w.index).value).Ok? {
        UnlistedStayEmpty(w, w.local.lateKeys, FoldPoint(w.index).value, k);
      }
    case CommitRepair(b) =>
      if Repairing(c, w, b) {
        StandsByBoth(c, w, b);
        CommittedPageStands(c, w, b, Mark(w));
        UnlistedStayEmpty(w, KeySet(w.pages[b].page), w.pages[b].through, k);
      }
    case CommitWalk(_, _) => assert WellFormedHistories(w.index.hist); ImportKeepsKey(c, w, a, k);
    case _ =>
  }

  /**
   A stranded key stays so in every later state, through any number of chunks
   and late scans, and its rows stay the same, until a row of it is written
   again.
   */
  lemma {:induction false} StrandedForGood(c: Setting, states: seq<World>, actions: seq<Action>, i: nat, j: nat, k: ByteString, block: nat)
    requires WellFormedSetting(c) && IsRun(c, states, actions) && StartsClean(c, states[0]) && i <= j < |states|
    requires Stranded(c, states[i], k) && forall m :: i <= m < j ==> LeavesAlone(actions[m], k)
    ensures Stranded(c, states[j], k) && Relevant(states[j].db, k, block) == Relevant(states[i].db, k, block)
    ensures Makes(states[i].db, k, block) ==> !Stands(c, states[j], k, block)
    decreases j
  {
    hide Invariant, Allowed, Do, StartsClean, Truth;
    if i < j {
      StrandedForGood(c, states, actions, i, j - 1, k, block);
      RunsKeepInvariant(c, states, actions, j - 1);
      var w, a := states[j - 1], actions[j - 1];
      StepLeavesStranded(c, w, a, k);
      RowsLeftAlone(c, w, a, k, block);
    }
    NothingStarted(block);
  }

  lemma RowsLeftAlone(c: Setting, w: World, a: Action, k: ByteString, block: nat)
    requires WellFormedSetting(c) && Allowed(c, w, a) && LeavesAlone(a, k)
    ensures Relevant(Do(c, w, a).db, k, block) == Relevant(w.db, k, block)
  {
    hide Agreement, PassedOver, Inserted, Refolded, Writable, IsRepairPage, IsFloor, KeysTouchedBetween, KeysScannedSince, Relevant;
    if a.Write? { UntouchedByWrite(c, w, a.writes, k, block); }
  }

  // ---------------------------------------------------------------------
  // A start cut short that loses a key

  function CreateRow(k: ByteString): OperationRow { OperationRow(0, CREATE, Some(k), None, [], None, None, None) }

  /** A transaction of one operation, without events. */
  function RowTx(row: OperationRow, stamp: int): Tx { Tx([row], false, Some([]), [], stamp) }

  function CreateTx(k: ByteString, stamp: int): Tx { RowTx(CreateRow(k), stamp) }

  lemma OneRowLoads(at: TxLocation, row: OperationRow, stamp: int)
    requires row.entityKey.Some?
    ensures LoadedTx(at, RowTx(row, stamp)) == Ok([RecordOf(at, RowTx(row, stamp), row)])
  {
    var tx := RowTx(row, stamp);
    var op := RecordOf(at, tx, row);
    assert RecordsOf(at, tx, 1) == [op] by { assert RecordsOf(at, tx, 0) == []; }
    assert EventFor([op], 0, []) == Ok(None) by { assert forall kind :: KindLogs([], kind) == []; }
    assert [op][..0] == [];
    assert Attached([], []) == Ok([]);
  }

  lemma OneCreateFolds(k: ByteString, op: Op)
    requires op.operationType == CREATE && op.attributes == []
    ensures Fold(k, [op], None).Ok? && Fold(k, [op], None).value != []
  {
    hide ResolveExpiry, Listing;
    assert SortedOps([op]) == [op] by { assert SortedOps([]) == [] && [op][1..] == []; }
    assert [op][..0] == [] && Last([op]) == op;
    assert ReplayAll(k, Start(None), []) == Ok(Start(None));
    assert ApplyCells(map[], []) == Ok(map[]);
  }

  /** A create without attributes brings its key into being. */
  lemma OneCreateMakes(k: ByteString, at: TxLocation, stamp: int)
    requires at.block >= 1
    ensures var truth := Truth(k, map[at := CreateTx(k, stamp)], None); truth.Ok? && truth.value != []
  {
    hide Fold, LoadedTx, Enumerate;
    var txs: Database := map[at := CreateTx(k, stamp)];
    var op := RecordOf(at, CreateTx(k, stamp), CreateRow(k));
    OneRowLoads(at, CreateRow(k), stamp);
    assert txs[at] == CreateTx(k, stamp) && LoadedTx(at, txs[at]) == Ok([op]);
    assert OpsAmong(k, txs).value == {op};
    ListingFoldsToTruth(k, txs, [op], None);
    OneCreateFolds(k, op);
  }

  /** A run with one more step. */
  lemma Played(c: Setting, states: seq<World>, actions: seq<Action>, a: Action) returns (more: seq<World>, done: seq<Action>)
    requires WellFormedSetting(c) && |states| == |actions| + 1 && IsRun(c, states, actions) && Allowed(c, states[|actions|], a)
    ensures |more| == |done| + 1 == |states| + 1 && IsRun(c, more, done) && more[..|states|] == states && more[0] == states[0]
    ensures more[|done|] == Do(c, states[|actions|], a) && done == actions + [a]
  {
    more, done := states + [Do(c, states[|actions|], a)], actions + [a];
  }

  const EARLY: ByteString := [1]
  const LATE: ByteString := [2]

  /** One keyed create, at block 100. */
  function StoredFirst(): Database { map[TxLocation(100, 0) := CreateTx(EARLY, 0)] }

  /** What a backfill commits below it later. */
  function Backfilled(): Database { map[TxLocation(50, 0) := CreateTx(LATE, 0)] }

  /** The start is cut short after its first row; the tick after a pause finds the floor, and its late scan sets the watermark. */
  function CutShort(overlap: nat): seq<Action> {
    [Detect(100), ReadClock, PutFloor, Crash, Write(Backfilled()), Advance(overlap), StartLate, FirstWatermark, PlanChunk(100), FoldChunk]
  }

  function Both(): Database { StoredFirst() + Backfilled() }

  lemma BackfillIsWritable(overlap: nat, w: World)
    requires overlap > 0 && w.clock == 0 && w.db == StoredFirst()
    ensures Writable(Setting([], overlap), w, Backfilled()) && Writable(Setting([], overlap), w.(db := map[]), StoredFirst())
  {
  }

  /** The world when the start was cut short, the backfill has committed and the pause is over. */
  function Resumed(overlap: nat): World {
    World(Both(), overlap, Index(map[], Some(100), None, None, Unprobed), Idle, map[], 0, {})
  }

  lemma FloorIsDetected(overlap: nat)
    requires overlap > 0
    ensures var c, w := Setting([], overlap), Initial(StoredFirst(), 0);
            WellFormedSetting(c) && StartsClean(c, w) && Allowed(c, w, Detect(100))
  {
    BackfillIsWritable(overlap, Initial(StoredFirst(), 0));
    WritableIsWellFormed(Setting([], overlap), Initial(map[], 0), StoredFirst());
  }

  lemma BackfillCommits(overlap: nat, w: World)
    requires overlap > 0 && w.clock == 0 && w.db == StoredFirst()
    ensures var c := Setting([], overlap);
            WellFormedSetting(c) && Allowed(c, w, Write(Backfilled())) && Do(c, w, Write(Backfilled())) == w.(db := Both())
  {
    BackfillIsWritable(overlap, w);
  }

  /** Up to the tick after the pause. */
  lemma StartIsCutShort(overlap: nat) returns (states: seq<World>, actions: seq<Action>)
    requires overlap > 0
    ensures var c := Setting([], overlap);
            WellFormedSetting(c) && |states| == |actions| + 1 && IsRun(c, states, actions) && StartsClean(c, states[0])
    ensures actions == CutShort(overlap)[..6] && states[|actions|] == Resumed(overlap)
  {
    hide IsRun, Writable, StartsClean, IsFloor, StoredFirst, Backfilled, Both;
    var c, w := Setting([], overlap), Initial(StoredFirst(), 0);
    NoSteps(c, w);
    FloorIsDetected(overlap);
    states, actions := Played(c, [w], [], Detect(100));
    states, actions := Played(c, states, actions, ReadClock);
    states, actions := Played(c, states, actions, PutFloor);
    states, actions := Played(c, states, actions, Crash);
    BackfillCommits(overlap, states[|actions|]);
    states, actions := Played(c, states, actions, Write(Backfilled()));
    states, actions := Played(c, states, actions, Advance(overlap));
  }

  lemma WritableIsWellFormed(c: Setting, w: World, writes: Database)
    requires Writable(c, w, writes)
    ensures WellFormedDatabase(writes) && CreatesNoSeed(c, writes)
  {
  }

  lemma NoSteps(c: Setting, w: World)
    requires WellFormedSetting(c)
    ensures IsRun(c, [w], [])
  {
  }

  /** The backfilled key's rows, the first key's rows, and what the chunk and the late scan list. */
  lemma WhatIsRead(overlap: nat)
    ensures Relevant(Both(), LATE, 50) == Backfilled() && Relevant(Both(), EARLY, 100) == StoredFirst()
    ensures KeysTouchedBetween(Both(), 99, 100) == {EARLY}
    ensures forall at :: at in Both() && Touches(Both()[at], LATE) ==> at.block <= 100 && Both()[at].scannedAt <= 0
    ensures !Pending(Setting([], overlap), Both(), 50, overlap, LATE)
  {
    assert Both()[TxLocation(100, 0)].rows[0].entityKey == Some(EARLY) && Both()[TxLocation(50, 0)].rows[0].entityKey == Some(LATE);
    assert TxLocation(100, 0) in Both() && TxLocation(50, 0) in Both();
  }

  lemma LateIsPassedOver(overlap: nat)
    requires overlap > 0
    ensures LATE in PassedOver(Setting([], overlap), Both(), Resumed(overlap).index, overlap)
    ensures Makes(Both(), LATE, 50)
  {
    hide Truth;
    var c, index := Setting([], overlap), Resumed(overlap).index;
    WhatIsRead(overlap);
    OneCreateMakes(LATE, TxLocation(50, 0), 0);
    NothingStarted(50);
    assert !StandsOrWaits(c, Both(), index, overlap, LATE, 50);
    assert IsPassedOver(c, Both(), index, overlap, LATE);
    assert TxLocation(50, 0) in Both() && Both()[TxLocation(50, 0)].rows[0].entityKey == Some(LATE);
  }

  lemma EarlyFolds()
    ensures Refolded(Both(), map[], {EARLY}, 100).Ok? && VersionsOf(Refolded(Both(), map[], {EARLY}, 100).value, LATE) == []
  {
    hide Truth;
    WhatIsRead(0);
    OneCreateMakes(EARLY, TxLocation(100, 0), 0);
    assert Renewed(Both(), map[], EARLY, 100).Ok?;
    RefoldedVersions(Both(), map[], {EARLY}, 100, LATE);
  }

  /** The late scan has begun; it has stored the watermark; the chunk from the floor on is planned. */
  function Scanning(overlap: nat): World { Resumed(overlap).(local := LateStarted(overlap)) }

  ghost function Watermarked(overlap: nat): World {
    Resumed(overlap).(index := Resumed(overlap).index.(watermark := Some(overlap)),
                      overlooked := PassedOver(Setting([], overlap), Both(), Resumed(overlap).index, overlap))
  }

  ghost function Planned(overlap: nat): World { Watermarked(overlap).(local := ChunkPlanned({EARLY}, 100)) }

  lemma ScanBegins(overlap: nat)
    ensures var c, w := Setting([], overlap), Resumed(overlap);
            WellFormedSetting(c) && Allowed(c, w, StartLate) && Do(c, w, StartLate) == Scanning(overlap)
  {
    hide Both;
  }

  lemma WatermarkIsPut(overlap: nat)
    ensures var c, w := Setting([], overlap), Scanning(overlap);
            WellFormedSetting(c) && Allowed(c, w, FirstWatermark) && Do(c, w, FirstWatermark) == Watermarked(overlap)
  {
    hide Both, PassedOver;
    var passed := PassedOver(Setting([], overlap), Both(), Resumed(overlap).index, overlap);
    assert {} + passed == passed;
  }

  lemma ChunkIsPlanned(overlap: nat)
    ensures var c, w := Setting([], overlap), Watermarked(overlap);
            WellFormedSetting(c) && Allowed(c, w, PlanChunk(100)) && Do(c, w, PlanChunk(100)) == Planned(overlap)
  {
    hide Both, PassedOver, KeysTouchedBetween;
    WhatIsRead(overlap);
  }

  /**
   For any overlap: a key whose create is backfilled below the detected floor,
   while a start cut short waits for its next tick, is missing from a ready
   index, and stranded there.
   */
  lemma CutShortStartLosesAKey(overlap: nat) returns (states: seq<World>, actions: seq<Action>)
    requires overlap > 0
    ensures var c := Setting([], overlap);
            WellFormedSetting(c) && |states| == |actions| + 1 && IsRun(c, states, actions) && StartsClean(c, states[0]) &&
            actions == CutShort(overlap) &&
            var w := states[|actions|];
            Ready(w) && Stranded(c, w, LATE) && Makes(w.db, LATE, 50) && !Stands(c, w, LATE, 50)
  {
    hide IsRun, Allowed, Do, Stranded, Makes, Stands, StartsClean, Watermarked, Planned, Scanning, Resumed;
    var c := Setting([], overlap);
    states, actions := StartIsCutShort(overlap);
    ScanBegins(overlap);
    states, actions := Played(c, states, actions, StartLate);
    WatermarkIsPut(overlap);
    states, actions := Played(c, states, actions, FirstWatermark);
    ChunkIsPlanned(overlap);
    states, actions := Played(c, states, actions, PlanChunk(100));
    FoldsToStranded(overlap);
    states, actions := Played(c, states, actions, FoldChunk);
  }

  lemma FoldsToStranded(overlap: nat)
    requires overlap > 0
    ensures var c, w := Setting([], overlap), Planned(overlap);
            WellFormedSetting(c) && Allowed(c, w, FoldChunk) &&
            var w' := Do(c, w, FoldChunk);
            Ready(w') && Stranded(c, w', LATE) && Makes(w'.db, LATE, 50) && !Stands(c, w', LATE, 50)
  {
    hide Refolded, Truth, Started, PassedOver;
    LateIsPassedOver(overlap);
    EarlyFolds();
    WhatIsRead(overlap);
    OneCreateMakes(LATE, TxLocation(50, 0), 0);
    NothingStarted(50);
  }
}
