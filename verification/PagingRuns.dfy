/**
 Reading while the projector runs: what serves a reader at a pin goes on serving
 it along any run that stores nothing below the pin, and a run in which a head
 read, overtaken by a fold, loses an answer.
 */
module PagingRuns {
  import opened Wrappers
  import opened ByteStrings
  import opened EntityIndex
  import opened FoldProperties
  import opened EventPairing
  import opened IndexStorage
  import opened IndexTables
  import opened Projector
  import opened ProjectorRuns
  import opened ProjectorTheorems
  import opened ProjectorStart
  import opened QuerySql
  import opened Paging

  // ---------------------------------------------------------------------
  // What serves a reader goes on serving it

  /** No import has begun. */
  predicate Quiet(g: Genesis) {
    g.Unprobed? || g.NoneFound? || g.Waiting? || g.Unavailable?
  }

  /** The import was done before and after, or has not begun. */
  predicate Steady(before: Genesis, after: Genesis) {
    (before.Done? && after.Done?) || (Quiet(before) && Quiet(after))
  }

  /** Nothing is stored at or below the block. */
  ghost predicate WritesAbove(a: Action, block: int) {
    a.Write? ==> forall at :: at in a.writes ==> at.block > block
  }

  lemma ImportMovesOn(c: Setting, w: World, a: Action)
    requires WellFormedSetting(c) && Allowed(c, w, a)
    ensures w.index.genesis.Done? ==> Do(c, w, a).index.genesis.Done?
    ensures Quiet(Do(c, w, a).index.genesis) ==> Quiet(w.index.genesis)
  {
    hide PassedOver, Inserted, Refolded;
  }

  /** Nothing to do with the fold point takes it back. */
  lemma FoldPointStays(c: Setting, w: World, a: Action)
    requires WellFormedSetting(c) && Invariant(c, w) && Allowed(c, w, a) && w.index.through.Some?
    ensures Do(c, w, a).index.through.Some? && w.index.through.value <= Do(c, w, a).index.through.value
  {
    hide Agreement, SeedRows, WellFormedHistories, CreatesNoSeed, WalkedRows, VersionsHaveRows, NoneAhead, Unfolded, PassedOver, Inserted,
      Refolded, UnlistedAreLate, UnlistedDoNotStart, UnscannedAreOldOrNew, WellFormedDatabase, PagesInvariant;
  }

  lemma RefoldKeepsStands(c: Setting, w: World, keys: set<ByteString>, through: int, k: ByteString, block: nat)
    requires WellFormedSetting(c) && Invariant(c, w) && FoldingAllowed(w.index.genesis) && block <= through
    requires Refolded(w.db, w.index.hist, keys, through).Ok? && Stands(c, w, k, block)
    ensures StandsAt(w.db, Refolded(w.db, w.index.hist, keys, through).value, k, block, Ground(c, w, k))
  {
    hide Agreement, VersionsHaveRows, NoneAhead, Unfolded, Refolded, LocalInvariant, PagesInvariant, Truth, Relevant, Started;
    if k in keys {
      BaseWhileFolding(c, w.index, k);
      RefoldedStands(w.db, w.index.hist, keys, through, k, block);
    } else {
      RefoldedVersions(w.db, w.index.hist, keys, through, k);
    }
  }

  /** A key that stands at a block stands there after any step that stores nothing up to there and does not begin or end an import. */
  lemma StepKeepsStands(c: Setting, w: World, a: Action, k: ByteString, block: nat)
    requires WellFormedSetting(c) && Invariant(c, w) && Allowed(c, w, a) && WritesAbove(a, block)
    requires w.index.through.Some? && block <= w.index.through.value
    requires Steady(w.index.genesis, Do(c, w, a).index.genesis) && Stands(c, w, k, block)
    ensures Stands(c, Do(c, w, a), k, block) && Relevant(Do(c, w, a).db, k, block) == Relevant(w.db, k, block)
  {
    hide Agreement, SeedRows, WellFormedHistories, CreatesNoSeed, WalkedRows, VersionsHaveRows, NoneAhead, Unfolded, PassedOver, Inserted,
      Refolded, UnlistedAreLate, UnlistedDoNotStart, UnscannedAreOldOrNew, WellFormedDatabase, PagesInvariant, Truth, Relevant, Started, Writable;
    match a
    case Write(writes) => UntouchedByWrite(c, w, writes, k, block);
    case FoldChunk =>
      if FoldingAllowed(w.index.genesis) && Refolded(w.db, w.index.hist, w.local.keys, w.local.end).Ok? {
        RefoldKeepsStands(c, w, w.local.keys, w.local.end, k, block);
      }
    case RefoldLate =>
      if FoldingAllowed(w.index.genesis) && Refolded(w.db, w.index.hist, w.local.lateKeys, FoldPoint(w.index).value).Ok? {
        RefoldKeepsStands(c, w, w.local.lateKeys, FoldPoint(w.index).value, k, block);
      }
    case _ =>
  }

  ghost predicate NothingStoredBelow(actions: seq<Action>, i: nat, j: nat, block: int) {
    forall m :: i <= m < j && m < |actions| ==> WritesAbove(actions[m], block)
  }

  /** Every key stands at the block. */
  ghost predicate Holds(c: Setting, w: World, block: nat) {
    w.index.through.Some? && block <= w.index.through.value && forall k :: Stands(c, w, k, block)
  }

  lemma StepHolds(c: Setting, w: World, a: Action, block: nat)
    requires WellFormedSetting(c) && Invariant(c, w) && Allowed(c, w, a) && WritesAbove(a, block)
    requires Steady(w.index.genesis, Do(c, w, a).index.genesis) && Holds(c, w, block)
    ensures Holds(c, Do(c, w, a), block) && forall k :: Relevant(Do(c, w, a).db, k, block) == Relevant(w.db, k, block)
  {
    hide Invariant, Allowed, Do, Stands;
    FoldPointStays(c, w, a);
    forall k ensures Stands(c, Do(c, w, a), k, block) && Relevant(Do(c, w, a).db, k, block) == Relevant(w.db, k, block) {
      StepKeepsStands(c, w, a, k, block);
    }
  }

  lemma {:induction false} HoldsAlong(c: Setting, states: seq<World>, actions: seq<Action>, i: nat, j: nat, block: nat)
    requires WellFormedSetting(c) && IsRun(c, states, actions) && StartsClean(c, states[0]) && i <= j < |states|
    requires Holds(c, states[i], block) && NothingStoredBelow(actions, i, j, block)
    requires Steady(states[i].index.genesis, states[j].index.genesis)
    ensures Holds(c, states[j], block) && forall k :: Relevant(states[j].db, k, block) == Relevant(states[i].db, k, block)
    decreases j
  {
    hide Invariant, Allowed, Do, StartsClean, Holds, WritesAbove;
    if i < j {
      var w, a := states[j - 1], actions[j - 1];
      RunsKeepInvariant(c, states, actions, j - 1);
      ImportMovesOn(c, w, a);
      assert states[j] == Do(c, w, a);
      SteadyBefore(c, states, actions, i, j - 1);
      HoldsAlong(c, states, actions, i, j - 1, block);
      StepHolds(c, w, a, block);
    }
  }

  /** An import that is done stays done; one that has not begun had not begun before. */
  lemma {:induction false} SteadyBefore(c: Setting, states: seq<World>, actions: seq<Action>, i: nat, j: nat)
    requires WellFormedSetting(c) && IsRun(c, states, actions) && i <= j < |states|
    ensures states[i].index.genesis.Done? ==> states[j].index.genesis.Done?
    ensures Quiet(states[j].index.genesis) ==> Quiet(states[i].index.genesis)
    decreases j
  {
    hide Allowed, Do;
    if i < j {
      SteadyBefore(c, states, actions, i, j - 1);
      ImportMovesOn(c, states[j - 1], actions[j - 1]);
    }
  }

  /**
   A state that serves a block goes on to: every later ready state of the run
   serves it too, with the same past, as long as nothing is stored at or below
   the block in between and no import completes.
   */
  lemma ServedAlongARun(c: Setting, states: seq<World>, actions: seq<Action>, i: nat, j: nat, block: nat)
    requires WellFormedSetting(c) && IsRun(c, states, actions) && StartsClean(c, states[0]) && i <= j < |states|
    requires Serving(c, states[i], block) && Ready(states[j]) && (states[i].index.genesis.Done? <==> states[j].index.genesis.Done?)
    requires NothingStoredBelow(actions, i, j, block)
    ensures Serving(c, states[j], block) && SamePast(states[i], states[j], block)
  {
    hide Invariant, IsRun, StartsClean, Stands, NothingStoredBelow;
    forall k ensures Stands(c, states[i], k, block) {
      ServedKeyStands(c, states[i], k, block);
    }
    RunsKeepInvariant(c, states, actions, j);
    HoldsAlong(c, states, actions, i, j, block);
  }

  /** When a request's block was resolved and when its statement ran, as moments of a run. */
  datatype Moment = Moment(resolved: nat, served: nat)

  function RequestsAt(states: seq<World>, moments: seq<Moment>): seq<Request>
    requires forall i :: 0 <= i < |moments| ==> moments[i].resolved <= moments[i].served < |states|
  {
    seq(|moments|, i requires 0 <= i < |moments| => Request(states[moments[i].resolved], states[moments[i].served]))
  }

  /**
   So a walk along a run needs only its first statement to be served: each later
   one finds a ready index with the import where it was, and nothing is stored
   at or below the pin before the last.
   */
  lemma WalkAlongARun(c: Setting, states: seq<World>, actions: seq<Action>, moments: seq<Moment>, last: nat, block: nat)
    requires WellFormedSetting(c) && IsRun(c, states, actions) && StartsClean(c, states[0]) && moments != [] && last < |states|
    requires forall i :: 0 <= i < |moments| ==> moments[i].resolved <= moments[i].served && moments[0].served <= moments[i].served <= last
    requires Serving(c, states[moments[0].served], block) && NothingStoredBelow(actions, moments[0].served, last, block)
    requires forall i :: 0 <= i < |moments| ==>
               Ready(states[moments[i].served]) &&
               (states[moments[i].served].index.genesis.Done? <==> states[moments[0].served].index.genesis.Done?)
    ensures Served(c, RequestsAt(states, moments), block)
  {
    hide Serving, SamePast, IsRun, StartsClean, Ready, WritesAbove;
    forall i | 0 <= i < |moments|
      ensures Serving(c, states[moments[i].served], block) && SamePast(states[moments[0].served], states[moments[i].served], block)
    {
      ServedAlongARun(c, states, actions, moments[0].served, moments[i].served, block);
    }
  }

  // ---------------------------------------------------------------------
  // A head read that loses an answer

  const ENTITY: ByteString := [1]

  /** A create that lives to block 1000, and a delete. */
  function BornRow(): OperationRow { OperationRow(0, CREATE, Some(ENTITY), None, [], Some(1000), None, None) }

  function GoneRow(): OperationRow { OperationRow(0, DELETE, Some(ENTITY), None, [], None, None, None) }

  function BornAt(): TxLocation { TxLocation(100, 0) }

  function GoneAt(): TxLocation { TxLocation(101, 0) }

  function Creation(): Database { map[BornAt() := RowTx(BornRow(), 0)] }

  function Deletion(): Database { map[GoneAt() := RowTx(GoneRow(), 0)] }

  function Lifetime(): Database { Creation() + Deletion() }

  function BornOp(): Op { RecordOf(BornAt(), RowTx(BornRow(), 0), BornRow()) }

  function GoneOp(): Op { RecordOf(GoneAt(), RowTx(GoneRow(), 0), GoneRow()) }

  /** The entity as a reader sees it while it lives. */
  function Living(): Version { CreatedBy(ENTITY, BornOp()) }

  lemma BornFolds()
    ensures Truth(ENTITY, Creation(), None) == Ok([Living()])
  {
    hide Fold, LoadedTx, Enumerate;
    var txs := Creation();
    OneRowLoads(BornAt(), BornRow(), 0);
    assert txs[BornAt()] == RowTx(BornRow(), 0) && LoadedTx(BornAt(), txs[BornAt()]) == Ok([BornOp()]);
    assert OpsAmong(ENTITY, txs).value == {BornOp()};
    ListingFoldsToTruth(ENTITY, txs, [BornOp()], None);
    OneFolds();
  }

  lemma OneReplays()
    ensures ReplayAll(ENTITY, Start(None), [BornOp()]) == Ok(Replay([Living()], map[]))
  {
    hide ResolveExpiry;
    assert [BornOp()][..0] == [] && Last([BornOp()]) == BornOp();
    assert ReplayAll(ENTITY, Start(None), []) == Ok(Start(None));
    assert ApplyCells(map[], []) == Ok(map[]) && Listing(map[]) == [];
    assert WithAttributes(Living(), []) == Living();
  }

  lemma OneFolds()
    ensures Fold(ENTITY, [BornOp()], None) == Ok([Living()])
  {
    hide ReplayAll;
    assert SortedOps([BornOp()]) == [BornOp()] by { assert SortedOps([]) == [] && [BornOp()][1..] == []; }
    OneReplays();
  }

  lemma TwoAreSorted()
    ensures SortedOps([BornOp(), GoneOp()]) == [BornOp(), GoneOp()]
  {
    var ops := [BornOp(), GoneOp()];
    assert ops[1..] == [GoneOp()] && ops[1..][1..] == [];
    assert SortedOps([GoneOp()]) == [GoneOp()] by { assert SortedOps([]) == [] && [GoneOp()][1..] == []; }
    assert !Earlier(LocationOf(GoneOp()), LocationOf(BornOp()));
  }

  /** The delete adds a version one block up. */
  lemma TwoFold()
    ensures var fold := Fold(ENTITY, [BornOp(), GoneOp()], None); fold.Ok? && |fold.value| == 2 && fold.value[1].fromBlock == 101
  {
    hide ApplyCells, Listing, SortedOps, ResolveExpiry;
    var ops := [BornOp(), GoneOp()];
    TwoAreSorted();
    OneReplays();
    assert ops[..1] == [BornOp()] && Last(ops) == GoneOp();
  }

  lemma GoneFolds()
    ensures var truth := Truth(ENTITY, Lifetime(), None); truth.Ok? && |truth.value| == 2 && truth.value[1].fromBlock == 101
  {
    hide Fold, LoadedTx, Enumerate;
    var txs := Lifetime();
    OneRowLoads(BornAt(), BornRow(), 0);
    OneRowLoads(GoneAt(), GoneRow(), 0);
    assert LoadedTx(BornAt(), txs[BornAt()]) == Ok([BornOp()]) && LoadedTx(GoneAt(), txs[GoneAt()]) == Ok([GoneOp()]);
    assert BornAt() in txs && GoneAt() in txs;
    assert OpsAmong(ENTITY, txs).value == {BornOp(), GoneOp()};
    ListingFoldsToTruth(ENTITY, txs, [BornOp(), GoneOp()], None);
    TwoFold();
  }

  lemma WhatIsThere()
    ensures WellFormedDatabase(Creation()) && WellFormedDatabase(Lifetime())
    ensures Relevant(Creation(), ENTITY, 100) == Creation() && Relevant(Lifetime(), ENTITY, 100) == Creation()
    ensures Relevant(Lifetime(), ENTITY, 101) == Lifetime()
    ensures forall k :: k != ENTITY ==> Relevant(Creation(), k, 100) == map[]
    ensures KeysTouchedBetween(Creation(), 99, 100) == {ENTITY} && KeysTouchedBetween(Lifetime(), 100, 101) == {ENTITY}
  {
    assert Lifetime()[BornAt()].rows[0].entityKey == Some(ENTITY) && Lifetime()[GoneAt()].rows[0].entityKey == Some(ENTITY);
    assert Creation()[BornAt()].rows[0].entityKey == Some(ENTITY);
    assert BornAt() in Lifetime() && GoneAt() in Lifetime() && BornAt() in Creation();
  }

  /** The whole start and the chunk up to the entity's block; then its delete is stored, and folded. */
  function ReadAtTheHead(): seq<Action> {
    [Detect(100), ReadClock, PutFloor, PutFoldPoint, PutWatermark, PlanChunk(100), FoldChunk,
     Write(Deletion()), PlanChunk(101), FoldChunk]
  }

  /** The histories with the entity alive. */
  ghost function Alive(): Histories { map[ENTITY := [Living()]] }

  /** Refolding one key puts its new versions in, and nothing else. */
  lemma RefoldOfOne(db: Database, hist: Histories, k: ByteString, through: int, vs: seq<Version>)
    requires Renewed(db, hist, k, through) == Ok(vs) && vs != [] && forall j :: j in hist ==> hist[j] != []
    ensures Refolded(db, hist, {k}, through) == Ok(hist[k := vs])
  {
    hide Renewed;
    var after := Refolded(db, hist, {k}, through).value;
    forall j ensures VersionsOf(after, j) == VersionsOf(hist[k := vs], j) {
      RefoldedVersions(db, hist, {k}, through, j);
    }
    HistoriesAgree(after, hist[k := vs]);
  }

  lemma AliveIsFolded()
    ensures Refolded(Creation(), map[], {ENTITY}, 100) == Ok(Alive())
  {
    hide Truth, Living, Creation, Refolded;
    WhatIsThere();
    BornFolds();
    RefoldOfOne(Creation(), map[], ENTITY, 100, [Living()]);
  }

  lemma AliveHasNoBase()
    ensures VersionsOf(Alive(), ENTITY) == [Living()] && BaseOf([Living()]).None?
  {
    hide ResolveExpiry;
  }

  lemma GoneIsFolded()
    ensures var refold := Refolded(Lifetime(), Alive(), {ENTITY}, 101); refold.Ok? && VersionAbove(refold.value, ENTITY, 100)
  {
    hide Truth, Lifetime, Refolded, Living, Relevant, BaseOf;
    WhatIsThere();
    GoneFolds();
    AliveHasNoBase();
    var vs := Truth(ENTITY, Lifetime(), None).value;
    assert Renewed(Lifetime(), Alive(), ENTITY, 101) == Ok(vs);
    RefoldOfOne(Lifetime(), Alive(), ENTITY, 101, vs);
    AboveInPlace(Alive(), vs);
  }

  lemma AboveInPlace(hist: Histories, vs: seq<Version>)
    requires |vs| == 2 && vs[1].fromBlock > 100
    ensures VersionAbove(hist[ENTITY := vs], ENTITY, 100)
  {
    assert VersionsOf(hist[ENTITY := vs], ENTITY)[1].fromBlock > 100;
  }

  /** The world when the head is the entity's block. */
  ghost function Caught(overlap: nat): World {
    World(Creation(), 0, Index(Alive(), Some(100), Some(100), Some(0), Unprobed), Idle, map[], 0,
          PassedOver(Setting([], overlap), Creation(), Index(map[], Some(100), Some(99), None, Unprobed), 0) - {ENTITY})
  }

  lemma StartIsPossible(overlap: nat)
    requires overlap > 0
    ensures var c, w := Setting([], overlap), Initial(Creation(), 0);
            WellFormedSetting(c) && StartsClean(c, w) && Allowed(c, w, Detect(100)) && Writable(c, w, Deletion())
  {
    WhatIsThere();
  }

  /** And when the start is complete, with nothing folded. */
  ghost function Fresh(overlap: nat): World {
    World(Creation(), 0, Index(map[], Some(100), Some(99), Some(0), Unprobed), Idle, map[], 0,
          PassedOver(Setting([], overlap), Creation(), Index(map[], Some(100), Some(99), None, Unprobed), 0))
  }

  lemma StartsUp(overlap: nat) returns (states: seq<World>, actions: seq<Action>)
    requires overlap > 0
    ensures var c := Setting([], overlap);
            WellFormedSetting(c) && |states| == |actions| + 1 && IsRun(c, states, actions) && StartsClean(c, states[0])
    ensures actions == ReadAtTheHead()[..5] && states[|actions|] == Fresh(overlap)
  {
    hide IsRun, Writable, StartsClean, IsFloor, Creation, Deletion, Refolded, PassedOver, KeysTouchedBetween;
    var c, w := Setting([], overlap), Initial(Creation(), 0);
    StartIsPossible(overlap);
    NoSteps(c, w);
    states, actions := Played(c, [w], [], Detect(100));
    states, actions := Played(c, states, actions, ReadClock);
    states, actions := Played(c, states, actions, PutFloor);
    states, actions := Played(c, states, actions, PutFoldPoint);
    states, actions := Played(c, states, actions, PutWatermark);
    var passed := PassedOver(c, Creation(), Index(map[], Some(100), Some(99), None, Unprobed), 0);
    assert {} + passed == passed;
  }

  /** The start, and the chunk up to the entity's block: the head is there. */
  lemma CatchesUp(overlap: nat) returns (states: seq<World>, actions: seq<Action>)
    requires overlap > 0
    ensures var c := Setting([], overlap);
            WellFormedSetting(c) && |states| == |actions| + 1 && IsRun(c, states, actions) && StartsClean(c, states[0])
    ensures actions == ReadAtTheHead()[..7] && states[|actions|] == Caught(overlap)
  {
    hide IsRun, StartsClean, Creation, Deletion, Refolded, PassedOver, KeysTouchedBetween, Alive;
    var c := Setting([], overlap);
    states, actions := StartsUp(overlap);
    WhatIsThere();
    states, actions := Played(c, states, actions, PlanChunk(100));
    assert states[|actions|].local == ChunkPlanned({ENTITY}, 100);
    AliveIsFolded();
    states, actions := Played(c, states, actions, FoldChunk);
  }

  /** There the index serves its head. */
  lemma CaughtServes(overlap: nat, states: seq<World>, actions: seq<Action>)
    requires WellFormedSetting(Setting([], overlap)) && |states| == |actions| + 1 && IsRun(Setting([], overlap), states, actions)
    requires StartsClean(Setting([], overlap), states[0]) && states[|actions|] == Caught(overlap)
    ensures Serving(Setting([], overlap), Caught(overlap), 100)
  {
    hide Invariant, IsRun, StartsClean, PassedOver, Truth, Relevant, Creation;
    var c, w := Setting([], overlap), Caught(overlap);
    RunsKeepInvariant(c, states, actions, |actions|);
    WhatIsThere();
    forall k ensures Stands(c, w, k, 100) {
      if k == ENTITY {
        BornFolds();
        AliveStands();
      } else {
        TruthOfNothing(k, None);
        NothingStarted(100);
      }
    }
  }

  lemma AliveStands()
    ensures Started([Living()], 100) == [Living()]
  {
    hide ResolveExpiry;
    assert Living().fromBlock == 100 && Living().(toBlock := None) == Living();
  }

  /** And then the delete is stored above the head, and folded. */
  lemma MovesOn(overlap: nat, states: seq<World>, actions: seq<Action>) returns (more: seq<World>, done: seq<Action>)
    requires overlap > 0 && WellFormedSetting(Setting([], overlap)) && |states| == |actions| + 1
    requires IsRun(Setting([], overlap), states, actions) && states[|actions|] == Caught(overlap) && actions == ReadAtTheHead()[..7]
    ensures |more| == |done| + 1 && IsRun(Setting([], overlap), more, done) && more[0] == states[0]
    ensures done == ReadAtTheHead() && |done| == 10 && more[7] == Caught(overlap)
    ensures var w := more[10]; w.db == Lifetime() && Ready(w) && w.index.genesis == Unprobed && VersionAbove(w.index.hist, ENTITY, 100)
  {
    hide IsRun, Writable, Creation, Deletion, Lifetime, Refolded, PassedOver, KeysTouchedBetween, Alive, VersionAbove;
    var c := Setting([], overlap);
    DeleteIsWritable(overlap, states[|actions|]);
    more, done := Played(c, states, actions, Write(Deletion()));
    WhatIsThere();
    assert more[|done|].db == Lifetime() by { BothTogether(); }
    more, done := Played(c, more, done, PlanChunk(101));
    assert more[|done|].local == ChunkPlanned({ENTITY}, 101);
    GoneIsFolded();
    more, done := Played(c, more, done, FoldChunk);
    assert more[..|states|] == states;
  }

  lemma BothTogether()
    ensures Creation() + Deletion() == Lifetime()
  {
  }

  lemma DeleteIsWritable(overlap: nat, w: World)
    requires overlap > 0 && w.db == Creation() && w.clock == 0
    ensures Writable(Setting([], overlap), w, Deletion())
  {
  }

  /** The living entity answers at its block: it is live there, and the query takes everything. */
  lemma LivingAnswers(c: Setting, w: World)
    requires w.db == Lifetime() && !w.index.genesis.Done?
    ensures Answering(c, w, All, 100, Living()) && Living().entityKey == ENTITY
  {
    hide Truth, Relevant, Lifetime, Creation;
    WhatIsThere();
    BornFolds();
    assert Living().entityKey == ENTITY && !Living().deleted && Living().expiresAt == 1000;
  }

  /**
   It happens, for any overlap: a reader resolves the head at the entity's block
   and, before its statement runs, the entity's delete one block up is stored
   and folded. The index serves the block, the entity answers there, and the
   head read does not return it; read as the past, it does.
   */
  lemma HeadReadLosesAnAnswer(overlap: nat) returns (states: seq<World>, actions: seq<Action>)
    requires overlap > 0
    ensures var c := Setting([], overlap);
            WellFormedSetting(c) && |states| == |actions| + 1 && IsRun(c, states, actions) && StartsClean(c, states[0]) &&
            actions == ReadAtTheHead()
    ensures |states| == 11 && ResolveBlock(states[7].index, false, None) == Ok(ResolvedBlock(100, true))
    ensures var c, w := Setting([], overlap), states[10];
            Serving(c, w, 100) && Answering(c, w, All, 100, Living()) &&
            Living() !in Returned(w, All, 100, true) && Living() in Returned(w, All, 100, false)
  {
    hide IsRun, StartsClean, Serving, Caught, VersionAbove, Answering, ReadAtTheHead, Lifetime, Returned, Ready, Living;
    var c := Setting([], overlap);
    var upTo, taken := CatchesUp(overlap);
    CaughtServes(overlap, upTo, taken);
    states, actions := MovesOn(overlap, upTo, taken);
    AtTheHead(overlap);
    StepsAfterTheHead();
    ServedAlongARun(c, states, actions, 7, 10, 100);
    LivingAnswers(c, states[10]);
    ReturnedExactly(c, states[10], All, 100, true, Living());
    ReturnedExactly(c, states[10], All, 100, false, Living());
  }

  lemma AtTheHead(overlap: nat)
    ensures ResolveBlock(Caught(overlap).index, false, None) == Ok(ResolvedBlock(100, true)) && !Caught(overlap).index.genesis.Done?
  {
    hide PassedOver;
  }

  lemma StepsAfterTheHead()
    ensures |ReadAtTheHead()| == 10 && NothingStoredBelow(ReadAtTheHead(), 7, 10, 100)
  {
  }
}
