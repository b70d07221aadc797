/**
 The projector as the source writes it (src/entityProjector.ts): loops over a
 stored state row and two tables. Every method is tied to the state machine's
 actions and keeps its invariant.
 */
module EntityProjector {
  import opened Wrappers
  import opened ByteStrings
  import opened EntityIndex
  import opened FoldProperties
  import opened IndexStorage
  import opened IndexTables
  import opened StoredPast
  import opened Projector
  import opened ProjectorRuns
  import opened ProjectorTheorems

  /** Blocks with operations a chunk plan looks at. */
  const CHUNK_PLAN_BLOCKS := 5_000

  predicate Distinct(keys: seq<ByteString>) {
    forall i, j :: 0 <= i < j < |keys| ==> keys[i] != keys[j]
  }

  /** Keyed operation rows in `(after, end]`. */
  function OpsBetween(db: Database, after: int, end: int): nat {
    |set at, i | at in db && after < at.block <= end && 0 <= i < |db[at].rows| && db[at].rows[i].entityKey.Some? :: (at, i)|
  }

  /** A set of keys as a list, in no particular order. */
  method Listed(keys: set<ByteString>) returns (list: seq<ByteString>)
    ensures KeySet(list) == keys && Distinct(list)
  {
    list := [];
    var left := keys;
    while left != {}
      invariant left <= keys && KeySet(list) == keys - left && Distinct(list)
      decreases |left|
    {
      var k :| k in left;
      assert k !in KeySet(list);
      assert KeySet(list + [k]) == KeySet(list) + {k};
      list, left := list + [k], left - {k};
    }
  }

  /**
   `planChunkEnd`: the block at which roughly `maxOps` operations have
   accumulated, the last of the planned blocks, or the head.
   */
  method PlanChunkEnd(db: Database, after: int, head: int, maxOps: nat) returns (end: int)
    requires after < head
    ensures after < end <= head
    ensures forall b :: after < b < end && OpsBetween(db, b - 1, b) > 0 ==> Total(db, after, b) < maxOps && Filled(db, after, b) < CHUNK_PLAN_BLOCKS
    ensures end < head ==> OpsBetween(db, end - 1, end) > 0
    ensures end < head ==> Total(db, after, end) >= maxOps || Filled(db, after, end) == CHUNK_PLAN_BLOCKS
  {
    var total, filled := 0, 0;
    end := after;
    while end < head
      invariant after <= end <= head
      invariant total == Total(db, after, end) && filled == Filled(db, after, end) < CHUNK_PLAN_BLOCKS
      invariant forall b :: after < b <= end && OpsBetween(db, b - 1, b) > 0 ==> Total(db, after, b) < maxOps && Filled(db, after, b) < CHUNK_PLAN_BLOCKS
    {
      end := end + 1;
      var ops := OpsBetween(db, end - 1, end);
      if ops > 0 {
        total, filled := total + ops, filled + 1;
        if total >= maxOps || filled == CHUNK_PLAN_BLOCKS {
          return;
        }
      }
    }
  }

  function Total(db: Database, after: int, end: int): nat
    decreases end - after
  {
    if end <= after then 0 else Total(db, after, end - 1) + OpsBetween(db, end - 1, end)
  }

  function Filled(db: Database, after: int, end: int): nat
    decreases end - after
  {
    if end <= after then 0 else Filled(db, after, end - 1) + (if OpsBetween(db, end - 1, end) > 0 then 1 else 0)
  }

  /** A page in key order, ahead of all the keys it leaves. */
  ghost predicate PageSoFar(all: set<ByteString>, page: seq<ByteString>, left: set<ByteString>) {
    && (forall i, j :: 0 <= i < j < |page| ==> Before(page[i], page[j]))
    && (forall k :: k in all <==> k in page || k in left)
    && (forall i, k :: 0 <= i < |page| && k in left ==> Before(page[i], k))
  }

  lemma PageGrows(all: set<ByteString>, page: seq<ByteString>, left: set<ByteString>, k: ByteString)
    requires PageSoFar(all, page, left) && IsLeast(k, left)
    ensures PageSoFar(all, page + [k], left - {k})
  {
    var next := page + [k];
    forall j ensures j in all <==> j in next || j in left - {k} {
      assert j in next <==> j in page || j == k;
    }
    forall i, j | 0 <= i < |next| && j in left - {k} ensures Before(next[i], j) {
      assert AtMost(k, j);
    }
  }

  // ---------------------------------------------------------------------
  // When refolds cannot fail

  /** A genesis state read back closed or open folds alike. */
  lemma TruthOnOpened(k: ByteString, txs: Database, base: Option<Version>)
    ensures Truth(k, txs, Opened(base)) == Truth(k, txs, base)
  {
    assert Start(Opened(base)) == Start(base);
  }

  /** Where every key's operations up to some block fold, so do those up to any earlier block. */
  lemma EarlierFolds(db: Database, hist: Histories, keys: set<ByteString>, through: int, head: int)
    requires WellFormedDatabase(db) && WellFormedHistories(hist) && through <= head
    requires forall k :: k in keys ==> Truth(k, Relevant(db, k, head), Opened(BaseOf(VersionsOf(hist, k)))).Ok?
    ensures Refolded(db, hist, keys, through).Ok?
  {
    hide Truth, Relevant, WellFormedHistories, Started, Opened;
    forall k | k in keys ensures Renewed(db, hist, k, through).Ok? {
      var base := BaseOf(VersionsOf(hist, k));
      StoredBaseIsWellFormed(hist, k);
      CutBelowOne(db, k, through);
      CutBelowOne(db, k, head);
      TruthInThePast(db, k, if head < 0 then 0 else head, if through < 0 then 0 else through, Opened(base));
      TruthOnOpened(k, Relevant(db, k, through), base);
    }
  }

  /** Every key's operations up to the head fold on its genesis state. */
  ghost predicate AllFold(c: Setting, db: Database, g: Genesis, head: int) {
    forall k :: Truth(k, Relevant(db, k, head), BaseFor(c, g, k)).Ok?
  }

  lemma ChunksFold(c: Setting, w: World, keys: set<ByteString>, chunkEnd: int, head: int)
    requires WellFormedSetting(c) && Invariant(c, w) && FoldingAllowed(w.index.genesis)
    requires AllFold(c, w.db, w.index.genesis, head) && chunkEnd <= head
    ensures Refolded(w.db, w.index.hist, keys, chunkEnd).Ok?
  {
    hide Truth, Relevant, SeedRows, Agreement, NoneAhead, VersionsHaveRows, Unfolded, Refolded;
    forall k | k in keys ensures Truth(k, Relevant(w.db, k, head), Opened(BaseOf(VersionsOf(w.index.hist, k)))).Ok? {
      BaseWhileFolding(c, w.index, k);
    }
    EarlierFolds(w.db, w.index.hist, keys, chunkEnd, head);
  }

  /** Every genesis entity's operations up to a block fold on it. */
  ghost predicate SeedFolds(c: Setting, db: Database, through: int) {
    forall i :: 0 <= i < |c.seed| ==> Truth(c.seed[i].entityKey, Relevant(db, c.seed[i].entityKey, through), Some(c.seed[i])).Ok?
  }

  lemma PagesFold(c: Setting, w: World, page: seq<ByteString>, limit: nat)
    requires WellFormedSetting(c) && Invariant(c, w) && Allowed(c, w, ReadRepair(0, page, limit))
    requires SeedFolds(c, w.db, RepairPoint(w.index))
    ensures Refolded(w.db, w.index.hist, KeySet(page), RepairPoint(w.index)).Ok?
  {
    hide Truth, Relevant, Agreement, NoneAhead, VersionsHaveRows, Unfolded, Refolded, SeedRows, SkippedAreLate, IsRepairPage;
    PageKeysAreSeed(c, w, 0, page, limit);
    forall k | k in KeySet(page) ensures Truth(k, Relevant(w.db, k, RepairPoint(w.index)), Opened(BaseOf(VersionsOf(w.index.hist, k)))).Ok? {
      var i :| 0 <= i < |page| && page[i] == k;
      assert IsSeedKey(c, page[i]);
      StoredSeed(c, w, k);
      var j :| 0 <= j < |c.seed| && c.seed[j].entityKey == k;
      SeedOfIsSeed(c, j);
    }
    EarlierFolds(w.db, w.index.hist, KeySet(page), RepairPoint(w.index), RepairPoint(w.index));
  }

  /** What a late scan has read by its transaction. */
  lemma ScanIsRead(c: Setting, w: World)
    requires WellFormedSetting(c) && Invariant(c, w) && w.local == Idle && FoldPoint(w.index).Some? && w.index.watermark.Some?
    ensures var read := w.(local := LateRead(w.clock, KeysScannedSince(w.db, w.index.watermark.value - c.overlap, FoldPoint(w.index).value)));
            Invariant(c, read) && Allowed(c, read, RefoldLate) && Invariant(c, Do(c, read, RefoldLate))
  {
    hide Invariant, KeysScannedSince, Refolded;
    var started := Do(c, w, StartLate);
    StepKeepsInvariant(c, w, StartLate);
    StepKeepsInvariant(c, started, ReadLate);
    StepKeepsInvariant(c, Do(c, started, ReadLate), RefoldLate);
  }

  lemma ScanIsFinished(c: Setting, w: World)
    requires WellFormedSetting(c) && Invariant(c, w) && w.local.LateRefolded?
    ensures FoldPoint(w.index).Some?
    ensures var index := w.index.(watermark := Some(w.local.now));
            Invariant(c, w.(index := index, local := Idle)) && Agreement(c, w.db, index, w.local.now, w.overlooked)
  {
    hide Agreement, WellFormedHistories, VersionsHaveRows, SeedRows, CreatesNoSeed, WellFormedDatabase, NoneAhead, Unfolded;
    StepKeepsInvariant(c, w, FinishLate);
    SameAgreement(c, w.db, w.index, w.index.(watermark := Some(w.local.now)), w.local.now, w.overlooked);
  }

  /** The page this projector holds, in a world where no other does. */
  ghost function WithPage(w: World, page: seq<ByteString>, limit: nat): World
    requires w.index.genesis.Repair?
  {
    w.(pages := map[0 := PageRead(w.index.genesis.after, RepairPoint(w.index), page, limit)])
  }

  /** A repair page that was read: its commit keeps the invariant, ends the repair or leaves fewer keys, and cannot fail where the seed folds. */
  lemma PageIsRead(c: Setting, w: World, page: seq<ByteString>, limit: nat)
    requires WellFormedSetting(c) && Invariant(c, w) && Allowed(c, w, ReadRepair(0, page, limit)) && w.pages == map[]
    ensures var read := WithPage(w, page, limit);
            Invariant(c, read) && Invariant(c, Do(c, read, CommitRepair(0))) && Distinct(page) &&
            var refold := Refolded(w.db, w.index.hist, KeySet(page), RepairPoint(w.index));
            (SeedFolds(c, w.db, RepairPoint(w.index)) ==> refold.Ok?) &&
            (refold.Ok? && !AfterPage(page, limit).Done? ==>
               |Unrepaired(c, AfterPage(page, limit))| < |Unrepaired(c, w.index.genesis)|)
  {
    hide Invariant, SeedFolds, Refolded, Unrepaired;
    ReadRepairKeepsInvariant(c, w, 0, page, limit);
    var read := WithPage(w, page, limit);
    assert read == Do(c, w, ReadRepair(0, page, limit));
    CommitRepairKeepsInvariant(c, read, 0);
    AscendingKeysDiffer(page);
    if SeedFolds(c, w.db, RepairPoint(w.index)) { PagesFold(c, w, page, limit); }
    if Repairing(c, read, 0) { RepairLeavesFewer(c, read, 0); }
  }

  class EntityProjector {
    const storage: EntityIndexStorage
    const maxOpsPerChunk: nat
    const batchEntities: nat
    var floor: Option<nat>
    var through: Option<int>
    var watermark: Option<int>
    var genesis: Genesis
    /** What the machine keeps on record of the run. */
    ghost var detectedAt: int
    ghost var overlooked: set<ByteString>

    ghost predicate Valid()
      reads this, storage
    {
      storage.Valid() && batchEntities > 0
    }

    ghost function Stored(): Index
      reads this, storage
    {
      Index(storage.hist, floor, through, watermark, genesis)
    }

    /** The stored state, tables and rows together, as the machine sees it where no other backend holds a page. */
    ghost function At(db: Database, clock: int, local: Local): World
      reads this, storage
    {
      World(db, clock, Stored(), local, map[], detectedAt, overlooked)
    }

    constructor (storage: EntityIndexStorage, maxOpsPerChunk: nat, batchEntities: nat, ghost clock: int)
      requires storage.Valid() && batchEntities > 0
      ensures Valid() && this.storage == storage
      ensures floor == None && through == None && watermark == None && genesis == Unprobed && detectedAt == clock && overlooked == {}
    {
      this.storage, this.maxOpsPerChunk, this.batchEntities := storage, maxOpsPerChunk, batchEntities;
      floor, through, watermark, genesis := None, None, None, Unprobed;
      detectedAt, overlooked := clock, {};
    }

    /** `foldChunk`: refold the chunk's keys and record the fold point, in one transaction. */
    method FoldChunk(ghost c: Setting, db: Database, ghost clock: int, keys: seq<ByteString>, chunkEnd: int) returns (folded: bool)
      requires Valid() && WellFormedDatabase(db) && WellFormedSetting(c) && Distinct(keys)
      modifies this, storage
      ensures Valid()
      ensures At(db, clock, Idle) == Do(c, old(At(db, clock, ChunkPlanned(KeySet(keys), chunkEnd))), Action.FoldChunk)
      ensures folded <==> FoldingAllowed(genesis) && Refolded(db, old(storage.hist), KeySet(keys), chunkEnd).Ok?
      ensures folded ==> through == Some(chunkEnd)
      ensures !folded ==> through == old(through)
      ensures floor == old(floor) && watermark == old(watermark) && genesis == old(genesis)
    {
      if !FoldingAllowed(genesis) { return false; }
      folded := storage.RefoldInTransaction(db, keys, chunkEnd);
      if folded {
        through := Some(chunkEnd);
        overlooked := overlooked - KeySet(keys);
      }
    }

    /**
     The tick's fold loop, chunk after chunk until the head is reached, the
     budget is spent or a fold fails. Whatever the chunk sizes, what it leaves
     is the fold up to the fold point; and with a budget of a chunk a block it
     reaches the head, where everything folds.
     */
    method FoldToHead(ghost c: Setting, db: Database, ghost clock: int, head: int, budget: nat) returns (reached: bool)
      requires WellFormedSetting(c) && Valid() && Invariant(c, At(db, clock, Idle))
      requires FoldPoint(Stored()).Some? && watermark.Some?
      modifies this, storage
      ensures Valid() && Invariant(c, At(db, clock, Idle)) && FoldPoint(Stored()).Some?
      ensures floor == old(floor) && watermark == old(watermark) && genesis == old(genesis)
      ensures reached <==> FoldPoint(Stored()).value >= head
      ensures old(FoldPoint(Stored())).value <= FoldPoint(Stored()).value
      ensures old(FoldPoint(Stored())).value <= head ==> FoldPoint(Stored()).value <= head
      ensures FoldingAllowed(genesis) && AllFold(c, db, genesis, head) && head - old(FoldPoint(Stored())).value <= budget ==> reached
    {
      hide Invariant, AllFold, KeysTouchedBetween, Refolded, FoldingAllowed, WellFormedSetting;
      var spent := 0;
      var sofar := if through.Some? then through.value else floor.value - 1;
      ghost var began := sofar;
      while sofar < head && spent < budget
        invariant Valid() && Invariant(c, At(db, clock, Idle)) && FoldPoint(Stored()) == Some(sofar)
        invariant floor == old(floor) && watermark == old(watermark) && genesis == old(genesis)
        invariant began + spent <= sofar && (began <= head ==> sofar <= head)
        decreases budget - spent
      {
        assert WellFormedDatabase(db) by { InvariantHasHistories(c, At(db, clock, Idle)); }
        var chunkEnd := PlanChunkEnd(db, sofar, head, maxOpsPerChunk);
        var keys := Listed(KeysTouchedBetween(db, sofar, chunkEnd));
        ghost var planned := At(db, clock, ChunkPlanned(KeySet(keys), chunkEnd));
        PlanChunkKeepsInvariant(c, At(db, clock, Idle), chunkEnd);
        assert planned == Do(c, At(db, clock, Idle), PlanChunk(chunkEnd));
        FoldChunkKeepsInvariant(c, planned);
        if FoldingAllowed(genesis) && AllFold(c, db, genesis, head) { ChunksFold(c, At(db, clock, Idle), KeySet(keys), chunkEnd, head); }
        var folded := FoldChunk(c, db, clock, keys, chunkEnd);
        if !folded { return false; }
        sofar := chunkEnd;
        spent := spent + 1;
      }
      return sofar >= head;
    }

    /** The late scan's transaction: nothing to do without keys, otherwise the refold, if folding is allowed. */
    method RefoldLateKeys(ghost c: Setting, db: Database, now: int, keys: seq<ByteString>, foldedThrough: int) returns (done: bool)
      requires WellFormedSetting(c) && Valid() && WellFormedDatabase(db) && Distinct(keys) && FoldPoint(Stored()) == Some(foldedThrough)
      modifies this, storage
      ensures Valid()
      ensures At(db, now, if done then LateRefolded(now) else Idle) == Do(c, old(At(db, now, LateRead(now, KeySet(keys)))), RefoldLate)
      ensures done <==> KeySet(keys) == {} || (FoldingAllowed(genesis) && Refolded(db, old(storage.hist), KeySet(keys), foldedThrough).Ok?)
      ensures floor == old(floor) && through == old(through) && watermark == old(watermark) && genesis == old(genesis)
    {
      hide PassedOver, KeysScannedSince, IsVersionTable, IsAttributeTable;
      if keys == [] {
        assert KeySet(keys) == {};
        return true;
      }
      assert keys[0] in KeySet(keys);
      if !FoldingAllowed(genesis) { return false; }
      done := storage.RefoldInTransaction(db, keys, foldedThrough);
      if done { overlooked := overlooked - KeySet(keys); }
    }

    /** The keys the next late scan lists. */
    ghost function LateKeys(db: Database, overlap: nat): set<ByteString>
      requires watermark.Some? && FoldPoint(Stored()).Some?
      reads this, storage
    {
      KeysScannedSince(db, watermark.value - overlap, FoldPoint(Stored()).value)
    }

    /** A late scan that finds no watermark stores when it began. */
    method PutFirstWatermark(ghost c: Setting, db: Database, now: int)
      requires WellFormedSetting(c) && Valid() && Invariant(c, At(db, now, Idle)) && FoldPoint(Stored()).Some? && watermark.None?
      modifies this
      ensures Valid() && Invariant(c, At(db, now, Idle)) && FoldPoint(Stored()).Some? && Agreement(c, db, Stored(), now, overlooked)
      ensures floor == old(floor) && through == old(through) && genesis == old(genesis) && watermark == Some(now)
      ensures overlooked == PassedOver(c, db, old(Stored()), now)
    {
      hide PassedOver, Agreement, SeedRows, NoneAhead, VersionsHaveRows, Unfolded, WellFormedHistories;
      ghost var started := Do(c, At(db, now, Idle), StartLate);
      StepKeepsInvariant(c, At(db, now, Idle), StartLate);
      StepKeepsInvariant(c, started, FirstWatermark);
      ghost var passed := PassedOver(c, db, Stored(), now);
      assert overlooked + passed == passed;
      watermark, overlooked := Some(now), passed;
      assert At(db, now, Idle) == Do(c, started, FirstWatermark);
    }

    /**
     `refoldLateArrivals`: without a watermark it stores one and is done;
     otherwise it completes exactly when there is nothing to refold or all of it
     folds, and then leaves nothing waiting but rows stamped within the overlap
     of its start.
     */
    method RefoldLateArrivals(ghost c: Setting, db: Database, now: int, overlap: nat) returns (done: bool)
      requires WellFormedSetting(c) && overlap == c.overlap
      requires Valid() && Invariant(c, At(db, now, Idle)) && FoldPoint(Stored()).Some?
      modifies this, storage
      ensures Valid() && Invariant(c, At(db, now, Idle))
      ensures floor == old(floor) && through == old(through) && genesis == old(genesis)
      ensures watermark == if done then Some(now) else old(watermark)
      ensures done ==> Agreement(c, db, Stored(), now, overlooked)
      ensures done <==>
              old(watermark).None? || old(LateKeys(db, overlap)) == {} ||
              (FoldingAllowed(genesis) && Refolded(db, old(storage.hist), old(LateKeys(db, overlap)), old(FoldPoint(Stored())).value).Ok?)
      ensures old(watermark).None? ==> storage.hist == old(storage.hist) && overlooked == PassedOver(c, db, old(Stored()), now)
    {
      hide KeysScannedSince, Refolded, FoldingAllowed, WellFormedSetting, Agreement, Invariant, PassedOver;
      if watermark.None? {
        PutFirstWatermark(c, db, now);
        return true;
      }
      assert WellFormedDatabase(db) by { InvariantHasHistories(c, At(db, now, Idle)); }
      var foldedThrough := if through.Some? then through.value else floor.value - 1;
      var keys := Listed(KeysScannedSince(db, watermark.value - overlap, foldedThrough));
      ghost var read := At(db, now, LateRead(now, KeySet(keys)));
      ScanIsRead(c, At(db, now, Idle));
      done := RefoldLateKeys(c, db, now, keys, foldedThrough);
      if done {
        ScanIsFinished(c, At(db, now, LateRefolded(now)));
        watermark := Some(now);
      }
    }

    /** The genesis keys past `after` with an operation at or below the fold point. */
    method RepairCandidates(db: Database, throughBlock: int, after: ByteString) returns (found: set<ByteString>)
      requires Valid()
      ensures forall k :: RepairCandidate(db, storage.hist, throughBlock, after, k) <==> k in found
    {
      found := set id | id in storage.versions && id.version == 0 && storage.versions[id].fromBlock == 0 &&
                        Before(after, id.key) && Relevant(db, id.key, throughBlock) != map[] :: id.key;
      forall k ensures k in found <==> VersionId(k, 0) in storage.versions && storage.versions[VersionId(k, 0)].fromBlock == 0 &&
                                       Before(after, k) && Relevant(db, k, throughBlock) != map[]
      {
        assert VersionId(k, 0).key == k;
      }
      CandidatesAreStored(db, throughBlock, after, found);
    }

    /** `genesisKeysWithOperations`: the first `limit` candidates past `after`, in key order. */
    method GenesisKeysWithOperations(db: Database, throughBlock: int, after: ByteString, limit: nat) returns (page: seq<ByteString>)
      requires Valid()
      ensures IsRepairPage(db, storage.hist, throughBlock, after, page, limit)
    {
      var left := RepairCandidates(db, throughBlock, after);
      ghost var all := left;
      page := [];
      while left != {} && |page| < limit
        invariant PageSoFar(all, page, left) && |page| <= limit
        decreases |left|
      {
        var k := LeastOf(left);
        PageGrows(all, page, left, k);
        page, left := page + [k], left - {k};
      }
      forall k | RepairCandidate(db, storage.hist, throughBlock, after, k) && k !in page
        ensures |page| == limit && forall i :: 0 <= i < |page| ==> Before(page[i], k)
      {
        assert k in all;
      }
      forall i | 0 <= i < |page| ensures RepairCandidate(db, storage.hist, throughBlock, after, page[i]) {
        assert page[i] in all;
      }
    }

    lemma CandidatesAreStored(db: Database, throughBlock: int, after: ByteString, found: set<ByteString>)
      requires Valid()
      requires forall k :: k in found <==> VersionId(k, 0) in storage.versions && storage.versions[VersionId(k, 0)].fromBlock == 0 &&
                                           Before(after, k) && Relevant(db, k, throughBlock) != map[]
      ensures forall k :: RepairCandidate(db, storage.hist, throughBlock, after, k) <==> k in found
    {
      forall k ensures BaseOf(VersionsOf(storage.hist, k)).Some? <==>
                       VersionId(k, 0) in storage.versions && storage.versions[VersionId(k, 0)].fromBlock == 0
      {
        assert VersionId(k, 0) in storage.versions ==> Recorded(storage.hist, storage.versions[VersionId(k, 0)]);
        if k in storage.hist {
          assert WellFormedVersions(k, storage.hist[k]);
          assert Recorded(storage.hist, storage.hist[k][0]);
        }
      }
    }

    /**
     `repairGenesis` past its opening transaction: pages of genesis keys,
     refolded and recorded one transaction each, until the last page, a spent
     budget or a failed fold. With a budget of a page a key, and one more, it
     finishes, where every genesis entity's operations fold.
     */
    method RepairGenesis(ghost c: Setting, db: Database, ghost clock: int, budget: nat) returns (done: bool)
      requires WellFormedSetting(c)
      requires Valid() && Invariant(c, At(db, clock, Idle)) && genesis.Repair? && floor == Some(0)
      modifies this, storage
      ensures Valid() && Invariant(c, At(db, clock, Idle))
      ensures floor == old(floor) && through == old(through) && watermark == old(watermark)
      ensures done <==> genesis == Done
      ensures !done ==> genesis.Repair?
      ensures SeedFolds(c, db, RepairPoint(Stored())) && |Unrepaired(c, old(genesis))| < budget ==> done
    {
      hide Invariant, IsRepairPage, SeedFolds, Refolded, Unrepaired, WellFormedSetting, Do;
      var spent := 0;
      var foldedThrough := if through.Some? then through.value else 0;
      while spent < budget
        invariant Valid() && Invariant(c, At(db, clock, Idle)) && genesis.Repair? && RepairPoint(Stored()) == foldedThrough
        invariant floor == old(floor) && through == old(through) && watermark == old(watermark)
        invariant |Unrepaired(c, genesis)| + spent <= |Unrepaired(c, old(genesis))|
      {
        assert WellFormedDatabase(db) by { InvariantHasHistories(c, At(db, clock, Idle)); }
        var page := GenesisKeysWithOperations(db, foldedThrough, genesis.after, batchEntities);
        PageIsRead(c, At(db, clock, Idle), page, batchEntities);
        var refolded := CommitPage(c, db, clock, page, foldedThrough);
        if !refolded { return false; }
        if genesis.Done? { return true; }
        spent := spent + 1;
      }
      return false;
    }

    /** One page's transaction: its keys refolded, and the key to go on from recorded with them. */
    method CommitPage(ghost c: Setting, db: Database, ghost clock: int, page: seq<ByteString>, foldedThrough: int) returns (refolded: bool)
      requires WellFormedSetting(c) && Valid() && WellFormedDatabase(db) && Distinct(page)
      requires genesis.Repair? && RepairPoint(Stored()) == foldedThrough
      modifies this, storage
      ensures Valid()
      ensures At(db, clock, Idle) == Do(c, old(WithPage(At(db, clock, Idle), page, batchEntities)), CommitRepair(0))
      ensures refolded <==> Refolded(db, old(storage.hist), KeySet(page), foldedThrough).Ok?
      ensures genesis == if refolded then AfterPage(page, batchEntities) else old(genesis)
      ensures floor == old(floor) && through == old(through) && watermark == old(watermark)
    {
      hide Refolded, PassedOver, IsVersionTable, IsAttributeTable;
      refolded := storage.RefoldInTransaction(db, page, foldedThrough);
      if refolded { genesis, overlooked := AfterPage(page, batchEntities), overlooked - KeySet(page); }
    }
  }

  lemma RepairLeavesFewer(c: Setting, w: World, b: nat)
    requires Repairing(c, w, b)
    ensures var g := Do(c, w, CommitRepair(b)).index.genesis;
            g.Done? || |Unrepaired(c, g)| < |Unrepaired(c, w.index.genesis)|
  {
    hide Invariant, Unrepaired;
    RepairProgresses(c, w, b);
    var g := Do(c, w, CommitRepair(b)).index.genesis;
    if !g.Done? { FewerIsLess(Unrepaired(c, g), Unrepaired(c, w.index.genesis)); }
  }

  lemma FewerIsLess(a: set<ByteString>, b: set<ByteString>)
    requires a < b
    ensures |a| < |b|
  {
    var rest := b - a;
    assert b == a + rest && rest != {};
  }

  lemma AscendingKeysDiffer(page: seq<ByteString>)
    requires forall i, j :: 0 <= i < j < |page| ==> Before(page[i], page[j])
    ensures Distinct(page)
  {
    forall i, j | 0 <= i < j < |page| ensures page[i] != page[j] {
      BeforeIsIrreflexive(page[i]);
    }
  }
}
