/**
 The projector as a state machine (src/entityProjector.ts): one projector
 process, interleaved step by step with a scanner that writes forward, late
 and over old rows, with genesis importers, with other backends' repair pages,
 and with crashes. Each action is one database transaction, or one read whose
 answer is carried to a later transaction. The invariant ties the tables, at every moment of every
 run, to the fold of everything stored up to the fold point.
 */
module Projector {
  import opened Wrappers
  import opened ByteStrings
  import opened EntityIndex
  import opened FoldProperties
  import opened EventPairing
  import opened IndexStorage
  import opened IndexTables
  import opened StoredPast

  /**
   Where the genesis import stands. `Repair(after)` has refolded every genesis
   key with operations up to `after`; the empty key comes before all keys.
   */
  datatype Genesis =
    | Unprobed | NoneFound | Waiting | Unavailable | Failed
    | Walk(imported: nat)
    | Repair(after: ByteString)
    | Done

  /** The tables, and the stored progress: four rows written one by one. */
  datatype Index = Index(hist: Histories, floor: Option<nat>, through: Option<int>, watermark: Option<int>, genesis: Genesis)

  /** `progress.projectedThroughBlock ?? progress.floorBlock - 1n`: where the fold stands, also when a start was cut short. */
  function FoldPoint(index: Index): Option<int> {
    if index.through.Some? then index.through
    else if index.floor.Some? then Some(index.floor.value - 1)
    else None
  }

  /** The last block the index answers for; a fold point below the first block covers the genesis state alone. */
  function Covered(index: Index): nat
    requires FoldPoint(index).Some?
  {
    if FoldPoint(index).value < 0 then 0 else FoldPoint(index).value
  }

  /** What the projector holds between two of its transactions. */
  datatype Local =
    | Idle
    | Detected(floor: nat)
    | Starting(floor: nat, now: int)
    | FloorPut(floor: nat, now: int)
    | FoldPointPut(now: int)
    | ChunkPlanned(keys: set<ByteString>, end: int)
    | LateStarted(now: int)
    | LateRead(now: int, lateKeys: set<ByteString>)
    | LateRefolded(now: int)

  /** A page of genesis keys some backend has read to refold: past which key, up to which block. */
  datatype PageRead = PageRead(after: ByteString, through: int, page: seq<ByteString>, limit: nat)

  /**
   Any number of backends may hold a repair page each. Two components record
   history and are read by no action: when the floor was last detected, and the
   keys the first watermark passed over, until they are refolded.
   */
  datatype World = World(
    db: Database, clock: int, index: Index, local: Local, pages: map<nat, PageRead>, detectedAt: int, overlooked: set<ByteString>)

  /** The node's block-0 entities in id order, as versions; and the late scan's overlap. */
  datatype Setting = Setting(seed: seq<Version>, overlap: nat)

  datatype Action =
    | Write(writes: Database)
    | Advance(clock: int)
    | Detect(floor: nat)
    | ReadClock
    | PutFloor
    | PutFoldPoint
    | PutWatermark
    | PlanChunk(end: int)
    | FoldChunk
    | StartLate
    | FirstWatermark
    | ReadLate
    | RefoldLate
    | FinishLate
    | Probe(found: Genesis)
    | CommitWalk(imported: nat, finished: bool)
    | RestartWalk
    | FailWalk
    | OpenRepair
    | ReadRepair(b: nat, page: seq<ByteString>, limit: nat)
    | CommitRepair(b: nat)
    | Crash

  // ---------------------------------------------------------------------
  // What each action reads and writes

  ghost predicate IsSeedKey(c: Setting, k: ByteString) {
    exists i :: 0 <= i < |c.seed| && c.seed[i].entityKey == k
  }

  ghost function SeedOf(c: Setting, k: ByteString): Option<Version> {
    if IsSeedKey(c, k) then
      var i :| 0 <= i < |c.seed| && c.seed[i].entityKey == k;
      Some(c.seed[i])
    else None
  }

  ghost predicate WellFormedSetting(c: Setting) {
    (forall i :: 0 <= i < |c.seed| ==> Canonical(c.seed[i]) && c.seed[i].entityKey != []) &&
    (forall i, j :: 0 <= i < j < |c.seed| ==> c.seed[i].entityKey != c.seed[j].entityKey)
  }

  /** No operation creates an entity the chain was born with. */
  ghost predicate CreatesNoSeed(c: Setting, db: Database) {
    forall at, i :: at in db && 0 <= i < |db[at].rows| ==> RowCreatesNoSeed(c, db[at].rows[i])
  }

  ghost predicate RowCreatesNoSeed(c: Setting, row: OperationRow) {
    row.operationType == CREATE && row.entityKey.Some? ==> !IsSeedKey(c, row.entityKey.value)
  }

  /**
   What the scanner, the backfill and the gap filler may commit: new rows, or
   rows in place of old ones that still touch every key the old ones touched;
   each commit comes within the overlap of the time stamped on its rows.
   */
  ghost predicate Writable(c: Setting, w: World, writes: Database) {
    && WellFormedDatabase(writes) && CreatesNoSeed(c, writes)
    && (forall at :: at in writes ==> writes[at].scannedAt <= w.clock < writes[at].scannedAt + c.overlap)
    && (forall at, k :: at in writes && at in w.db && Touches(w.db[at], k) ==> Touches(writes[at], k))
  }

  /** Entity keys with an operation in `(after, end]`. */
  function KeysTouchedBetween(db: Database, after: int, end: int): set<ByteString> {
    set at, i | at in db && after < at.block <= end && 0 <= i < |db[at].rows| && db[at].rows[i].entityKey.Some? ::
      db[at].rows[i].entityKey.value
  }

  /** Entity keys whose operations at or below `through` were written after `since`. */
  function KeysScannedSince(db: Database, since: int, through: int): set<ByteString> {
    set at, i | at in db && db[at].scannedAt > since && at.block <= through && 0 <= i < |db[at].rows| && db[at].rows[i].entityKey.Some? ::
      db[at].rows[i].entityKey.value
  }

  /** A genesis key past `after` with an operation at or below the fold point. */
  ghost predicate RepairCandidate(db: Database, hist: Histories, through: int, after: ByteString, k: ByteString) {
    BaseOf(VersionsOf(hist, k)).Some? && Before(after, k) && Relevant(db, k, through) != map[]
  }

  /** `genesisKeysWithOperations`: the first candidates in key order, at most `limit` of them. */
  ghost predicate IsRepairPage(db: Database, hist: Histories, through: int, after: ByteString, page: seq<ByteString>, limit: nat) {
    && |page| <= limit
    && (forall i, j :: 0 <= i < j < |page| ==> Before(page[i], page[j]))
    && (forall i :: 0 <= i < |page| ==> RepairCandidate(db, hist, through, after, page[i]))
    && (forall k :: RepairCandidate(db, hist, through, after, k) && k !in page ==>
          |page| == limit && forall i :: 0 <= i < |page| ==> Before(page[i], k))
  }

  /** The fold transactions stand down while an import owns the index. */
  predicate FoldingAllowed(g: Genesis) {
    g.Unprobed? || g.NoneFound? || g.Done?
  }

  /** No keyed create is stored below the floor. */
  ghost predicate IsFloor(db: Database, floor: nat) {
    forall at, i :: at in db && at.block < floor && 0 <= i < |db[at].rows| && db[at].rows[i].entityKey.Some? ==>
      db[at].rows[i].operationType != CREATE
  }

  /** `projectedThroughBlock ?? 0n`: the block a repair folds up to. */
  function RepairPoint(index: Index): int { index.through.Else(0) }

  /**
   The start detects a floor, reads the clock, and then writes floor, fold point
   and watermark one after the other; a crash may come between any two of them.
   A tick that finds a floor does not start again: its late scan comes first,
   and writes the watermark that is missing.
   */
  ghost predicate Allowed(c: Setting, w: World, a: Action) {
    match a
    case Write(writes) => Writable(c, w, writes)
    case Advance(clock) => w.clock <= clock
    case Detect(floor) =>
      w.local == Idle && w.index.floor.None? && !w.index.genesis.Walk? && !w.index.genesis.Repair? && IsFloor(w.db, floor)
    case ReadClock => w.local.Detected?
    case PutFloor => w.local.Starting?
    case PutFoldPoint => w.local.FloorPut?
    case PutWatermark => w.local.FoldPointPut?
    case PlanChunk(end) =>
      w.local == Idle && w.index.watermark.Some? && FoldPoint(w.index).Some? && FoldPoint(w.index).value < end
    case FoldChunk => w.local.ChunkPlanned?
    case StartLate => w.local == Idle && FoldPoint(w.index).Some?
    case FirstWatermark => w.local.LateStarted? && w.index.watermark.None?
    case ReadLate => w.local.LateStarted? && w.index.watermark.Some? && FoldPoint(w.index).Some?
    case RefoldLate => w.local.LateRead? && FoldPoint(w.index).Some?
    case FinishLate => w.local.LateRefolded?
    case Probe(found) =>
      (w.index.genesis.Unprobed? || w.index.genesis.NoneFound? || w.index.genesis.Waiting? || w.index.genesis.Unavailable?) &&
      (found == NoneFound || found == Waiting || found == Unavailable || found == Failed || found == Walk(0))
    case CommitWalk(imported, finished) =>
      w.index.genesis.Walk? && w.index.genesis.imported <= imported <= |c.seed| && (finished ==> imported == |c.seed|)
    case RestartWalk => w.index.genesis.Walk?
    case FailWalk => w.index.genesis.Walk? || w.index.genesis.Repair?
    case OpenRepair => w.local == Idle && w.index.genesis.Repair?
    case ReadRepair(_, page, limit) =>
      w.index.genesis.Repair? && w.index.floor == Some(0) && limit > 0 &&
      IsRepairPage(w.db, w.index.hist, RepairPoint(w.index), w.index.genesis.after, page, limit)
    case CommitRepair(b) => b in w.pages
    case Crash => true
  }

  /** The refold's effect on the index, none when it faults: the transaction rolls back. */
  ghost function RefoldIndex(w: World, keys: set<ByteString>, through: int): Outcome<Index> {
    var after :- Refolded(w.db, w.index.hist, keys, through);
    Ok(w.index.(hist := after))
  }

  /** The first watermark is stored; keys it passes over are on record from here on. */
  ghost function Marked(c: Setting, w: World, index: Index, watermark: int): World {
    w.(index := index.(watermark := Some(watermark)), local := Idle,
       overlooked := w.overlooked + PassedOver(c, w.db, index, watermark))
  }

  ghost function Do(c: Setting, w: World, a: Action): World
    requires Allowed(c, w, a) && WellFormedSetting(c)
  {
    match a
    case Write(writes) => w.(db := w.db + writes)
    case Advance(clock) => w.(clock := clock)
    case Detect(floor) => w.(local := Detected(floor), detectedAt := w.clock)
    case ReadClock => w.(local := Starting(w.local.floor, w.clock))
    case PutFloor => w.(index := w.index.(floor := Some(w.local.floor)), local := FloorPut(w.local.floor, w.local.now))
    case PutFoldPoint => w.(index := w.index.(through := Some(w.local.floor - 1)), local := FoldPointPut(w.local.now))
    case PutWatermark => Marked(c, w, w.index, w.local.now)
    case PlanChunk(end) => w.(local := ChunkPlanned(KeysTouchedBetween(w.db, FoldPoint(w.index).value, end), end))
    case FoldChunk =>
      var refold := RefoldIndex(w, w.local.keys, w.local.end);
      if !FoldingAllowed(w.index.genesis) || refold.Fault? then w.(local := Idle)
      else w.(index := refold.value.(through := Some(w.local.end)), local := Idle, overlooked := w.overlooked - w.local.keys)
    case StartLate => w.(local := LateStarted(w.clock))
    case FirstWatermark => Marked(c, w, w.index, w.local.now)
    case ReadLate =>
      w.(local := LateRead(w.local.now, KeysScannedSince(w.db, w.index.watermark.value - c.overlap, FoldPoint(w.index).value)))
    case RefoldLate =>
      if w.local.lateKeys == {} then w.(local := LateRefolded(w.local.now)) else
      var refold := RefoldIndex(w, w.local.lateKeys, FoldPoint(w.index).value);
      if !FoldingAllowed(w.index.genesis) || refold.Fault? then w.(local := Idle)
      else w.(index := refold.value, local := LateRefolded(w.local.now), overlooked := w.overlooked - w.local.lateKeys)
    case FinishLate => w.(index := w.index.(watermark := Some(w.local.now)), local := Idle)
    case Probe(found) => w.(index := w.index.(genesis := found))
    case CommitWalk(imported, finished) => w.(index := Imported(c, w.index, imported, finished))
    case RestartWalk => w.(index := w.index.(genesis := Walk(0)))
    case FailWalk => w.(index := w.index.(genesis := Failed))
    case OpenRepair =>
      if w.index.floor == Some(0) then w else
      var index := w.index.(floor := Some(0), through := if w.index.through.None? then Some(0) else w.index.through);
      if index.watermark.Some? then w.(index := index) else Marked(c, w, index, w.clock)
    case ReadRepair(b, page, limit) =>
      w.(pages := w.pages[b := PageRead(w.index.genesis.after, RepairPoint(w.index), page, limit)])
    case CommitRepair(b) =>
      var read := w.pages[b];
      var refold := RefoldIndex(w, KeySet(read.page), read.through);
      if w.index.genesis != Repair(read.after) || refold.Fault? then w.(pages := w.pages - {b})
      else w.(index := refold.value.(genesis := AfterPage(read.page, read.limit)), pages := w.pages - {b},
              overlooked := w.overlooked - KeySet(read.page))
    case Crash => w.(local := Idle)
  }

  /** A short page is the last one. */
  function AfterPage(page: seq<ByteString>, limit: nat): Genesis {
    if |page| < limit || page == [] then Done else Repair(Last(page))
  }

  /** The walk's rows go in, and with the last page's the import is handed to the repair. */
  ghost function Imported(c: Setting, index: Index, imported: nat, finished: bool): Index
    requires WellFormedSetting(c) && index.genesis.Walk? && index.genesis.imported <= imported <= |c.seed|
  {
    index.(hist := Inserted(index.hist, c.seed[index.genesis.imported..imported]),
           genesis := if finished then Repair([]) else Walk(imported))
  }

  // ---------------------------------------------------------------------
  // Standing for the fold, block by block

  /** A row of the key at or below the block was stamped after the mark, less the overlap. */
  ghost predicate Pending(c: Setting, db: Database, block: int, mark: int, k: ByteString) {
    exists at :: at in db && at.block <= block && Touches(db[at], k) && db[at].scannedAt > mark - c.overlap
  }

  /**
   At this block the key's stored versions are the fold of what is stored up to
   there: those started by then, the last of them open. Or its receipts cannot
   be read, and nothing is stored.
   */
  ghost predicate StandsAt(db: Database, hist: Histories, k: ByteString, block: nat, base: Option<Version>) {
    var truth := Truth(k, Relevant(db, k, block), base);
    truth == Ok(Started(VersionsOf(hist, k), block)) || (truth.Fault? && VersionsOf(hist, k) == [])
  }

  /** The genesis state a key's fold stands on, once the import has got to it. */
  ghost function BaseFor(c: Setting, g: Genesis, k: ByteString): Option<Version> {
    if g.Done? || (g.Repair? && AtMost(k, g.after)) then SeedOf(c, k) else None
  }

  /** Keys the index answers for: all of them, except genesis keys an import has yet to refold. */
  ghost predicate Vouched(c: Setting, g: Genesis, k: ByteString) {
    !IsSeedKey(c, k) || FoldingAllowed(g) || g.Waiting? || g.Unavailable? || (g.Repair? && AtMost(k, g.after))
  }

  /** At this block a key stands for its fold, or the next late scan reads it. */
  ghost predicate StandsOrWaits(c: Setting, db: Database, index: Index, mark: int, k: ByteString, block: nat) {
    StandsAt(db, index.hist, k, block, BaseFor(c, index.genesis, k)) || Pending(c, db, block, mark, k)
  }

  /** At every block covered, each key stands for its fold, or waits for the late scan, or was passed over by the first watermark. */
  ghost predicate Agreement(c: Setting, db: Database, index: Index, mark: int, overlooked: set<ByteString>)
    requires FoldPoint(index).Some?
  {
    forall k, block: nat :: Vouched(c, index.genesis, k) && block <= Covered(index) && k !in overlooked ==>
      StandsOrWaits(c, db, index, mark, k, block)
  }

  /** A watermark set now would leave the key wrong at some block, and no late scan would read it. */
  ghost predicate IsPassedOver(c: Setting, db: Database, index: Index, watermark: int, k: ByteString)
    requires FoldPoint(index).Some?
  {
    Vouched(c, index.genesis, k) && exists block: nat :: block <= Covered(index) && !StandsOrWaits(c, db, index, watermark, k, block)
  }

  /** The keys with stored rows that a watermark passes over. */
  ghost function PassedOver(c: Setting, db: Database, index: Index, watermark: int): set<ByteString> {
    set at, i | at in db && 0 <= i < |db[at].rows| && db[at].rows[i].entityKey.Some? && FoldPoint(index).Some? &&
                IsPassedOver(c, db, index, watermark, db[at].rows[i].entityKey.value) :: db[at].rows[i].entityKey.value
  }

  /** What the next late scan reads on from; before the first watermark nothing after the detection has been read. */
  function Mark(w: World): int {
    if w.index.watermark.Some? then w.index.watermark.value else w.detectedAt
  }

  // ---------------------------------------------------------------------
  // The invariant

  /** The genesis rows: none before an import, the seed's own while it runs, their histories' start afterwards. */
  ghost predicate SeedRows(c: Setting, index: Index) {
    forall k ::
      var vs := VersionsOf(index.hist, k);
      if !IsSeedKey(c, k) then BaseOf(vs).None?
      else if index.genesis.Walk? then vs == [] || Some(vs) == Alone(c, k)
      else if index.genesis.Failed? then vs == [] || Opened(BaseOf(vs)) == SeedOf(c, k)
      else if index.genesis.Repair? then
        (if AtMost(k, index.genesis.after) then Opened(BaseOf(vs)) == SeedOf(c, k) else Some(vs) == Alone(c, k))
      else if index.genesis.Done? then Opened(BaseOf(vs)) == SeedOf(c, k)
      else vs == []
  }

  ghost function Alone(c: Setting, k: ByteString): Option<seq<Version>> {
    if SeedOf(c, k).None? then None else Some([SeedOf(c, k).value])
  }

  /** Nothing is folded yet: a key has no versions, or its genesis state alone. */
  ghost predicate Unfolded(c: Setting, hist: Histories) {
    forall k :: VersionsOf(hist, k) == [] || Some(VersionsOf(hist, k)) == Alone(c, k)
  }

  /** A walk that counts `imported` entities has that prefix of the node's order in the table. */
  ghost predicate WalkedRows(c: Setting, index: Index) {
    index.genesis.Walk? ==>
      index.genesis.imported <= |c.seed| &&
      forall i :: 0 <= i < index.genesis.imported ==> VersionsOf(index.hist, c.seed[i].entityKey) == [c.seed[i]]
  }

  /** Every stored version but a genesis state was made at a block that still has a row of its key. */
  ghost predicate VersionsHaveRows(db: Database, hist: Histories) {
    forall k :: StandOnRows(db, k, VersionsOf(hist, k))
  }

  /** A block is before all of an entity's versions, or after the start of all of them. */
  predicate OnOneSide(vs: seq<Version>, block: nat) {
    (forall i :: 0 <= i < |vs| ==> vs[i].fromBlock <= block) || (forall i :: 0 <= i < |vs| ==> vs[i].fromBlock > block)
  }

  /** No entity's versions lie on both sides of what is covered. */
  ghost predicate NoneAhead(index: Index)
    requires FoldPoint(index).Some?
  {
    forall k :: OnOneSide(VersionsOf(index.hist, k), Covered(index))
  }

  /** Rows of unplanned keys that reached a planned chunk's blocks are recent enough for the next late scan. */
  ghost predicate UnlistedAreLate(c: Setting, db: Database, keys: set<ByteString>, after: int, end: int, watermark: int) {
    forall at, k :: at in db && after < at.block <= end && Touches(db[at], k) && k !in keys ==>
      db[at].scannedAt > watermark - c.overlap
  }

  /** No version of an unplanned key starts in a planned chunk. */
  ghost predicate UnlistedDoNotStart(hist: Histories, keys: set<ByteString>, after: nat, end: int) {
    forall k, i :: k !in keys && 0 <= i < |VersionsOf(hist, k)| ==> !(after < VersionsOf(hist, k)[i].fromBlock <= end)
  }

  /** Rows of keys a late scan did not list are older than it looked, or newer than it will claim to have looked. */
  ghost predicate UnscannedAreOldOrNew(c: Setting, db: Database, keys: set<ByteString>, through: int, watermark: int, now: int) {
    forall at, k :: at in db && at.block <= through && Touches(db[at], k) && k !in keys ==>
      db[at].scannedAt <= watermark - c.overlap || db[at].scannedAt > now - c.overlap
  }

  /** Genesis keys a repair page passes over have no operations, or ones the next late scan will see. */
  ghost predicate SkippedAreLate(c: Setting, db: Database, after: ByteString, page: seq<ByteString>, limit: nat, through: int, watermark: int) {
    forall at, k :: at in db && at.block <= through && Touches(db[at], k) && IsSeedKey(c, k) && Before(after, k) && k !in page &&
                    (|page| < limit || page == [] || AtMost(k, Last(page))) ==>
      db[at].scannedAt > watermark - c.overlap
  }

  /** A repair page that is still the next one: it holds up to what is covered, and is empty while nothing is folded. */
  ghost predicate PageStands(c: Setting, w: World, p: PageRead, mark: int) {
    && (forall i :: 0 <= i < |p.page| ==> IsSeedKey(c, p.page[i]) && Before(p.after, p.page[i]))
    && (forall i, j :: 0 <= i < j < |p.page| ==> Before(p.page[i], p.page[j]))
    && FoldPoint(w.index).Some? && (if p.through < 0 then 0 else p.through) == Covered(w.index)
    && SkippedAreLate(c, w.db, p.after, p.page, p.limit, p.through, mark)
    && (w.index.watermark.None? ==> p.page == [])
  }

  /** The repair has gone on past this key, or is over; it never comes back to it. */
  predicate HasPassed(g: Genesis, after: ByteString) {
    g.Done? || g.Failed? || (g.Repair? && Before(after, g.after))
  }

  /** Every page that was read stands, or the repair has passed it. */
  ghost predicate PagesStand(c: Setting, w: World, mark: int) {
    forall b :: b in w.pages ==> PageHolds(c, w, w.pages[b], mark)
  }

  /** Also relative to the watermark a late scan is about to store. */
  ghost predicate PagesInvariant(c: Setting, w: World) {
    PagesStand(c, w, Mark(w)) && (w.local.LateRefolded? ==> PagesStand(c, w, w.local.now))
  }

  ghost predicate PageHolds(c: Setting, w: World, p: PageRead, mark: int) {
    w.index.floor == Some(0) && p.limit > 0 &&
    (HasPassed(w.index.genesis, p.after) || (w.index.genesis == Repair(p.after) && PageStands(c, w, p, mark)))
  }

  ghost predicate LocalInvariant(c: Setting, w: World) {
    match w.local
    case Idle => true
    case Detected(floor) => w.index.floor.None? && DetectedStands(c, w, floor)
    case Starting(floor, now) => w.index.floor.None? && DetectedStands(c, w, floor) && w.detectedAt <= now <= w.clock
    case FloorPut(floor, now) =>
      w.index.floor == Some(floor) && w.index.through.None? && w.index.watermark.None? && w.detectedAt <= now <= w.clock
    case FoldPointPut(now) => FoldPoint(w.index).Some? && w.index.watermark.None? && w.detectedAt <= now <= w.clock
    case ChunkPlanned(keys, end) =>
      FoldPoint(w.index).Some? && w.index.watermark.Some? && FoldPoint(w.index).value < end &&
      UnlistedAreLate(c, w.db, keys, FoldPoint(w.index).value, end, w.index.watermark.value) &&
      UnlistedDoNotStart(w.index.hist, keys, Covered(w.index), end)
    case LateStarted(now) => FoldPoint(w.index).Some? && Mark(w) <= now <= w.clock
    case LateRead(now, keys) =>
      FoldPoint(w.index).Some? && w.index.watermark.Some? && w.index.watermark.value <= now <= w.clock &&
      UnscannedAreOldOrNew(c, w.db, keys, FoldPoint(w.index).value, w.index.watermark.value, now)
    case LateRefolded(now) =>
      FoldPoint(w.index).Some? && w.index.watermark.Some? && w.index.watermark.value <= now <= w.clock &&
      Agreement(c, w.db, w.index, now, w.overlooked)
  }

  /** With this floor every key would stand, but for rows written since it was detected. */
  ghost predicate DetectedStands(c: Setting, w: World, floor: nat) {
    w.index.through.None? && w.index.watermark.None? && w.overlooked == {} &&
    Agreement(c, w.db, w.index.(floor := Some(floor)), w.detectedAt, {})
  }

  /** How far the stored progress and the import have come together. */
  ghost predicate Progress(w: World) {
    && (w.index.floor.None? ==> w.index.through.None?)
    && (w.index.watermark.Some? ==> FoldPoint(w.index).Some?)
    && Mark(w) <= w.clock
    && (w.index.watermark.None? ==> w.overlooked == {})
    && (w.index.genesis.Done? || (w.index.genesis.Repair? && w.index.genesis.after != []) ==> w.index.floor == Some(0))
    && (w.index.watermark.None? && w.index.floor == Some(0) ==> Covered(w.index) == 0)
  }

  ghost predicate Invariant(c: Setting, w: World) {
    && WellFormedDatabase(w.db) && CreatesNoSeed(c, w.db)
    && WellFormedHistories(w.index.hist) && VersionsHaveRows(w.db, w.index.hist)
    && SeedRows(c, w.index) && WalkedRows(c, w.index)
    && Progress(w)
    && (w.index.watermark.None? ==> Unfolded(c, w.index.hist))
    && (FoldPoint(w.index).Some? ==> NoneAhead(w.index) && Agreement(c, w.db, w.index, Mark(w), w.overlooked))
    && LocalInvariant(c, w) && PagesInvariant(c, w)
  }

  ghost function Initial(db: Database, clock: int): World {
    World(db, clock, Index(map[], None, None, None, Unprobed), Idle, map[], clock, {})
  }
}
