/**
 The projection tables and their refolding (src/entityIndexStorage.ts): which
 stored transactions an entity's history is folded from, the batched refold,
 and the two tables (versions, and their attributes flattened) it writes.
 */
module IndexStorage {
  import opened Wrappers
  import opened ByteStrings
  import opened EntityIndex
  import opened FoldProperties
  import opened EventPairing

  // ---------------------------------------------------------------------
  // The scanner's tables, read only

  datatype TxLocation = TxLocation(block: nat, position: nat)

  /** A stored transaction: its operation rows and receipt logs, and when they were written. */
  datatype Tx = Tx(rows: seq<OperationRow>, reverted: bool, sender: Option<ByteString>, logs: seq<Log>, scannedAt: int)

  type Database = map<TxLocation, Tx>

  predicate Touches(tx: Tx, key: ByteString) {
    exists i :: 0 <= i < |tx.rows| && tx.rows[i].entityKey == Some(key)
  }

  /** Block 0 carries no transaction, and a transaction's rows are numbered in order. */
  ghost predicate WellFormedDatabase(db: Database) {
    forall at :: at in db ==>
      at.block >= 1 && forall i, j :: 0 <= i < j < |db[at].rows| ==> db[at].rows[i].opIndex < db[at].rows[j].opIndex
  }

  /** The transactions at or below a block that touch a key. */
  function Relevant(db: Database, key: ByteString, through: int): Database {
    map at | at in db && at.block <= through && Touches(db[at], key) :: db[at]
  }

  function RecordOf(at: TxLocation, tx: Tx, row: OperationRow): Op
    requires row.entityKey.Some? && tx.sender.Some?
  {
    Op(at.block, at.position, row.opIndex, row.operationType, row.entityKey.value, Lower(tx.sender.value),
       row.creationFlags, row.attributes, row.expiresAt, row.minLifetime, row.newOwner, None)
  }

  /** The applied operations of a transaction: none when it reverted or has no sender, and no keyless ones. */
  function RecordsOf(at: TxLocation, tx: Tx, n: nat): seq<Op>
    requires n <= |tx.rows|
  {
    if n == 0 then []
    else
      var row := tx.rows[n - 1];
      RecordsOf(at, tx, n - 1) +
      (if tx.reverted || row.entityKey.None? || tx.sender.None? then [] else [RecordOf(at, tx, row)])
  }

  /** Applied are exactly the keyed rows of a transaction that succeeded and whose sender is known. */
  lemma {:induction false} RecordsAreApplied(at: TxLocation, tx: Tx, n: nat, o: Op)
    requires n <= |tx.rows|
    ensures o in RecordsOf(at, tx, n) <==>
            !tx.reverted && tx.sender.Some? &&
            exists i :: 0 <= i < n && tx.rows[i].entityKey.Some? && o == RecordOf(at, tx, tx.rows[i])
  {
    if n > 0 { RecordsAreApplied(at, tx, n - 1, o); }
  }

  /** The whole transaction's operations, each with the event its receipt announced for it. */
  function LoadedTx(at: TxLocation, tx: Tx): Outcome<seq<Op>> {
    Attached(RecordsOf(at, tx, |tx.rows|), tx.logs)
  }

  // ---------------------------------------------------------------------
  // An entity's operations and the history they fold to

  /** Every applied operation on a key among some transactions; faults when one of their receipts does. */
  ghost function OpsAmong(key: ByteString, txs: Database): Outcome<set<Op>> {
    if exists at :: at in txs && LoadedTx(at, txs[at]).Fault? then Fault
    else Ok(set at, o | at in txs && o in LoadedTx(at, txs[at]).value && o.entityKey == key :: o)
  }

  ghost function Enumerate(ops: set<Op>): (s: seq<Op>)
    ensures forall o :: o in s <==> o in ops
    ensures forall i, j :: 0 <= i < j < |s| ==> s[i] != s[j]
    decreases |ops|
  {
    if ops == {} then []
    else
      var o :| o in ops;
      var rest := Enumerate(ops - {o});
      assert o !in rest;
      [o] + rest
  }

  /** What the index should hold for a key: its operations among these transactions, folded on its genesis state. */
  ghost function Truth(key: ByteString, txs: Database, base: Option<Version>): Outcome<seq<Version>> {
    var ops :- OpsAmong(key, txs);
    Fold(key, Enumerate(ops), base)
  }

  lemma {:induction false} RecordsShape(at: TxLocation, tx: Tx, n: nat)
    requires n <= |tx.rows|
    requires forall i, j :: 0 <= i < j < |tx.rows| ==> tx.rows[i].opIndex < tx.rows[j].opIndex
    ensures forall i, j :: 0 <= i < j < |RecordsOf(at, tx, n)| ==> RecordsOf(at, tx, n)[i].opIndex < RecordsOf(at, tx, n)[j].opIndex
    ensures forall o :: o in RecordsOf(at, tx, n) ==>
              o.block == at.block && o.position == at.position && o.event.None? &&
              exists i :: 0 <= i < n && tx.rows[i].opIndex == o.opIndex && tx.rows[i].entityKey == Some(o.entityKey) &&
                          tx.rows[i].operationType == o.operationType
  {
    if n > 0 {
      RecordsShape(at, tx, n - 1);
      var before := RecordsOf(at, tx, n - 1);
      forall i | 0 <= i < |before| ensures before[i].opIndex < tx.rows[n - 1].opIndex {
        assert before[i] in before;
      }
    }
  }

  /** Each loaded operation comes from a row of its transaction; events change neither place, key nor kind. */
  ghost predicate FromRow(o: Op, at: TxLocation, tx: Tx) {
    o.block == at.block && o.position == at.position &&
    exists i :: 0 <= i < |tx.rows| && tx.rows[i].opIndex == o.opIndex && tx.rows[i].entityKey == Some(o.entityKey) &&
                tx.rows[i].operationType == o.operationType
  }

  lemma LoadedShape(at: TxLocation, tx: Tx)
    requires forall i, j :: 0 <= i < j < |tx.rows| ==> tx.rows[i].opIndex < tx.rows[j].opIndex
    requires LoadedTx(at, tx).Ok?
    ensures var ops := LoadedTx(at, tx).value;
            (forall i, j :: 0 <= i < j < |ops| ==> ops[i].opIndex < ops[j].opIndex) &&
            (forall o :: o in ops ==> FromRow(o, at, tx))
  {
    var records, ops := RecordsOf(at, tx, |tx.rows|), LoadedTx(at, tx).value;
    RecordsShape(at, tx, |tx.rows|);
    AttachedOneByOne(records, tx.logs);
    forall o | o in ops ensures FromRow(o, at, tx) {
      var i :| 0 <= i < |ops| && ops[i] == o;
      assert records[i] in records;
    }
  }

  lemma SamePlaceSameOp(at: TxLocation, tx: Tx, a: Op, b: Op)
    requires forall i, j :: 0 <= i < j < |tx.rows| ==> tx.rows[i].opIndex < tx.rows[j].opIndex
    requires LoadedTx(at, tx).Ok? && a in LoadedTx(at, tx).value && b in LoadedTx(at, tx).value
    ensures a.opIndex == b.opIndex ==> a == b
  {
    LoadedShape(at, tx);
    var ops := LoadedTx(at, tx).value;
    var i :| 0 <= i < |ops| && ops[i] == a;
    var j :| 0 <= j < |ops| && ops[j] == b;
  }

  /** The operations of a key have distinct places above block 0. */
  lemma OpsAmongAreWellFormed(key: ByteString, txs: Database)
    requires WellFormedDatabase(txs) && OpsAmong(key, txs).Ok?
    ensures WellFormedOps(Enumerate(OpsAmong(key, txs).value))
  {
    var s := Enumerate(OpsAmong(key, txs).value);
    forall o | o in s ensures exists at :: at in txs && o in LoadedTx(at, txs[at]).value && FromRow(o, at, txs[at]) {
      var at :| at in txs && o in LoadedTx(at, txs[at]).value && o.entityKey == key;
      LoadedShape(at, txs[at]);
    }
    forall i, j | 0 <= i < j < |s| ensures LocationOf(s[i]) != LocationOf(s[j]) {
      assert s[i] in s && s[j] in s;
      var at :| at in txs && s[i] in LoadedTx(at, txs[at]).value && FromRow(s[i], at, txs[at]);
      var at' :| at' in txs && s[j] in LoadedTx(at', txs[at']).value && FromRow(s[j], at', txs[at']);
      if at == at' {
        SamePlaceSameOp(at, txs[at], s[i], s[j]);
      }
    }
  }

  /** Any duplicate-free listing of a key's operations folds to the truth. */
  lemma ListingFoldsToTruth(key: ByteString, txs: Database, listed: seq<Op>, base: Option<Version>)
    requires WellFormedDatabase(txs) && OpsAmong(key, txs).Ok?
    requires DistinctLocations(listed) && forall o :: o in listed <==> o in OpsAmong(key, txs).value
    ensures Fold(key, listed, base) == Truth(key, txs, base)
  {
    OpsAmongAreWellFormed(key, txs);
    FoldIgnoresOrder(key, listed, Enumerate(OpsAmong(key, txs).value), base);
  }

  // ---------------------------------------------------------------------
  // Histories, and refolding them

  /** Each known key's versions, oldest first; a key with no version is absent. */
  type Histories = map<ByteString, seq<Version>>

  function VersionsOf(hist: Histories, key: ByteString): seq<Version> {
    if key in hist then hist[key] else []
  }

  /** The stored genesis state a refold starts from: the version 0 row at block 0. */
  function BaseOf(vs: seq<Version>): Option<Version> {
    if vs != [] && vs[0].fromBlock == 0 then Some(vs[0]) else None
  }

  ghost function Renewed(db: Database, hist: Histories, key: ByteString, through: int): Outcome<seq<Version>> {
    Truth(key, Relevant(db, key, through), BaseOf(VersionsOf(hist, key)))
  }

  /** The histories once the given keys are refolded up to a block; the whole refold faults if one key's does. */
  ghost function Refolded(db: Database, hist: Histories, keys: set<ByteString>, through: int): Outcome<Histories> {
    if exists k :: k in keys && Renewed(db, hist, k, through).Fault? then Fault
    else Ok(map k | k in hist.Keys + keys && Next(db, hist, keys, through, k) != [] :: Next(db, hist, keys, through, k))
  }

  ghost function Next(db: Database, hist: Histories, keys: set<ByteString>, through: int, k: ByteString): seq<Version>
    requires k in keys ==> Renewed(db, hist, k, through).Ok?
  {
    if k in keys then Renewed(db, hist, k, through).value else VersionsOf(hist, k)
  }

  lemma RefoldedVersions(db: Database, hist: Histories, keys: set<ByteString>, through: int, k: ByteString)
    requires Refolded(db, hist, keys, through).Ok?
    ensures k in keys ==> Renewed(db, hist, k, through) == Ok(VersionsOf(Refolded(db, hist, keys, through).value, k))
    ensures k !in keys ==> VersionsOf(Refolded(db, hist, keys, through).value, k) == VersionsOf(hist, k)
  {
  }

  /** Two histories that never store an empty list are equal when they agree on every key. */
  lemma HistoriesAgree(a: Histories, b: Histories)
    requires forall k :: k in a ==> a[k] != []
    requires forall k :: k in b ==> b[k] != []
    requires forall k :: VersionsOf(a, k) == VersionsOf(b, k)
    ensures a == b
  {
    forall k ensures k in a <==> k in b {
      assert VersionsOf(a, k) == VersionsOf(b, k);
    }
    forall k | k in a ensures a[k] == b[k] {
      assert VersionsOf(a, k) == VersionsOf(b, k);
    }
  }

  /**
   Keys are independent: refolding one set and then another, disjoint one is
   refolding both at once, faults included. So neither the batch width nor how
   the key list is cut changes what a refold ends in.
   */
  lemma RefoldInTwo(db: Database, hist: Histories, first: set<ByteString>, second: set<ByteString>, through: int)
    requires first !! second
    requires Refolded(db, hist, first, through).Ok?
    ensures Refolded(db, Refolded(db, hist, first, through).value, second, through) ==
            Refolded(db, hist, first + second, through)
  {
    var mid := Refolded(db, hist, first, through).value;
    var both := first + second;
    forall k | k in second ensures Renewed(db, mid, k, through) == Renewed(db, hist, k, through) {
      RefoldedVersions(db, hist, first, through, k);
    }
    if exists k :: k in both && Renewed(db, hist, k, through).Fault? {
      var k :| k in both && Renewed(db, hist, k, through).Fault?;
      assert k in second && Renewed(db, mid, k, through).Fault?;
    } else {
      assert Refolded(db, mid, second, through).Ok?;
      var one, two := Refolded(db, hist, both, through).value, Refolded(db, mid, second, through).value;
      forall k ensures VersionsOf(one, k) == VersionsOf(two, k) {
        RefoldedVersions(db, hist, first, through, k);
        RefoldedVersions(db, mid, second, through, k);
        RefoldedVersions(db, hist, both, through, k);
      }
      HistoriesAgree(one, two);
    }
  }

  /** A fault in a first part is a fault of the whole. */
  lemma RefoldFaultsEarly(db: Database, hist: Histories, part: set<ByteString>, all: set<ByteString>, through: int)
    requires part <= all && Refolded(db, hist, part, through).Fault?
    ensures Refolded(db, hist, all, through).Fault?
  {
    var k :| k in part && Renewed(db, hist, k, through).Fault?;
    assert k in all;
  }

  function KeySet(keys: seq<ByteString>): set<ByteString> {
    set k | k in keys
  }

  // ---------------------------------------------------------------------
  // The tables

  datatype VersionId = VersionId(key: ByteString, version: nat)
  datatype AttributeId = AttributeId(key: ByteString, version: nat, name: ByteString)

  /** `current` mirrors "latest and not deleted". */
  datatype AttributeRow = AttributeRow(attribute: Attribute, current: bool)

  type VersionTable = map<VersionId, Version>
  type AttributeTable = map<AttributeId, AttributeRow>

  function IdOf(v: Version): VersionId { VersionId(v.entityKey, v.version) }

  function RowOf(v: Version, a: Attribute): AttributeRow { AttributeRow(a, v.toBlock.None? && !v.deleted) }

  function AttributeIdOf(v: Version, a: Attribute): AttributeId { AttributeId(v.entityKey, v.version, a.name) }

  /** Each stored list is a history, and one that starts at block 0 starts with a canonical genesis state. */
  ghost predicate WellFormedHistories(hist: Histories) {
    forall k :: k in hist ==> hist[k] != [] && WellFormedVersions(k, hist[k])
  }

  ghost predicate WellFormedVersions(key: ByteString, vs: seq<Version>) {
    History(key, vs) && (BaseOf(vs).Some? ==> Canonical(vs[0].(toBlock := None)))
  }

  /** The stored genesis state as it was imported, before later versions closed it. */
  function Opened(base: Option<Version>): Option<Version> {
    if base.None? then None else Some(base.value.(toBlock := None))
  }

  /** A refold of well-formed versions is well-formed, and leaves the genesis state as it was. */
  lemma RenewedIsWellFormed(db: Database, hist: Histories, key: ByteString, through: int)
    requires WellFormedDatabase(db) && WellFormedHistories(hist)
    requires Renewed(db, hist, key, through).Ok?
    ensures var vs, base := Renewed(db, hist, key, through).value, BaseOf(VersionsOf(hist, key));
            WellFormedVersions(key, vs) && Opened(BaseOf(vs)) == Opened(base) &&
            Truth(key, Relevant(db, key, through), Opened(base)) == Ok(vs)
  {
    var base := BaseOf(VersionsOf(hist, key));
    var txs := Relevant(db, key, through);
    OpsAmongAreWellFormed(key, txs);
    var ops := Enumerate(OpsAmong(key, txs).value);
    assert Start(base) == Start(Opened(base));
    assert WellFormedBase(key, Opened(base));
    FoldIsHistory(key, ops, Opened(base));
    if base.Some? {
      RefoldFromStoredBase(key, ops, [], base.value.(toBlock := None));
    } else if Fold(key, ops, None).value != [] {
      FoldWithoutBaseStartsLater(key, ops);
    }
  }

  lemma RefoldKeepsWellFormed(db: Database, hist: Histories, keys: set<ByteString>, through: int)
    requires WellFormedDatabase(db) && WellFormedHistories(hist)
    requires Refolded(db, hist, keys, through).Ok?
    ensures WellFormedHistories(Refolded(db, hist, keys, through).value)
  {
    var after := Refolded(db, hist, keys, through).value;
    forall k | k in after ensures after[k] != [] && WellFormedVersions(k, after[k]) {
      if k in keys {
        RenewedIsWellFormed(db, hist, k, through);
      }
    }
  }

  /** A version with this id is in the histories, and this is it. */
  ghost predicate Recorded(hist: Histories, v: Version) {
    v.entityKey in hist && v.version < |hist[v.entityKey]| && hist[v.entityKey][v.version] == v
  }

  ghost predicate IsVersionTable(t: VersionTable, hist: Histories) {
    (forall id :: id in t ==> IdOf(t[id]) == id && Recorded(hist, t[id])) &&
    (forall v :: Recorded(hist, v) ==> IdOf(v) in t && t[IdOf(v)] == v)
  }

  /** This row is an attribute of a recorded version. */
  ghost predicate HasSource(hist: Histories, id: AttributeId, row: AttributeRow) {
    exists v :: Recorded(hist, v) && row.attribute in v.attributes &&
                id == AttributeIdOf(v, row.attribute) && row == RowOf(v, row.attribute)
  }

  ghost predicate HasRow(t: AttributeTable, v: Version, a: Attribute) {
    AttributeIdOf(v, a) in t && t[AttributeIdOf(v, a)] == RowOf(v, a)
  }

  ghost predicate RowsHaveSources(t: AttributeTable, hist: Histories) {
    forall id :: id in t ==> HasSource(hist, id, t[id])
  }

  ghost predicate AttributesHaveRows(t: AttributeTable, hist: Histories) {
    forall v, a :: Recorded(hist, v) && a in v.attributes ==> HasRow(t, v, a)
  }

  /** The attributes table is the flattening of the versions table. */
  ghost predicate IsAttributeTable(t: AttributeTable, hist: Histories) {
    RowsHaveSources(t, hist) && AttributesHaveRows(t, hist)
  }

  /** The genesis rows by key once some versions are inserted: ON CONFLICT DO NOTHING. */
  function InsertRows(rows: map<ByteString, Version>, vs: seq<Version>): map<ByteString, Version> {
    if vs == [] then rows
    else
      var before, last := InsertRows(rows, vs[..|vs| - 1]), vs[|vs| - 1];
      if last.entityKey in before then before else before[last.entityKey := last]
  }

  lemma {:induction false} InsertInTwo(rows: map<ByteString, Version>, a: seq<Version>, b: seq<Version>)
    ensures InsertRows(InsertRows(rows, a), b) == InsertRows(rows, a + b)
  {
    if b == [] {
      assert a + b == a;
    } else {
      assert (a + b)[..|a + b| - 1] == a + b[..|b| - 1];
      InsertInTwo(rows, a, b[..|b| - 1]);
    }
  }

  /** `foldKeyBatches`: where the batch starting at `start` ends, for a width of at least one. */
  function BatchEnd(start: nat, size: int, total: nat): (end: nat)
    requires start < total
    ensures start < end <= total
  {
    var width := if size < 1 then 1 else size;
    if start + width <= total then start + width else total
  }

  /** A key's operations in a map of lists. */
  function ListOf(byKey: map<ByteString, seq<Op>>, key: ByteString): seq<Op> {
    if key in byKey then byKey[key] else []
  }

  /** The lists hold exactly the loaded operations of the transactions done so far. */
  ghost predicate ListsHold(byKey: map<ByteString, seq<Op>>, keys: set<ByteString>, db: Database, done: set<TxLocation>) {
    forall k :: k in keys ==>
      DistinctLocations(ListOf(byKey, k)) &&
      forall o :: o in ListOf(byKey, k) <==>
                  exists at :: at in done && at in db && LoadedTx(at, db[at]).Ok? &&
                               o in LoadedTx(at, db[at]).value && o.entityKey == k
  }

  /** The operations of one transaction on one key, appended in order. */
  function OfKey(ops: seq<Op>, key: ByteString): seq<Op> {
    if ops == [] then []
    else OfKey(ops[..|ops| - 1], key) + (if Last(ops).entityKey == key then [Last(ops)] else [])
  }

  lemma {:induction false} OfKeyContents(ops: seq<Op>, key: ByteString)
    requires forall i, j :: 0 <= i < j < |ops| ==> ops[i].opIndex < ops[j].opIndex
    ensures forall o :: o in OfKey(ops, key) <==> o in ops && o.entityKey == key
    ensures DistinctLocations(OfKey(ops, key))
  {
    if ops != [] {
      var before := ops[..|ops| - 1];
      OfKeyContents(before, key);
      assert forall o :: o in ops <==> o == Last(ops) || o in before;
      forall o | o in OfKey(before, key) ensures LocationOf(o) != LocationOf(Last(ops)) {
        var i :| 0 <= i < |before| && before[i] == o;
        assert ops[i].opIndex < Last(ops).opIndex;
      }
    }
  }

  /** One more transaction's operations keep the lists right. */
  lemma ListsGrow(before: map<ByteString, seq<Op>>, after: map<ByteString, seq<Op>>, keys: set<ByteString>,
                  db: Database, done: set<TxLocation>, at: TxLocation)
    requires WellFormedDatabase(db) && at in db && at !in done && done <= db.Keys && LoadedTx(at, db[at]).Ok?
    requires forall d :: d in done ==> LoadedTx(d, db[d]).Ok?
    requires ListsHold(before, keys, db, done)
    requires forall k :: k in keys ==> ListOf(after, k) == ListOf(before, k) + OfKey(LoadedTx(at, db[at]).value, k)
    ensures ListsHold(after, keys, db, done + {at})
  {
    LoadedShape(at, db[at]);
    var ops := LoadedTx(at, db[at]).value;
    forall k | k in keys
      ensures DistinctLocations(ListOf(after, k))
      ensures forall o :: o in ListOf(after, k) <==> o in ListOf(before, k) || (o in ops && o.entityKey == k)
    {
      OfKeyContents(ops, k);
      var had, gained := ListOf(before, k), OfKey(ops, k);
      forall o, n | o in had && n in gained ensures LocationOf(o) != LocationOf(n) {
        var d :| d in done && d in db && LoadedTx(d, db[d]).Ok? && o in LoadedTx(d, db[d]).value && o.entityKey == k;
        LoadedShape(d, db[d]);
        assert FromRow(o, d, db[d]) && FromRow(n, at, db[at]);
      }
    }
  }

  /** Which stored transactions a load reads: whole ones that touch a wanted key. */
  ghost predicate Wanted(db: Database, keys: set<ByteString>, through: int, at: TxLocation) {
    at in db && at.block <= through && exists k :: k in keys && Touches(db[at], k)
  }

  /** Once every wanted transaction is done, each key's list is its operations, whatever the other keys are. */
  lemma ListsComplete(byKey: map<ByteString, seq<Op>>, keys: set<ByteString>, db: Database, through: int,
                      done: set<TxLocation>, k: ByteString)
    requires WellFormedDatabase(db) && k in keys
    requires forall at :: at in done <==> Wanted(db, keys, through, at)
    requires forall at :: at in done ==> at in db && LoadedTx(at, db[at]).Ok?
    requires ListsHold(byKey, keys, db, done)
    ensures OpsAmong(k, Relevant(db, k, through)).Ok?
    ensures forall o :: o in ListOf(byKey, k) <==> o in OpsAmong(k, Relevant(db, k, through)).value
  {
    var txs := Relevant(db, k, through);
    forall at | at in txs ensures at in done {
      assert Wanted(db, keys, through, at);
    }
    assert OpsAmong(k, txs).Ok?;
    forall o | o in ListOf(byKey, k) ensures o in OpsAmong(k, txs).value {
      var at :| at in done && at in db && LoadedTx(at, db[at]).Ok? && o in LoadedTx(at, db[at]).value && o.entityKey == k;
      LoadedShape(at, db[at]);
      assert Touches(db[at], k);
      assert at in txs;
    }
  }

  function Appended(byKey: map<ByteString, seq<Op>>, op: Op): map<ByteString, seq<Op>> {
    byKey[op.entityKey := ListOf(byKey, op.entityKey) + [op]]
  }

  lemma AppendOne(byKey: map<ByteString, seq<Op>>, now: map<ByteString, seq<Op>>, next: map<ByteString, seq<Op>>,
                  ops: seq<Op>, i: nat, wanted: set<ByteString>, k: ByteString)
    requires i < |ops| && k in wanted
    requires ListOf(now, k) == ListOf(byKey, k) + OfKey(ops[..i], k)
    requires next == if ops[i].entityKey in wanted then Appended(now, ops[i]) else now
    ensures ListOf(next, k) == ListOf(byKey, k) + OfKey(ops[..i + 1], k)
  {
    assert ops[..i + 1][..i] == ops[..i];
    var had, sofar := ListOf(byKey, k), OfKey(ops[..i], k);
    if ops[i].entityKey == k {
      assert had + (sofar + [ops[i]]) == (had + sofar) + [ops[i]];
    } else {
      assert sofar + [] == sofar;
    }
  }

  /** `list.push(op)` for each loaded operation of a wanted key. */
  method AppendOps(byKey: map<ByteString, seq<Op>>, wanted: set<ByteString>, ops: seq<Op>)
    returns (grown: map<ByteString, seq<Op>>)
    ensures forall k :: k in wanted ==> ListOf(grown, k) == ListOf(byKey, k) + OfKey(ops, k)
  {
    grown := byKey;
    for i := 0 to |ops|
      invariant forall k :: k in wanted ==> ListOf(grown, k) == ListOf(byKey, k) + OfKey(ops[..i], k)
    {
      var next := if ops[i].entityKey in wanted then Appended(grown, ops[i]) else grown;
      forall k | k in wanted ensures ListOf(next, k) == ListOf(byKey, k) + OfKey(ops[..i + 1], k) {
        AppendOne(byKey, grown, next, ops, i, wanted, k);
      }
      grown := next;
    }
    assert ops[..|ops|] == ops;
  }

  /** The lists are each key's operations, each once. */
  ghost predicate LoadedFor(byKey: map<ByteString, seq<Op>>, db: Database, keys: set<ByteString>, through: int) {
    forall k :: k in keys ==>
      OpsAmong(k, Relevant(db, k, through)).Ok? && DistinctLocations(ListOf(byKey, k)) &&
      forall o :: o in ListOf(byKey, k) <==> o in OpsAmong(k, Relevant(db, k, through)).value
  }

  ghost predicate SomeFaults(db: Database, keys: set<ByteString>, through: int) {
    exists k :: k in keys && OpsAmong(k, Relevant(db, k, through)).Fault?
  }

  lemma LoadComplete(byKey: map<ByteString, seq<Op>>, db: Database, keys: set<ByteString>, through: int, done: set<TxLocation>)
    requires WellFormedDatabase(db)
    requires forall at :: at in done <==> Wanted(db, keys, through, at)
    requires forall at :: at in done ==> at in db && LoadedTx(at, db[at]).Ok?
    requires ListsHold(byKey, keys, db, done)
    ensures LoadedFor(byKey, db, keys, through)
  {
    forall k | k in keys
      ensures OpsAmong(k, Relevant(db, k, through)).Ok?
      ensures forall o :: o in ListOf(byKey, k) <==> o in OpsAmong(k, Relevant(db, k, through)).value
    {
      ListsComplete(byKey, keys, db, through, done, k);
    }
  }

  lemma LoadFaults(db: Database, keys: set<ByteString>, through: int, at: TxLocation)
    requires Wanted(db, keys, through, at) && LoadedTx(at, db[at]).Fault?
    ensures SomeFaults(db, keys, through)
  {
    var k :| k in keys && Touches(db[at], k);
    var txs := Relevant(db, k, through);
    assert at in txs && LoadedTx(at, txs[at]).Fault?;
    assert OpsAmong(k, txs).Fault?;
  }

  lemma NothingLoadedYet(keys: set<ByteString>, db: Database)
    ensures ListsHold(map[], keys, db, {})
  {
  }

  /** The transactions the load's join selects. */
  method WantedTransactions(db: Database, keys: set<ByteString>, through: int) returns (found: set<TxLocation>)
    ensures forall at :: at in found <==> Wanted(db, keys, through, at)
  {
    found := set at | at in db && at.block <= through && exists k :: k in keys && Touches(db[at], k);
  }

  /** `loadEntityOps`: every applied operation of the keys, whole transactions at a time. */
  method LoadEntityOps(db: Database, wanted: set<ByteString>, through: int) returns (r: Outcome<map<ByteString, seq<Op>>>)
    requires WellFormedDatabase(db)
    ensures r.Ok? ==> LoadedFor(r.value, db, wanted, through)
    ensures r.Fault? ==> SomeFaults(db, wanted, through)
  {
    hide ListsHold, LoadedFor, WellFormedDatabase, RecordsOf, SomeFaults;
    var byKey: map<ByteString, seq<Op>> := map[];
    NothingLoadedYet(wanted, db);
    var left := WantedTransactions(db, wanted, through);
    ghost var done: set<TxLocation> := {};
    while left != {}
      invariant forall at :: at in done + left <==> Wanted(db, wanted, through, at)
      invariant done !! left
      invariant forall at :: at in done ==> at in db && LoadedTx(at, db[at]).Ok?
      invariant ListsHold(byKey, wanted, db, done)
      decreases left
    {
      var at :| at in left;
      assert at in done + left && Wanted(db, wanted, through, at);
      var ops := AttachEventsToOps(RecordsOf(at, db[at], |db[at].rows|), db[at].logs);
      if ops.Fault? {
        LoadFaults(db, wanted, through, at);
        return Fault;
      }
      var grown := AppendOps(byKey, wanted, ops.value);
      ListsGrow(byKey, grown, wanted, db, done, at);
      assert done + left == (done + {at}) + (left - {at});
      byKey, left, done := grown, left - {at}, done + {at};
    }
    assert done + left == done;
    LoadComplete(byKey, db, wanted, through, done);
    return Ok(byKey);
  }
}
