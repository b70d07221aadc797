/**
 The two projection tables as the storage writes them
 (src/entityIndexStorage.ts): rows keyed by primary key, deleted and inserted,
 with the histories they stand for kept beside them as ghost state.
 */
module IndexTables {
  import opened Wrappers
  import opened ByteStrings
  import opened EntityIndex
  import opened FoldProperties
  import opened IndexStorage

  /** No two versions of a list share a primary key, nor two attributes of a version a name. */
  ghost predicate UniqueIds(vs: seq<Version>) {
    (forall v, w :: v in vs && w in vs && IdOf(v) == IdOf(w) ==> v == w) &&
    (forall v :: v in vs ==> StrictlySorted(v.attributes))
  }

  lemma SortedNamesAreUnique(s: seq<Attribute>, a: Attribute, b: Attribute)
    requires StrictlySorted(s) && a in s && b in s && a.name == b.name
    ensures a == b
  {
    BeforeIsIrreflexive(a.name);
  }

  /** The rows an insert binds for the versions table. */
  function VersionRows(vs: seq<Version>): VersionTable
    requires UniqueIds(vs)
  {
    map v | v in vs :: IdOf(v) := v
  }

  /** `attributeRows`: one row per attribute of each version. */
  function AttributeRows(vs: seq<Version>): AttributeTable
    requires UniqueIds(vs)
  {
    RowsHaveOneSource(vs);
    map v, a | v in vs && a in v.attributes :: AttributeIdOf(v, a) := RowOf(v, a)
  }

  function VersionsWithout(t: VersionTable, keys: set<ByteString>): VersionTable {
    map id | id in t && id.key !in keys :: t[id]
  }

  function AttributesWithout(t: AttributeTable, keys: set<ByteString>): AttributeTable {
    map id | id in t && id.key !in keys :: t[id]
  }

  lemma AttributeRowsContents(vs: seq<Version>)
    requires UniqueIds(vs)
    ensures forall v, a :: v in vs && a in v.attributes ==> HasRow(AttributeRows(vs), v, a)
    ensures forall id :: id in AttributeRows(vs) ==>
              exists v, a :: v in vs && a in v.attributes && id == AttributeIdOf(v, a) && AttributeRows(vs)[id] == RowOf(v, a)
  {
    var rows := AttributeRows(vs);
    RowsHaveOneSource(vs);
    forall v, a | v in vs && a in v.attributes ensures HasRow(rows, v, a) {
      var id := AttributeIdOf(v, a);
      assert id in rows;
      var w, b :| w in vs && b in w.attributes && id == AttributeIdOf(w, b) && rows[id] == RowOf(w, b);
    }
  }

  lemma RowsHaveOneSource(vs: seq<Version>)
    requires UniqueIds(vs)
    ensures forall v, a, w, b ::
              (v in vs && a in v.attributes && w in vs && b in w.attributes && AttributeIdOf(v, a) == AttributeIdOf(w, b)) ==>
              v == w && a == b
  {
    forall v, a, w, b | v in vs && a in v.attributes && w in vs && b in w.attributes && AttributeIdOf(v, a) == AttributeIdOf(w, b)
      ensures v == w && a == b
    {
      assert IdOf(v) == IdOf(w);
      SortedNamesAreUnique(v.attributes, a, b);
    }
  }

  /** A list of exactly the versions some histories record for some keys. */
  ghost predicate ListsVersions(vs: seq<Version>, hist: Histories, keys: set<ByteString>) {
    forall v :: v in vs <==> Recorded(hist, v) && v.entityKey in keys
  }

  lemma ListedIdsAreUnique(vs: seq<Version>, hist: Histories, keys: set<ByteString>)
    requires WellFormedHistories(hist) && ListsVersions(vs, hist, keys)
    ensures UniqueIds(vs)
  {
    forall v | v in vs ensures StrictlySorted(v.attributes) {
      assert Recorded(hist, v);
      assert WellFormedVersions(v.entityKey, hist[v.entityKey]);
    }
  }

  /** Outside some keys nothing changed. */
  ghost predicate SameOutside(hist: Histories, after: Histories, keys: set<ByteString>) {
    forall v: Version :: v.entityKey !in keys ==> (Recorded(hist, v) <==> Recorded(after, v))
  }

  /** Replacing some keys' rows by those of the new histories makes the tables stand for them. */
  lemma ReplacedVersionTable(t: VersionTable, hist: Histories, after: Histories, keys: set<ByteString>, vs: seq<Version>)
    requires IsVersionTable(t, hist) && UniqueIds(vs) && ListsVersions(vs, after, keys) && SameOutside(hist, after, keys)
    ensures IsVersionTable(VersionsWithout(t, keys) + VersionRows(vs), after)
  {
  }

  lemma ReplacedRowsHaveSources(t: AttributeTable, hist: Histories, after: Histories, keys: set<ByteString>, vs: seq<Version>)
    requires RowsHaveSources(t, hist) && UniqueIds(vs) && ListsVersions(vs, after, keys) && SameOutside(hist, after, keys)
    ensures RowsHaveSources(AttributesWithout(t, keys) + AttributeRows(vs), after)
  {
    var rows := AttributeRows(vs);
    var next := AttributesWithout(t, keys) + rows;
    AttributeRowsContents(vs);
    forall id | id in next ensures HasSource(after, id, next[id]) {
      if id in rows {
        var v, a :| v in vs && a in v.attributes && id == AttributeIdOf(v, a) && rows[id] == RowOf(v, a);
        assert Recorded(after, v);
      } else {
        assert HasSource(hist, id, t[id]);
      }
    }
  }

  lemma ReplacedAttributesHaveRows(t: AttributeTable, hist: Histories, after: Histories, keys: set<ByteString>, vs: seq<Version>)
    requires AttributesHaveRows(t, hist) && UniqueIds(vs) && ListsVersions(vs, after, keys) && SameOutside(hist, after, keys)
    ensures AttributesHaveRows(AttributesWithout(t, keys) + AttributeRows(vs), after)
  {
    var rows := AttributeRows(vs);
    var next := AttributesWithout(t, keys) + rows;
    AttributeRowsContents(vs);
    forall id | id in rows ensures id.key in keys {
      var w, b :| w in vs && b in w.attributes && id == AttributeIdOf(w, b);
    }
    forall v, a | Recorded(after, v) && a in v.attributes ensures HasRow(next, v, a) {
      if v.entityKey in keys {
        assert v in vs && HasRow(rows, v, a);
      } else {
        assert Recorded(hist, v) && HasRow(t, v, a);
      }
    }
  }

  // ---------------------------------------------------------------------
  // Genesis rows, inserted where there is none yet

  /** Genesis versions can go in where their key has no history, or only this very version. */
  ghost predicate Insertable(hist: Histories, vs: seq<Version>) {
    forall v :: v in vs ==>
      Canonical(v) && (v.entityKey !in hist || hist[v.entityKey] == [v]) &&
      forall w :: w in vs && w.entityKey == v.entityKey ==> w == v
  }

  ghost function Inserted(hist: Histories, vs: seq<Version>): Histories
    requires forall v, w :: v in vs && w in vs && w.entityKey == v.entityKey ==> w == v
  {
    (map v | v in vs :: v.entityKey := [v]) + hist
  }

  lemma InsertedAreRecorded(hist: Histories, vs: seq<Version>)
    requires Insertable(hist, vs)
    ensures UniqueIds(vs)
    ensures forall v :: Recorded(Inserted(hist, vs), v) <==> Recorded(hist, v) || v in vs
  {
    var after := Inserted(hist, vs);
    forall v | v in vs ensures Recorded(after, v) {
      assert after[v.entityKey] == [v];
    }
    forall v | Recorded(after, v) ensures Recorded(hist, v) || v in vs {
      if v.entityKey !in hist {
        var w :| w in vs && w.entityKey == v.entityKey && after[v.entityKey] == [w];
      }
    }
    forall v | Recorded(hist, v) ensures Recorded(after, v) {
      assert after[v.entityKey] == hist[v.entityKey];
    }
  }

  lemma CanonicalIsHistory(v: Version)
    requires Canonical(v)
    ensures WellFormedVersions(v.entityKey, [v])
  {
    assert v.(toBlock := None) == v;
  }

  lemma InsertedIsWellFormed(hist: Histories, vs: seq<Version>)
    requires WellFormedHistories(hist) && Insertable(hist, vs)
    ensures WellFormedHistories(Inserted(hist, vs))
  {
    var after := Inserted(hist, vs);
    forall k | k in after ensures after[k] != [] && WellFormedVersions(k, after[k]) {
      if k !in hist {
        var w :| w in vs && w.entityKey == k && after[k] == [w];
        CanonicalIsHistory(w);
      }
    }
  }

  lemma InsertedVersionTable(t: VersionTable, hist: Histories, vs: seq<Version>)
    requires Insertable(hist, vs) && UniqueIds(vs) && IsVersionTable(t, hist)
    ensures IsVersionTable(VersionRows(vs) + t, Inserted(hist, vs))
  {
    hide Canonical, Inserted;
    InsertedAreRecorded(hist, vs);
    forall v | v in vs ensures IdOf(v) in t ==> t[IdOf(v)] == v {
      if IdOf(v) in t {
        assert Recorded(hist, t[IdOf(v)]);
      }
    }
  }

  lemma InsertedAttributeTable(t: AttributeTable, hist: Histories, vs: seq<Version>)
    requires Insertable(hist, vs) && UniqueIds(vs) && IsAttributeTable(t, hist)
    ensures IsAttributeTable(AttributeRows(vs) + t, Inserted(hist, vs))
  {
    InsertedAreRecorded(hist, vs);
    AttributeRowsContents(vs);
    var after, rows := Inserted(hist, vs), AttributeRows(vs);
    var next := rows + t;
    forall id | id in next ensures HasSource(after, id, next[id]) {
      if id in t {
        assert HasSource(hist, id, t[id]);
      } else {
        var v, a :| v in vs && a in v.attributes && id == AttributeIdOf(v, a) && rows[id] == RowOf(v, a);
        assert Recorded(after, v);
      }
    }
    forall v, a | Recorded(after, v) && a in v.attributes ensures HasRow(next, v, a) {
      if Recorded(hist, v) {
        assert HasRow(t, v, a);
      } else {
        assert v in vs && HasRow(rows, v, a);
        RowKeysAreKnown(t, hist);
      }
    }
  }

  lemma RowKeysAreKnown(t: AttributeTable, hist: Histories)
    requires RowsHaveSources(t, hist)
    ensures forall id :: id in t ==> id.key in hist
  {
    forall id | id in t ensures id.key in hist {
      assert HasSource(hist, id, t[id]);
    }
  }

  // ---------------------------------------------------------------------
  // A batch of keys, folded

  /** The versions some keys refold to, in any order. */
  ghost predicate ListsRenewed(vs: seq<Version>, db: Database, hist: Histories, keys: set<ByteString>, through: int) {
    (forall k :: k in keys ==> Renewed(db, hist, k, through).Ok?) &&
    forall v :: v in vs <==> exists k :: k in keys && v in Renewed(db, hist, k, through).value
  }

  lemma RenewedAreRecorded(vs: seq<Version>, db: Database, hist: Histories, keys: set<ByteString>, through: int)
    requires WellFormedDatabase(db) && WellFormedHistories(hist)
    requires ListsRenewed(vs, db, hist, keys, through)
    ensures Refolded(db, hist, keys, through).Ok?
    ensures ListsVersions(vs, Refolded(db, hist, keys, through).value, keys)
    ensures SameOutside(hist, Refolded(db, hist, keys, through).value, keys)
  {
    hide Truth, Canonical, BaseOf, Opened;
    var after := Refolded(db, hist, keys, through).value;
    forall v | v in vs ensures Recorded(after, v) && v.entityKey in keys {
      var k :| k in keys && v in Renewed(db, hist, k, through).value;
      RenewedIsWellFormed(db, hist, k, through);
      assert after[k] == Renewed(db, hist, k, through).value;
    }
    forall v | Recorded(after, v) && v.entityKey in keys ensures v in vs {
      assert v in Renewed(db, hist, v.entityKey, through).value;
    }
  }

  lemma ListsRenewedGrows(vs: seq<Version>, db: Database, hist: Histories, keys: set<ByteString>, through: int, k: ByteString)
    requires ListsRenewed(vs, db, hist, keys, through) && Renewed(db, hist, k, through).Ok?
    ensures ListsRenewed(vs + Renewed(db, hist, k, through).value, db, hist, keys + {k}, through)
  {
    var more := vs + Renewed(db, hist, k, through).value;
    forall v ensures v in more <==> exists j :: j in keys + {k} && v in Renewed(db, hist, j, through).value {
      if v in vs {
        var j :| j in keys && v in Renewed(db, hist, j, through).value;
        assert j in keys + {k};
      } else if v in Renewed(db, hist, k, through).value {
        assert k in keys + {k};
      }
    }
  }

  lemma RelevantIsWellFormed(db: Database, key: ByteString, through: int)
    requires WellFormedDatabase(db)
    ensures WellFormedDatabase(Relevant(db, key, through))
  {
  }

  lemma LoadFaultIsRefoldFault(db: Database, hist: Histories, keys: set<ByteString>, through: int)
    requires SomeFaults(db, keys, through)
    ensures Refolded(db, hist, keys, through).Fault?
  {
    var k :| k in keys && OpsAmong(k, Relevant(db, k, through)).Fault?;
    assert Renewed(db, hist, k, through).Fault?;
  }

  class EntityIndexStorage {
    var versions: VersionTable
    var attributes: AttributeTable
    /** Entity keys refolded per pass. */
    const foldKeyBatch: nat
    /** The histories the two tables stand for. */
    ghost var hist: Histories

    ghost predicate Valid()
      reads this
    {
      WellFormedHistories(hist) && IsVersionTable(versions, hist) && IsAttributeTable(attributes, hist)
    }

    constructor (foldKeyBatch: nat)
      ensures Valid() && hist == map[]
    {
      this.foldKeyBatch := foldKeyBatch;
      versions, attributes, hist := map[], map[], map[];
    }

    /** `loadGenesisBases`: the version 0 rows at block 0 of the given keys. */
    method LoadGenesisBases(keys: set<ByteString>) returns (bases: map<ByteString, Version>)
      requires Valid()
      ensures forall k :: k in keys ==>
                BaseOf(VersionsOf(hist, k)) == if k in bases then Some(bases[k]) else None
    {
      bases := map k | k in keys && VersionId(k, 0) in versions && versions[VersionId(k, 0)].fromBlock == 0 :: versions[VersionId(k, 0)];
      forall k | k in keys ensures BaseOf(VersionsOf(hist, k)) == if k in bases then Some(bases[k]) else None {
        assert VersionId(k, 0) in versions ==> Recorded(hist, versions[VersionId(k, 0)]);
        if k in hist {
          assert WellFormedVersions(k, hist[k]);
          assert Recorded(hist, hist[k][0]);
        }
      }
    }

    /** Fold one key's loaded operations on its stored genesis state. */
    method FoldKey(db: Database, loaded: map<ByteString, seq<Op>>, bases: map<ByteString, Version>,
                   ghost keys: set<ByteString>, key: ByteString, ghost through: int)
      returns (vs: Outcome<seq<Version>>)
      requires WellFormedDatabase(db) && key in keys && LoadedFor(loaded, db, keys, through)
      requires BaseOf(VersionsOf(hist, key)) == if key in bases then Some(bases[key]) else None
      ensures vs == Renewed(db, hist, key, through)
    {
      var base := if key in bases then Some(bases[key]) else None;
      RelevantIsWellFormed(db, key, through);
      ListingFoldsToTruth(key, Relevant(db, key, through), ListOf(loaded, key), base);
      vs := FoldEntityVersions(key, ListOf(loaded, key), base);
    }

    /** Read, and fold, one batch of keys. */
    method FoldBatch(db: Database, batch: seq<ByteString>, through: int) returns (r: Outcome<seq<Version>>)
      requires Valid() && WellFormedDatabase(db)
      ensures r.Ok? ==> ListsRenewed(r.value, db, hist, KeySet(batch), through)
      ensures r.Fault? ==> Refolded(db, hist, KeySet(batch), through).Fault?
    {
      var keys := KeySet(batch);
      var loaded := LoadEntityOps(db, keys, through);
      if loaded.Fault? {
        LoadFaultIsRefoldFault(db, hist, keys, through);
        return Fault;
      }
      var bases := LoadGenesisBases(keys);
      var folded: seq<Version> := [];
      assert ListsRenewed(folded, db, hist, {}, through);
      assert KeySet(batch[..0]) == {};
      for i := 0 to |batch|
        invariant ListsRenewed(folded, db, hist, KeySet(batch[..i]), through)
      {
        assert batch[i] in keys;
        var vs := FoldKey(db, loaded.value, bases, keys, batch[i], through);
        if vs.Fault? {
          return Fault;
        }
        assert KeySet(batch[..i + 1]) == KeySet(batch[..i]) + {batch[i]};
        ListsRenewedGrows(folded, db, hist, KeySet(batch[..i]), through, batch[i]);
        folded := folded + vs.value;
      }
      assert batch[..|batch|] == batch;
      return Ok(folded);
    }

    /** `replaceVersions`: delete the keys' rows from both tables, insert the folded ones. */
    method ReplaceVersions(ghost db: Database, ghost through: int, keys: set<ByteString>, folded: seq<Version>)
      requires Valid() && WellFormedDatabase(db) && ListsRenewed(folded, db, hist, keys, through)
      modifies this
      ensures Valid() && Refolded(db, old(hist), keys, through) == Ok(hist)
    {
      RenewedAreRecorded(folded, db, hist, keys, through);
      RefoldKeepsWellFormed(db, hist, keys, through);
      ghost var after := Refolded(db, hist, keys, through).value;
      ListedIdsAreUnique(folded, after, keys);
      ReplacedVersionTable(versions, hist, after, keys, folded);
      ReplacedRowsHaveSources(attributes, hist, after, keys, folded);
      ReplacedAttributesHaveRows(attributes, hist, after, keys, folded);
      attributes := AttributesWithout(attributes, keys);
      versions := VersionsWithout(versions, keys);
      versions := versions + VersionRows(folded);
      attributes := attributes + AttributeRows(folded);
      hist := after;
    }

    /**
     `refoldEntities`: replace the versions of the given keys, a batch at a
     time. The result is the refold of the whole key set, for every batch width.
     */
    method RefoldEntities(db: Database, keys: seq<ByteString>, through: int) returns (ok: bool)
      requires Valid() && WellFormedDatabase(db)
      requires forall i, j :: 0 <= i < j < |keys| ==> keys[i] != keys[j]
      modifies this
      ensures ok ==> Valid() && Refolded(db, old(hist), KeySet(keys), through) == Ok(hist)
      ensures !ok ==> Refolded(db, old(hist), KeySet(keys), through).Fault?
    {
      var start := 0;
      ghost var before := hist;
      RefoldOfNothing(db, hist, through);
      while start < |keys|
        invariant 0 <= start <= |keys| && Valid()
        invariant Refolded(db, before, KeySet(keys[..start]), through) == Ok(hist)
      {
        var end := BatchEnd(start, foldKeyBatch, |keys|);
        var batch := keys[start..end];
        KeysInTwo(keys, start, end);
        RefoldInTwo(db, before, KeySet(keys[..start]), KeySet(batch), through);
        var folded := FoldBatch(db, batch, through);
        if folded.Fault? {
          RefoldFaultsEarly(db, before, KeySet(keys[..end]), KeySet(keys), through);
          return false;
        }
        ReplaceVersions(db, through, KeySet(batch), folded.value);
        start := end;
      }
      assert keys[..start] == keys;
      return true;
    }

    /** The refold inside `withFoldLock`: a failure rolls both tables back. */
    method RefoldInTransaction(db: Database, keys: seq<ByteString>, through: int) returns (ok: bool)
      requires Valid() && WellFormedDatabase(db)
      requires forall i, j :: 0 <= i < j < |keys| ==> keys[i] != keys[j]
      modifies this
      ensures Valid()
      ensures ok <==> Refolded(db, old(hist), KeySet(keys), through).Ok?
      ensures ok ==> Refolded(db, old(hist), KeySet(keys), through) == Ok(hist)
      ensures !ok ==> hist == old(hist) && versions == old(versions) && attributes == old(attributes)
    {
      var savedVersions, savedAttributes := versions, attributes;
      ghost var savedHist := hist;
      ok := RefoldEntities(db, keys, through);
      if !ok {
        versions, attributes, hist := savedVersions, savedAttributes, savedHist;
      }
    }

    /** `insertGenesisVersions`: ON CONFLICT DO NOTHING, in both tables. */
    method InsertGenesisVersions(vs: seq<Version>)
      requires Valid() && Insertable(hist, vs)
      modifies this
      ensures Valid() && hist == Inserted(old(hist), vs)
    {
      InsertedAreRecorded(hist, vs);
      InsertedIsWellFormed(hist, vs);
      InsertedVersionTable(versions, hist, vs);
      InsertedAttributeTable(attributes, hist, vs);
      versions := VersionRows(vs) + versions;
      attributes := AttributeRows(vs) + attributes;
      hist := Inserted(hist, vs);
    }
  }

  lemma RefoldOfNothing(db: Database, hist: Histories, through: int)
    requires WellFormedHistories(hist)
    ensures Refolded(db, hist, KeySet([]), through) == Ok(hist)
  {
    assert KeySet([]) == {};
    forall k ensures VersionsOf(Refolded(db, hist, {}, through).value, k) == VersionsOf(hist, k) {
      RefoldedVersions(db, hist, {}, through, k);
    }
    HistoriesAgree(Refolded(db, hist, {}, through).value, hist);
  }

  lemma KeysInTwo(keys: seq<ByteString>, start: nat, end: nat)
    requires start <= end <= |keys|
    requires forall i, j :: 0 <= i < j < |keys| ==> keys[i] != keys[j]
    ensures KeySet(keys[..start]) !! KeySet(keys[start..end])
    ensures KeySet(keys[..end]) == KeySet(keys[..start]) + KeySet(keys[start..end])
    ensures KeySet(keys[..end]) <= KeySet(keys)
  {
    forall k | k in KeySet(keys[..end]) ensures k in KeySet(keys[..start]) + KeySet(keys[start..end]) {
      var i :| 0 <= i < end && keys[i] == k;
      assert i >= start ==> keys[start..end][i - start] == k;
      assert i < start ==> keys[..start][i] == k;
    }
    forall k | k in KeySet(keys[..start]) + KeySet(keys[start..end]) ensures k in KeySet(keys[..end]) {
      if k in KeySet(keys[..start]) {
        var i :| 0 <= i < start && keys[..start][i] == k;
        assert keys[..end][i] == k;
      } else {
        var i :| 0 <= i < end - start && keys[start..end][i] == k;
        assert keys[..end][start + i] == k;
      }
    }
  }
}
