/**
 What the stored operations say of the past: cutting them at a block and
 folding gives what the whole fold was at that block.
 */
module StoredPast {
  import opened Wrappers
  import opened ByteStrings
  import opened EntityIndex
  import opened FoldProperties
  import opened IndexStorage
  import opened IndexTables

  /** The operations stored up to a block are those of any later load that sit at or below it. */
  lemma RelevantOpsUpTo(db: Database, k: ByteString, through: int, block: int)
    requires WellFormedDatabase(db) && block <= through
    requires OpsAmong(k, Relevant(db, k, through)).Ok?
    ensures OpsAmong(k, Relevant(db, k, block)).Ok?
    ensures forall o :: o in OpsAmong(k, Relevant(db, k, block)).value <==>
                        o in OpsAmong(k, Relevant(db, k, through)).value && o.block <= block
  {
    var now, past := Relevant(db, k, through), Relevant(db, k, block);
    forall at | at in past ensures at in now && past[at] == now[at] {}
    assert OpsAmong(k, past).Ok?;
    forall o | o in OpsAmong(k, past).value ensures o in OpsAmong(k, now).value && o.block <= block {
      var at :| at in past && o in LoadedTx(at, past[at]).value && o.entityKey == k;
      LoadedShape(at, db[at]);
      assert FromRow(o, at, db[at]);
      assert at in now;
    }
    forall o | o in OpsAmong(k, now).value && o.block <= block ensures o in OpsAmong(k, past).value {
      var at :| at in now && o in LoadedTx(at, now[at]).value && o.entityKey == k;
      LoadedShape(at, db[at]);
      assert FromRow(o, at, db[at]);
      assert at in past;
    }
  }

  /** Cutting the stored operations at a block and cutting the loaded ones fold alike. */
  lemma PastTruth(db: Database, k: ByteString, through: int, block: int, base: Option<Version>)
    requires WellFormedDatabase(db) && block <= through
    requires OpsAmong(k, Relevant(db, k, through)).Ok?
    ensures Truth(k, Relevant(db, k, block), base) ==
            Fold(k, UpTo(Enumerate(OpsAmong(k, Relevant(db, k, through)).value), block), base)
  {
    var ops := Enumerate(OpsAmong(k, Relevant(db, k, through)).value);
    RelevantIsWellFormed(db, k, through);
    RelevantIsWellFormed(db, k, block);
    OpsAmongAreWellFormed(k, Relevant(db, k, through));
    RelevantOpsUpTo(db, k, through, block);
    UpToContents(ops, block);
    ListingFoldsToTruth(k, Relevant(db, k, block), UpTo(ops, block), base);
  }

  /** A key whose operations up to some block fold has, at every earlier block, the history as it stood there. */
  lemma TruthInThePast(db: Database, k: ByteString, through: int, block: nat, base: Option<Version>)
    requires WellFormedDatabase(db) && WellFormedBase(k, base) && block <= through
    requires Truth(k, Relevant(db, k, through), base).Ok?
    ensures Truth(k, Relevant(db, k, block), base) == Ok(Started(Truth(k, Relevant(db, k, through), base).value, block))
  {
    hide OpsAmong, Relevant, Fold, UpTo, Started, WellFormedOps;
    RelevantIsWellFormed(db, k, through);
    OpsAmongAreWellFormed(k, Relevant(db, k, through));
    PastTruth(db, k, through, block, base);
    PastFoldIsStarted(k, Enumerate(OpsAmong(k, Relevant(db, k, through)).value), base, block);
  }

  /** Only blocks from 1 on hold operations. */
  lemma NothingBelowOne(db: Database, k: ByteString)
    requires WellFormedDatabase(db)
    ensures Relevant(db, k, 0) == map[]
  {
  }

  /** A cut below the first block is the cut at block 0. */
  lemma CutBelowOne(db: Database, k: ByteString, through: int)
    requires WellFormedDatabase(db)
    ensures Relevant(db, k, through) == Relevant(db, k, if through < 0 then 0 else through)
  {
  }

  /** No transaction in between: the same transactions count at both blocks. */
  lemma NothingInBetween(db: Database, k: ByteString, through: int, end: int)
    requires through <= end && forall at :: at in db && through < at.block <= end ==> !Touches(db[at], k)
    ensures Relevant(db, k, end) == Relevant(db, k, through)
  {
  }

  /** No version starts in between: the history stood alike at both blocks. */
  lemma {:induction false} NothingStartsInBetween(vs: seq<Version>, through: nat, end: nat)
    requires through <= end && forall i :: 0 <= i < |vs| ==> !(through < vs[i].fromBlock <= end)
    ensures Started(vs, end) == Started(vs, through)
  {
    if vs != [] && Last(vs).fromBlock > end { NothingStartsInBetween(vs[..|vs| - 1], through, end); }
  }

  // ---------------------------------------------------------------------
  // Each version stands on a stored row

  /** A stored transaction of a block touches the key. */
  ghost predicate HasRowAt(db: Database, k: ByteString, block: nat) {
    exists at :: at in db && at.block == block && Touches(db[at], k)
  }

  ghost predicate StandOnRows(db: Database, k: ByteString, vs: seq<Version>) {
    forall i :: 0 <= i < |vs| && vs[i].fromBlock >= 1 ==> HasRowAt(db, k, vs[i].fromBlock)
  }

  /** Every version of a fold after its genesis state was made at a block with a row of its key, at or below the cut. */
  lemma TruthStandsOnRows(db: Database, k: ByteString, through: int, base: Option<Version>)
    requires WellFormedDatabase(db) && WellFormedBase(k, base)
    requires Truth(k, Relevant(db, k, through), base).Ok?
    ensures var vs := Truth(k, Relevant(db, k, through), base).value;
            StandOnRows(db, k, vs) && forall i :: 0 <= i < |vs| && vs[i].fromBlock >= 1 ==> vs[i].fromBlock <= through
  {
    hide Fold, WellFormedOps;
    var txs := Relevant(db, k, through);
    RelevantIsWellFormed(db, k, through);
    OpsAmongAreWellFormed(k, txs);
    var ops := Enumerate(OpsAmong(k, txs).value);
    var vs := Truth(k, txs, base).value;
    forall i | 0 <= i < |vs| && vs[i].fromBlock >= 1 ensures HasRowAt(db, k, vs[i].fromBlock) && vs[i].fromBlock <= through {
      VersionsAreMade(k, ops, base, i);
      var o :| o in ops && LocationOf(o) == FromLocation(vs[i]);
      var at :| at in txs && o in LoadedTx(at, txs[at]).value && o.entityKey == k;
      LoadedShape(at, txs[at]);
      assert FromRow(o, at, db[at]);
    }
  }

  lemma VersionsAreMade(k: ByteString, ops: seq<Op>, base: Option<Version>, i: nat)
    requires WellFormedBase(k, base) && WellFormedOps(ops)
    requires Fold(k, ops, base).Ok? && i < |Fold(k, ops, base).value| && Fold(k, ops, base).value[i].fromBlock >= 1
    ensures MadeBy(Fold(k, ops, base).value[i], ops)
  {
    var all := SortedOps(ops);
    SortedOpsIsSorted(ops);
    ReplayContinues(k, Start(base), all, 0);
    assert all[..0] == [] && all[0..] == all;
    if base.Some? { StartOfCanonical(base.value); }
    var vs := Fold(k, ops, base).value;
    assert MadeBy(vs[i], all[0..]);
    var o :| o in all[0..] && LocationOf(o) == FromLocation(vs[i]);
    assert o in ops;
  }
}
