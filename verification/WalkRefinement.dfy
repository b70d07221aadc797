/**
 The walk of several backends (GenesisWalk) is what the projector's machine
 makes of a walk: each of its steps is one of the import's steps there, or
 changes nothing the index sees.
 */
module WalkRefinement {
  import opened Wrappers
  import opened ByteStrings
  import opened EntityIndex
  import opened FoldProperties
  import opened IndexStorage
  import opened IndexTables
  import opened GenesisEntity
  import P = Projector
  import R = ProjectorRuns
  import W = GenesisWalk

  /** The index's import and genesis rows are those of the state row. */
  ghost predicate Related(c: P.Setting, row: W.Row, index: P.Index) {
    && (row.phase == W.Walking ==> index.genesis == P.Walk(row.imported))
    && (row.phase == W.Repairing ==> index.genesis.Repair?)
    && (row.phase == W.Failed ==> index.genesis.Failed?)
    && (forall k :: RowRelated(c, row.rows, index.hist, k))
  }

  /** A genesis row in the one table is the genesis state in the other. */
  ghost predicate RowRelated(c: P.Setting, rows: map<ByteString, Version>, hist: Histories, k: ByteString) {
    if k in rows then Opened(BaseOf(VersionsOf(hist, k))) == Some(rows[k])
    else P.IsSeedKey(c, k) ==> VersionsOf(hist, k) == []
  }

  /** The node whose entities are the seed. */
  ghost predicate Walks(n: W.Node, c: P.Setting) {
    W.DistinctKeys(n) && AllStorable(n.order) && P.WellFormedSetting(c) && c.seed == Versions(n.order)
  }

  lemma {:induction false} InsertedRow(rows: map<ByteString, Version>, vs: seq<Version>, k: ByteString)
    requires forall i, j :: 0 <= i < j < |vs| ==> vs[i].entityKey != vs[j].entityKey
    ensures k in InsertRows(rows, vs) <==> k in rows || exists i :: 0 <= i < |vs| && vs[i].entityKey == k
    ensures k in rows ==> InsertRows(rows, vs)[k] == rows[k]
    ensures forall i :: 0 <= i < |vs| && vs[i].entityKey == k && k !in rows ==> InsertRows(rows, vs)[k] == vs[i]
  {
    if vs != [] {
      var n := |vs| - 1;
      InsertedRow(rows, vs[..n], k);
      if i :| 0 <= i < n && vs[..n][i].entityKey == k { assert vs[i].entityKey == k; }
    }
  }

  lemma SliceOfSeed(order: seq<NodeEntity>, from: nat, end: nat, vs: seq<Version>)
    requires AllStorable(order) && from <= end <= |order| && W.PageVersions(order[from..end], from) == Some(vs)
    ensures vs == Versions(order)[from..end]
  {
    hide VersionAt, W.PageVersions;
    var data := order[from..end];
    W.PageVersionsAre(data, from);
    forall i | 0 <= i < |vs| ensures vs[i] == Versions(order)[from + i] {
      assert data[i] == order[from + i];
    }
  }

  /** What a walk holds is its stretch of the seed. */
  lemma PendingIsSlice(n: W.Node, c: P.Setting, walker: W.Walker, total: nat)
    requires Walks(n, c) && W.WalkerStands(n, walker, total)
    ensures walker.pending == c.seed[walker.seenImported..walker.imported]
  {
    hide W.PageVersions, W.Stands, Versions, W.DistinctKeys;
    SliceOfSeed(n.order, walker.seenImported, walker.imported, walker.pending);
  }

  /** The batch goes into both tables alike. */
  lemma BatchStaysRelated(c: P.Setting, rows: map<ByteString, Version>, index: P.Index, imported: nat, finished: bool, k: ByteString)
    requires P.WellFormedSetting(c) && P.SeedRows(c, index) && WellFormedHistories(index.hist)
    requires index.genesis.Walk? && index.genesis.imported <= imported <= |c.seed|
    requires RowRelated(c, rows, index.hist, k)
    ensures RowRelated(c, InsertRows(rows, c.seed[index.genesis.imported..imported]), P.Imported(c, index, imported, finished).hist, k)
  {
    hide WellFormedHistories;
    var slice := c.seed[index.genesis.imported..imported];
    InsertedRow(rows, slice, k);
    R.ImportedVersions(c, index, imported, finished, k);
    R.WalkSliceIsInsertable(c, index, imported);
    if i :| 0 <= i < |slice| && slice[i].entityKey == k {
      R.ImportedSlice(c, index, imported, finished, index.genesis.imported + i);
      R.SeedOfIsSeed(c, index.genesis.imported + i);
      assert Canonical(slice[i]);
    } else if k !in rows {
      assert P.IsSeedKey(c, k) ==> k !in Inserted(index.hist, slice) || k in index.hist;
    }
  }

  lemma CommitRefines(n: W.Node, w: W.World, b: nat, c: P.Setting, p: P.World)
    requires Walks(n, c) && W.Invariant(n, w) && W.Allowed(n, w, W.Commit(b)) && W.Unmoved(w.row, w.walkers[b])
    requires P.SeedRows(c, p.index) && WellFormedHistories(p.index.hist) && Related(c, w.row, p.index)
    ensures var a := P.CommitWalk(w.walkers[b].imported, w.walkers[b].ended);
            P.Allowed(c, p, a) && Related(c, W.Do(w, W.Commit(b)).row, P.Do(c, p, a).index)
  {
    hide W.HoldsPrefix, W.PageVersions, W.Honest, RowRelated, WellFormedHistories, Inserted, InsertRows, P.SeedRows, W.DistinctKeys, Versions, AllStorable;
    var walker := w.walkers[b];
    assert !W.Finished(w, b);
    PendingIsSlice(n, c, walker, w.row.total);
    SeedLength(n, c);
    var index := P.Imported(c, p.index, walker.imported, walker.ended);
    forall k ensures RowRelated(c, InsertRows(w.row.rows, walker.pending), index.hist, k) {
      BatchStaysRelated(c, w.row.rows, p.index, walker.imported, walker.ended, k);
    }
  }

  lemma SeedLength(n: W.Node, c: P.Setting)
    requires Walks(n, c)
    ensures |c.seed| == |n.order|
  {
  }

  /** The step of the projector's machine a step of the walk is, if it changes the row. */
  function Refined(w: W.World, a: W.Action): Option<P.Action>
    requires a.Read? || a.Commit? || a.Expire? ==> a.b in w.walkers
  {
    match a
    case Read(b, page) =>
      if W.RefusesPage(w.walkers[b], page, w.row.total) && w.row.phase != W.Failed then Some(P.FailWalk) else None
    case Commit(b) =>
      if W.Unmoved(w.row, w.walkers[b]) then Some(P.CommitWalk(w.walkers[b].imported, w.walkers[b].ended)) else None
    case Expire(b) =>
      if W.RestartsOf(w, b) + 1 > W.GENESIS_CURSOR_RESTART_LIMIT then if w.row.phase != W.Failed then Some(P.FailWalk) else None
      else if w.row.phase == W.Walking then Some(P.RestartWalk) else None
    case _ => None
  }

  /** Each step of any backend is a step of the import in the projector's machine, or leaves the index as it is. */
  lemma WalkStepRefines(n: W.Node, w: W.World, a: W.Action, c: P.Setting, p: P.World)
    requires Walks(n, c) && W.Invariant(n, w) && W.Allowed(n, w, a)
    requires P.Invariant(c, p) && Related(c, w.row, p.index)
    ensures Refined(w, a).None? ==> Related(c, W.Do(w, a).row, p.index)
    ensures Refined(w, a).Some? ==>
              P.Allowed(c, p, Refined(w, a).value) && Related(c, W.Do(w, a).row, P.Do(c, p, Refined(w, a).value).index)
  {
    hide W.Invariant, P.Invariant, RowRelated, W.RefusesPage, W.Honest, InsertRows, Inserted, Walks;
    assert P.WellFormedSetting(c) by { WalkedSetting(n, c); }
    if a.Commit? && W.Unmoved(w.row, w.walkers[a.b]) {
      assert P.SeedRows(c, p.index) && WellFormedHistories(p.index.hist) by { InvariantHasRows(c, p); }
      CommitRefines(n, w, a.b, c, p);
    }
  }

  lemma InvariantHasRows(c: P.Setting, p: P.World)
    requires P.Invariant(c, p)
    ensures P.SeedRows(c, p.index) && WellFormedHistories(p.index.hist)
  {
  }

  lemma WalkedSetting(n: W.Node, c: P.Setting)
    requires Walks(n, c)
    ensures P.WellFormedSetting(c) && W.DistinctKeys(n)
  {
  }

  /**
   Every run of the walk, with any number of backends, is matched by a run of
   the projector's machine that takes only import steps, from any state that
   agrees with it at the start: so what holds of the index in all runs of the
   one holds under all walks of the other.
   */
  lemma {:induction false} WalkRunsRefine(n: W.Node, states: seq<W.World>, actions: seq<W.Action>, c: P.Setting, p: P.World)
    returns (index: seq<P.World>, steps: seq<P.Action>)
    requires Walks(n, c) && W.IsRun(n, states, actions) && W.StartsEmpty(states[0])
    requires P.Invariant(c, p) && Related(c, states[0].row, p.index)
    ensures P.WellFormedSetting(c) && R.IsRun(c, index, steps) && index[0] == p
    ensures forall i :: 0 <= i < |steps| ==> R.IsImportStep(steps[i])
    ensures P.Invariant(c, index[|steps|]) && Related(c, states[|actions|].row, index[|steps|].index)
    decreases |actions|
  {
    hide P.Invariant, Related, W.Invariant, Walks, W.StartsEmpty, W.Do, P.Allowed, P.Do, W.RefusesPage, W.Unmoved, W.Honest;
    WalkedSetting(n, c);
    if actions == [] {
      index, steps := [p], [];
    } else {
      var m := |actions| - 1;
      index, steps := WalkRunsRefine(n, states[..m + 1], actions[..m], c, p);
      W.WalkKeepsOrder(n, states, actions, m);
      var w, a, now := states[m], actions[m], index[|steps|];
      assert W.Allowed(n, w, a) && states[m + 1] == W.Do(w, a);
      WalkStepRefines(n, w, a, c, now);
      if Refined(w, a).Some? {
        var b := Refined(w, a).value;
        R.StepKeepsInvariant(c, now, b);
        index, steps := index + [P.Do(c, now, b)], steps + [b];
      }
    }
  }
}
