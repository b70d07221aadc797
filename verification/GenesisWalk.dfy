/**
 Walking the genesis entities in from the node, page by page
 (`walkGenesisEntities` in src/entityGenesis.ts, `walkGenesis` and
 `restartGenesisWalk` in src/entityProjector.ts): several backends may walk at
 once, each committing by comparing the state row with what it last saw, while
 the node forgets cursors and walks start over.
 */
module GenesisWalk {
  import opened Wrappers
  import opened ByteStrings
  import opened EntityIndex
  import opened IndexStorage
  import opened GenesisEntity

  /** Restarts from the first page after which a walk is given up. */
  const GENESIS_CURSOR_RESTART_LIMIT: nat := 3

  type PageCursor = ByteString

  /**
   The node: its entities in id order, and where in that order each of its
   cursors points. Cursors are forgotten, never reused for another place.
   */
  datatype Node = Node(order: seq<NodeEntity>, place: PageCursor -> nat)

  /** A page as answered: whether it is of block 0, its entities, and the cursor to the next page, if any. */
  datatype NodePage = NodePage(atBlockZero: bool, data: seq<NodeEntity>, next: Option<PageCursor>)

  datatype WalkPhase = Walking | Repairing | Failed

  /** The state row and the genesis rows in the table, keyed by entity. */
  datatype Row = Row(phase: WalkPhase, imported: nat, cursor: Option<PageCursor>, total: nat, rows: map<ByteString, Version>)

  /** One backend's walk: what it last saw of the row, and what it has read since. */
  datatype Walker = Walker(
    seenImported: nat, seenCursor: Option<PageCursor>,
    pending: seq<Version>, imported: nat, cursor: Option<PageCursor>, ended: bool)

  // ---------------------------------------------------------------------
  // One page

  /** The versions of a page's entities at the next positions; none when one is refused. */
  function PageVersions(data: seq<NodeEntity>, from: nat): Option<seq<Version>> {
    if data == [] then Some([])
    else
      var before := PageVersions(data[..|data| - 1], from);
      var v := VersionAt(data[|data| - 1], from + |data| - 1);
      if before.None? || v.None? then None else Some(before.value + [v.value])
  }

  /** Whether a page ends the walk with a refusal. */
  predicate RefusesPage(w: Walker, page: NodePage, total: nat) {
    || !page.atBlockZero
    || (page.next.Some? && page.next == w.cursor)
    || (page.next.Some? && page.data == [])
    || w.imported + |page.data| > total
    || PageVersions(page.data, w.imported).None?
    || (page.next.None? && w.imported + |page.data| != total)
  }

  /** The walk moved past a page. */
  function PastPage(w: Walker, page: NodePage): Walker
    requires PageVersions(page.data, w.imported).Some?
  {
    w.(pending := w.pending + PageVersions(page.data, w.imported).value, imported := w.imported + |page.data|,
       cursor := page.next, ended := page.next.None?)
  }

  // ---------------------------------------------------------------------
  // The machine

  datatype World = World(row: Row, walkers: map<nat, Walker>, restarts: map<nat, nat>)

  datatype Action =
    | Open(b: nat)
    | Read(b: nat, page: NodePage)
    | Commit(b: nat)
    | Expire(b: nat)
    | Die(b: nat)

  /** The node answers a cursor with what follows it in its order, and the cursor to go on with. */
  ghost predicate Honest(n: Node, w: Walker, page: NodePage) {
    var from := if w.cursor.Some? then n.place(w.cursor.value) else 0;
    from + |page.data| <= |n.order| && page.data == n.order[from..from + |page.data|] &&
    (page.next.None? ==> from + |page.data| == |n.order|) &&
    (page.next.Some? ==> n.place(page.next.value) == from + |page.data|)
  }

  ghost predicate Allowed(n: Node, w: World, a: Action) {
    match a
    case Open(b) => w.row.phase == Walking
    case Read(b, page) => b in w.walkers && !w.walkers[b].ended && Honest(n, w.walkers[b], page)
    case Commit(b) => b in w.walkers
    case Expire(b) => b in w.walkers && !w.walkers[b].ended
    case Die(b) => true
  }

  function RestartsOf(w: World, b: nat): nat { if b in w.restarts then w.restarts[b] else 0 }

  /** The row still says what this walk last wrote or read. */
  predicate Unmoved(row: Row, walker: Walker) {
    row.phase == Walking && row.imported == walker.seenImported && row.cursor == walker.seenCursor
  }

  /** `failGenesis`: whatever the phase, a running import is failed. */
  function FailedRow(row: Row): Row { if row.phase == Failed then row else row.(phase := Failed) }

  function Do(w: World, a: Action): World
    requires a.Read? || a.Commit? || a.Expire? ==> a.b in w.walkers
  {
    match a
    case Open(b) =>
      w.(walkers := w.walkers[b := Walker(w.row.imported, w.row.cursor, [], w.row.imported, w.row.cursor, false)])
    case Read(b, page) =>
      var walker := w.walkers[b];
      if RefusesPage(walker, page, w.row.total) then w.(row := FailedRow(w.row), walkers := w.walkers - {b})
      else w.(walkers := w.walkers[b := PastPage(walker, page)],
              restarts := if walker.cursor.Some? then w.restarts[b := 0] else w.restarts)
    case Commit(b) =>
      var walker := w.walkers[b];
      if !Unmoved(w.row, walker) then w.(walkers := w.walkers - {b})
      else w.(row := w.row.(rows := InsertRows(w.row.rows, walker.pending), imported := walker.imported, cursor := walker.cursor,
                            phase := if walker.ended then Repairing else Walking),
              walkers := w.walkers[b := walker.(seenImported := walker.imported, seenCursor := walker.cursor, pending := [])])
    case Expire(b) =>
      // The node refused a page request as expired: the walk is rewound to its first page, or given up after too many times in a row.
      var restarts := RestartsOf(w, b) + 1;
      if restarts > GENESIS_CURSOR_RESTART_LIMIT then
        World(FailedRow(w.row), w.walkers - {b}, w.restarts[b := 0])
      else
        World(if w.row.phase == Walking then w.row.(imported := 0, cursor := None) else w.row, w.walkers - {b}, w.restarts[b := restarts])
    case Die(b) => w.(walkers := w.walkers - {b})
  }

  // ---------------------------------------------------------------------
  // The invariant

  /** The rows are the versions of the first `m` entities in the node's order, at their places, and nothing else. */
  ghost predicate HoldsPrefix(n: Node, rows: map<ByteString, Version>, m: nat) {
    && m <= |n.order|
    && (forall i :: 0 <= i < m ==> VersionAt(n.order[i], i).Some?)
    && (forall i :: 0 <= i < m ==> RowIsIn(n, rows, i))
    && (forall k :: k in rows ==> exists i :: 0 <= i < m && IsRowOf(n, i, k, rows[k]))
  }

  ghost predicate IsRowOf(n: Node, i: nat, k: ByteString, v: Version)
    requires i < |n.order|
  {
    VersionAt(n.order[i], i) == Some(v) && v.entityKey == k
  }

  ghost predicate RowIsIn(n: Node, rows: map<ByteString, Version>, i: nat)
    requires i < |n.order| && VersionAt(n.order[i], i).Some?
  {
    var v := VersionAt(n.order[i], i).value;
    v.entityKey in rows && rows[v.entityKey] == v
  }

  /** The node names its entities apart. */
  ghost predicate DistinctKeys(n: Node) {
    forall i, j :: 0 <= i < j < |n.order| && VersionAt(n.order[i], i).Some? && VersionAt(n.order[j], j).Some? ==>
      VersionAt(n.order[i], i).value.entityKey != VersionAt(n.order[j], j).value.entityKey
  }

  /** A cursor stands where the count says; there is none exactly when nothing is counted yet. */
  ghost predicate Stands(n: Node, imported: nat, cursor: Option<PageCursor>) {
    (cursor.None? <==> imported == 0) && (cursor.Some? ==> n.place(cursor.value) == imported)
  }

  /** A walker holds the versions of the entities between what it saw of the row and where it is. */
  ghost predicate WalkerStands(n: Node, walker: Walker, total: nat) {
    && Stands(n, walker.seenImported, walker.seenCursor)
    && walker.seenImported <= walker.imported <= |n.order| && walker.imported <= total
    && PageVersions(n.order[walker.seenImported..walker.imported], walker.seenImported) == Some(walker.pending)
    && (if walker.ended then walker.imported == |n.order| == total && walker.cursor.None? else Stands(n, walker.imported, walker.cursor))
  }

  ghost predicate Invariant(n: Node, w: World) {
    && (exists m :: w.row.imported <= m && HoldsPrefix(n, w.row.rows, m))
    && (w.row.phase == Walking ==> Stands(n, w.row.imported, w.row.cursor))
    && (w.row.phase == Repairing ==> w.row.imported == w.row.total == |n.order| && HoldsPrefix(n, w.row.rows, |n.order|))
    && w.row.imported <= w.row.total
    && forall b :: b in w.walkers && !Finished(w, b) ==> WalkerStands(n, w.walkers[b], w.row.total)
  }

  /** This walker handed the import over; it has nothing more to commit. */
  ghost predicate Finished(w: World, b: nat)
    requires b in w.walkers
  {
    w.walkers[b].ended && w.walkers[b].pending == [] && w.row.phase != Walking
  }

  // ---------------------------------------------------------------------
  // Each step keeps it

  lemma {:induction false} PageVersionsInTwo(a: seq<NodeEntity>, b: seq<NodeEntity>, from: nat)
    requires PageVersions(a, from).Some? && PageVersions(b, from + |a|).Some?
    ensures PageVersions(a + b, from) == Some(PageVersions(a, from).value + PageVersions(b, from + |a|).value)
  {
    hide VersionAt;
    if b == [] {
      assert a + b == a && PageVersions(a, from).value + [] == PageVersions(a, from).value;
    } else {
      var last := |b| - 1;
      assert (a + b)[..|a + b| - 1] == a + b[..last] && (a + b)[|a + b| - 1] == b[last];
      PageVersionsInTwo(a, b[..last], from);
      var v := VersionAt(b[last], from + |a| + last).value;
      assert PageVersions(a, from).value + (PageVersions(b[..last], from + |a|).value + [v]) ==
             (PageVersions(a, from).value + PageVersions(b[..last], from + |a|).value) + [v];
    }
  }

  lemma {:induction false} PageVersionsAre(data: seq<NodeEntity>, from: nat)
    requires PageVersions(data, from).Some?
    ensures |PageVersions(data, from).value| == |data|
    ensures forall i :: 0 <= i < |data| ==> VersionAt(data[i], from + i) == Some(PageVersions(data, from).value[i])
  {
    if data != [] {
      PageVersionsAre(data[..|data| - 1], from);
    }
  }

  lemma OrderInTwo(s: seq<NodeEntity>, a: nat, b: nat, c: nat)
    requires a <= b <= c <= |s|
    ensures s[a..b] + s[b..c] == s[a..c]
  {
  }

  lemma LastOfPage(data: seq<NodeEntity>, from: nat, vs: seq<Version>)
    requires data != [] && PageVersions(data, from) == Some(vs)
    ensures vs != [] && PageVersions(data[..|data| - 1], from) == Some(vs[..|vs| - 1])
    ensures VersionAt(data[|data| - 1], from + |data| - 1) == Some(vs[|vs| - 1])
  {
  }

  lemma ReadStands(n: Node, walker: Walker, page: NodePage, total: nat)
    requires WalkerStands(n, walker, total) && !walker.ended && Honest(n, walker, page) && !RefusesPage(walker, page, total)
    ensures WalkerStands(n, PastPage(walker, page), total)
  {
    hide VersionAt, PageVersions;
    var from, end := walker.imported, walker.imported + |page.data|;
    assert page.data == n.order[from..end];
    OrderInTwo(n.order, walker.seenImported, from, end);
    assert |n.order[walker.seenImported..from]| == from - walker.seenImported;
    PageVersionsInTwo(n.order[walker.seenImported..from], page.data, walker.seenImported);
  }

  /** Inserting the versions of the next entities extends the prefix, or leaves a longer one as it is. */
  lemma {:induction false} InsertExtends(n: Node, rows: map<ByteString, Version>, m: nat, from: nat, end: nat, vs: seq<Version>)
    requires DistinctKeys(n) && HoldsPrefix(n, rows, m) && from <= m && from <= end <= |n.order|
    requires PageVersions(n.order[from..end], from) == Some(vs)
    ensures HoldsPrefix(n, InsertRows(rows, vs), if end > m then end else m)
    decreases end
  {
    hide HoldsPrefix, DistinctKeys, VersionAt, PageVersions, InsertRows;
    var slice := n.order[from..end];
    if end == from {
      EmptyPage(rows, from);
      assert slice == [];
    } else {
      assert slice[..|slice| - 1] == n.order[from..end - 1] && slice[|slice| - 1] == n.order[end - 1];
      LastOfPage(slice, from, vs);
      InsertExtends(n, rows, m, from, end - 1, vs[..|vs| - 1]);
      OneMoreRow(n, InsertRows(rows, vs[..|vs| - 1]), if end - 1 > m then end - 1 else m, end - 1);
      LastInserted(rows, vs);
    }
  }

  lemma EmptyPage(rows: map<ByteString, Version>, from: nat)
    ensures PageVersions([], from) == Some([]) && InsertRows(rows, []) == rows
  {
  }

  lemma LastInserted(rows: map<ByteString, Version>, vs: seq<Version>)
    requires vs != []
    ensures var before, last := InsertRows(rows, vs[..|vs| - 1]), vs[|vs| - 1];
            InsertRows(rows, vs) == if last.entityKey in before then before else before[last.entityKey := last]
  {
  }

  /** One more entity's row, in place already or the next of the prefix. */
  lemma OneMoreRow(n: Node, rows: map<ByteString, Version>, m: nat, i: nat)
    requires DistinctKeys(n) && HoldsPrefix(n, rows, m) && i <= m && i < |n.order| && VersionAt(n.order[i], i).Some?
    ensures var v := VersionAt(n.order[i], i).value;
            HoldsPrefix(n, if v.entityKey in rows then rows else rows[v.entityKey := v], if i == m then m + 1 else m)
  {
    var v := VersionAt(n.order[i], i).value;
    if i < m {
      assert RowIsIn(n, rows, i);
    } else {
      forall k | k in rows ensures k != v.entityKey {
        var j :| 0 <= j < m && IsRowOf(n, j, k, rows[k]);
      }
      var after := rows[v.entityKey := v];
      forall j | 0 <= j < m + 1 ensures VersionAt(n.order[j], j).Some? && RowIsIn(n, after, j) {
        if j < m { assert RowIsIn(n, rows, j); }
      }
      forall k | k in after ensures exists j :: 0 <= j < m + 1 && IsRowOf(n, j, k, after[k]) {
        if k in rows {
          var j :| 0 <= j < m && IsRowOf(n, j, k, rows[k]);
          assert k != v.entityKey;
          assert IsRowOf(n, j, k, after[k]);
        } else {
          assert IsRowOf(n, m, k, after[k]);
        }
      }
    }
  }

  lemma CommitKeepsRows(n: Node, w: World, b: nat)
    requires DistinctKeys(n) && Invariant(n, w) && Allowed(n, w, Commit(b)) && Unmoved(w.row, w.walkers[b])
    ensures var row := Do(w, Commit(b)).row;
            (exists m :: row.imported <= m && HoldsPrefix(n, row.rows, m)) &&
            (row.phase == Repairing ==> HoldsPrefix(n, row.rows, |n.order|))
  {
    var m :| w.row.imported <= m && HoldsPrefix(n, w.row.rows, m);
    var walker := w.walkers[b];
    InsertExtends(n, w.row.rows, m, walker.seenImported, walker.imported, walker.pending);
    var row := Do(w, Commit(b)).row;
    var grown := if walker.imported > m then walker.imported else m;
    assert row.imported <= grown && HoldsPrefix(n, row.rows, grown);
  }

  lemma CommitKeepsInvariant(n: Node, w: World, b: nat)
    requires DistinctKeys(n) && Invariant(n, w) && Allowed(n, w, Commit(b))
    ensures Invariant(n, Do(w, Commit(b)))
  {
    hide HoldsPrefix, InsertRows;
    if Unmoved(w.row, w.walkers[b]) {
      CommitKeepsRows(n, w, b);
      var walker, w' := w.walkers[b], Do(w, Commit(b));
      assert n.order[walker.imported..walker.imported] == [];
      forall c | c in w'.walkers && !Finished(w', c) ensures WalkerStands(n, w'.walkers[c], w'.row.total) {
        assert c == b || !Finished(w, c);
      }
    }
  }

  lemma OtherStepsKeepInvariant(n: Node, w: World, a: Action)
    requires Invariant(n, w) && Allowed(n, w, a) && !a.Commit? && !a.Read?
    ensures Invariant(n, Do(w, a))
  {
    hide HoldsPrefix;
    var m :| w.row.imported <= m && HoldsPrefix(n, w.row.rows, m);
    var w' := Do(w, a);
    assert w'.row.imported <= m;
    if a.Open? {
      assert m <= |n.order| by { HeldPrefixIsInside(n, w.row.rows, m); }
      assert n.order[w.row.imported..w.row.imported] == [];
    }
    forall c | c in w'.walkers && !Finished(w', c) ensures WalkerStands(n, w'.walkers[c], w'.row.total) {
      assert (a.Open? && c == a.b) || (c in w.walkers && !Finished(w, c));
    }
  }

  lemma HeldPrefixIsInside(n: Node, rows: map<ByteString, Version>, m: nat)
    requires HoldsPrefix(n, rows, m)
    ensures m <= |n.order|
  {
  }

  lemma ReadKeepsInvariant(n: Node, w: World, b: nat, page: NodePage)
    requires Invariant(n, w) && Allowed(n, w, Read(b, page))
    ensures Invariant(n, Do(w, Read(b, page)))
  {
    hide HoldsPrefix;
    var m :| w.row.imported <= m && HoldsPrefix(n, w.row.rows, m);
    var w' := Do(w, Read(b, page));
    assert w'.row.imported <= m;
    if !RefusesPage(w.walkers[b], page, w.row.total) {
      ReadStands(n, w.walkers[b], page, w.row.total);
    }
    forall c | c in w'.walkers && !Finished(w', c) ensures WalkerStands(n, w'.walkers[c], w'.row.total) {
      assert c == b || !Finished(w, c);
    }
  }

  lemma StepKeepsInvariant(n: Node, w: World, a: Action)
    requires DistinctKeys(n) && Invariant(n, w) && Allowed(n, w, a)
    ensures Invariant(n, Do(w, a))
  {
    match a
    case Commit(b) => CommitKeepsInvariant(n, w, b);
    case Read(b, page) => ReadKeepsInvariant(n, w, b, page);
    case _ => OtherStepsKeepInvariant(n, w, a);
  }

  // ---------------------------------------------------------------------
  // Runs

  ghost predicate IsRun(n: Node, states: seq<World>, actions: seq<Action>) {
    |states| == |actions| + 1 &&
    forall i :: 0 <= i < |actions| ==> Allowed(n, states[i], actions[i]) && states[i + 1] == Do(states[i], actions[i])
  }

  ghost predicate StartsEmpty(w: World) {
    w.row.phase == Walking && w.row.imported == 0 && w.row.cursor.None? && w.row.rows == map[] && w.walkers == map[]
  }

  /**
   Over every run, with any number of backends, expiries, rewinds and crashes:
   the rows are the versions of a prefix of the node's order, each at its
   place, the cursor stands at the count and is null exactly while it is zero,
   and the import is handed over only with exactly all counted entities in.
   */
  lemma {:induction false} WalkKeepsOrder(n: Node, states: seq<World>, actions: seq<Action>, i: nat)
    requires DistinctKeys(n) && IsRun(n, states, actions) && StartsEmpty(states[0]) && i < |states|
    ensures Invariant(n, states[i])
  {
    if i == 0 {
      assert HoldsPrefix(n, states[0].row.rows, 0);
    } else {
      WalkKeepsOrder(n, states, actions, i - 1);
      StepKeepsInvariant(n, states[i - 1], actions[i - 1]);
    }
  }

  /** Handed over, the table holds exactly the node's entities, as many as it counted, each at its number. */
  lemma HandedOverIsWhole(n: Node, states: seq<World>, actions: seq<Action>, i: nat)
    requires DistinctKeys(n) && IsRun(n, states, actions) && StartsEmpty(states[0]) && i < |states| && states[i].row.phase == Repairing
    ensures AllStorable(n.order) && |n.order| == states[i].row.total
    ensures forall k, v :: k in states[i].row.rows && states[i].row.rows[k] == v <==> v in Versions(n.order) && v.entityKey == k
  {
    WalkKeepsOrder(n, states, actions, i);
    var rows, all := states[i].row.rows, Versions(n.order);
    forall k, v | k in rows && rows[k] == v ensures v in all && v.entityKey == k {
      var j :| 0 <= j < |n.order| && IsRowOf(n, j, k, rows[k]);
      assert all[j] == v;
    }
    forall k, v | v in all && v.entityKey == k ensures k in rows && rows[k] == v {
      var j :| 0 <= j < |all| && all[j] == v;
      assert RowIsIn(n, rows, j);
    }
  }

  /** Every row in the first table is in the second, as it is. */
  predicate Keeps(before: map<ByteString, Version>, after: map<ByteString, Version>) {
    forall k :: k in before ==> k in after && after[k] == before[k]
  }

  lemma {:induction false} InsertKeeps(rows: map<ByteString, Version>, vs: seq<Version>)
    ensures Keeps(rows, InsertRows(rows, vs))
  {
    if vs != [] { InsertKeeps(rows, vs[..|vs| - 1]); }
  }

  /**
   A row once written stands, through rewinds, stale walks and failures: from
   any state of a run to any later one no row is lost or rewritten.
   */
  lemma {:induction false} RowsAreNeverRewritten(n: Node, states: seq<World>, actions: seq<Action>, i: nat, j: nat)
    requires IsRun(n, states, actions) && i <= j < |states|
    ensures Keeps(states[i].row.rows, states[j].row.rows)
    decreases j
  {
    if i < j {
      RowsAreNeverRewritten(n, states, actions, i, j - 1);
      var w, a := states[j - 1], actions[j - 1];
      assert Allowed(n, w, a) && states[j] == Do(w, a);
      if a.Commit? { InsertKeeps(w.row.rows, w.walkers[a.b].pending); }
    }
  }

  /** No cursor is refused as expired between two states. */
  ghost predicate NoRewind(actions: seq<Action>, i: nat, j: nat) {
    forall k :: i <= k < j && k < |actions| ==> !actions[k].Expire?
  }

  /** Without a rewind the count only grows. */
  lemma {:induction false} CountGrows(n: Node, states: seq<World>, actions: seq<Action>, i: nat, j: nat)
    requires DistinctKeys(n) && IsRun(n, states, actions) && StartsEmpty(states[0]) && i <= j < |states| && NoRewind(actions, i, j)
    ensures states[i].row.imported <= states[j].row.imported
    decreases j
  {
    hide HoldsPrefix, InsertRows, PageVersions, RefusesPage, Honest, DistinctKeys;
    if i < j {
      CountGrows(n, states, actions, i, j - 1);
      WalkKeepsOrder(n, states, actions, j - 1);
      var w, a := states[j - 1], actions[j - 1];
      assert Allowed(n, w, a) && states[j] == Do(w, a) && !a.Expire?;
      if a.Commit? && Unmoved(w.row, w.walkers[a.b]) { assert !Finished(w, a.b); }
    }
  }

  /**
   The compare-and-swap is a fence for as long as nothing rewinds: once the
   count has passed what a walk last saw of it, at any earlier moment, whatever
   that walk commits later changes nothing.
   */
  lemma OvertakenCommitChangesNothing(n: Node, states: seq<World>, actions: seq<Action>, i: nat, j: nat, b: nat)
    requires DistinctKeys(n) && IsRun(n, states, actions) && StartsEmpty(states[0]) && i <= j < |actions| && NoRewind(actions, i, j)
    requires actions[j] == Commit(b) && b in states[j].walkers && states[j].walkers[b].seenImported < states[i].row.imported
    ensures states[j + 1].row == states[j].row
  {
    CountGrows(n, states, actions, i, j);
    assert states[j + 1] == Do(states[j], actions[j]);
  }

  /**
   The one way a stale walk still reaches a moved row: its refusal or its last
   expired cursor fails a running import in either phase. A row in the repair
   phase stays there exactly when the step is none of those.
   */
  lemma HandedOverFailsExactly(n: Node, w: World, a: Action)
    requires Allowed(n, w, a) && w.row.phase == Repairing
    ensures Do(w, a).row == w.row <==>
            !(a.Read? && RefusesPage(w.walkers[a.b], a.page, w.row.total)) &&
            !(a.Expire? && RestartsOf(w, a.b) >= GENESIS_CURSOR_RESTART_LIMIT)
  {
  }

  lemma {:induction false} StorablePage(n: Node, end: nat)
    requires AllStorable(n.order) && end <= |n.order|
    ensures PageVersions(n.order[..end], 0).Some?
  {
    if end > 0 {
      assert n.order[..end][..end - 1] == n.order[..end - 1];
      StorablePage(n, end - 1);
    }
  }

  /** The row handed over, and then failed, with the same rows in the table. */
  ghost predicate HandedOverThenFailed(n: Node, states: seq<World>, actions: seq<Action>) {
    IsRun(n, states, actions) && StartsEmpty(states[0]) && |actions| > 0 &&
    var before, after := states[|actions| - 1].row, states[|actions|].row;
    before.phase == Repairing && before.imported == before.total == |n.order| &&
    after == before.(phase := Failed)
  }

  /** A walk that reads one page and finds its cursor forgotten: the row is rewound, and the backend has counted one more. */
  lemma OneExpiry(n: Node, w: World, page: NodePage)
    requires w.row.phase == Walking && w.row.imported == 0 && w.row.cursor.None? && w.walkers == map[]
    requires page.next.Some? && Honest(n, Walker(0, None, [], 0, None, false), page)
    requires !RefusesPage(Walker(0, None, [], 0, None, false), page, w.row.total) && RestartsOf(w, 1) < GENESIS_CURSOR_RESTART_LIMIT
    ensures var w1 := Do(w, Open(1));
            Allowed(n, w, Open(1)) && Allowed(n, w1, Read(1, page)) &&
            var w2 := Do(w1, Read(1, page));
            Allowed(n, w2, Expire(1)) && Do(w2, Expire(1)) == w.(restarts := w.restarts[1 := RestartsOf(w, 1) + 1])
  {
    var w2 := Do(Do(w, Open(1)), Read(1, page));
    assert w2.walkers - {1} == map[];
  }

  /** A run with one more step. */
  lemma Played(n: Node, states: seq<World>, actions: seq<Action>, a: Action) returns (more: seq<World>, done: seq<Action>)
    requires |states| == |actions| + 1 && IsRun(n, states, actions) && Allowed(n, states[|actions|], a)
    ensures |more| == |done| + 1 == |states| + 1 && IsRun(n, more, done) && more[0] == states[0]
    ensures more[|actions|] == states[|actions|] && more[|done|] == Do(states[|actions|], a)
  {
    more, done := states + [Do(states[|actions|], a)], actions + [a];
  }

  lemma NoSteps(n: Node, w: World)
    ensures IsRun(n, [w], [])
  {
  }

  /** Three walks in a row whose cursor is forgotten. */
  lemma ThreeExpiries(n: Node, w0: World, page: NodePage) returns (states: seq<World>, actions: seq<Action>)
    requires StartsEmpty(w0) && w0.restarts == map[]
    requires page.next.Some? && Honest(n, Walker(0, None, [], 0, None, false), page)
    requires !RefusesPage(Walker(0, None, [], 0, None, false), page, w0.row.total)
    ensures |states| == |actions| + 1 && IsRun(n, states, actions)
    ensures states[0] == w0 && states[|actions|] == w0.(restarts := map[1 := 3])
  {
    hide Honest, RefusesPage, Allowed, Do, IsRun;
    states, actions := [w0], [];
    NoSteps(n, w0);
    for i := 0 to 3
      invariant |states| == |actions| + 1 && IsRun(n, states, actions) && states[0] == w0
      invariant states[|actions|] == w0.(restarts := if i == 0 then map[] else map[1 := i])
    {
      OneExpiry(n, states[|actions|], page);
      states, actions := Played(n, states, actions, Open(1));
      states, actions := Played(n, states, actions, Read(1, page));
      states, actions := Played(n, states, actions, Expire(1));
    }
  }

  /**
   It happens, whatever the node holds: two backends open the same walk, one
   reads it to the end and hands over, and the other's first page comes back for
   another block. All entities are in and the import is failed.
   */
  lemma LateRefusalFailsTheImport(n: Node, w: World) returns (states: seq<World>, actions: seq<Action>)
    requires AllStorable(n.order) && StartsEmpty(w) && w.row.total == |n.order|
    ensures HandedOverThenFailed(n, states, actions) && states[0] == w
  {
    hide VersionAt, PageVersions, InsertRows, IsRun;
    var whole, wrong := NodePage(true, n.order, None), NodePage(false, n.order, None);
    StorablePage(n, |n.order|);
    assert n.order[..|n.order|] == n.order[0..0 + |n.order|] == n.order;
    NoSteps(n, w);
    states, actions := Played(n, [w], [], Open(0));
    states, actions := Played(n, states, actions, Open(1));
    states, actions := Played(n, states, actions, Read(0, whole));
    states, actions := Played(n, states, actions, Commit(0));
    states, actions := Played(n, states, actions, Read(1, wrong));
  }

  /** The other way there: the second backend waits with a cursor, its restarts used up, when the node forgets it. */
  lemma LateExpiryFailsTheImport(n: Node, first: PageCursor) returns (states: seq<World>, actions: seq<Action>)
    requires AllStorable(n.order) && 0 < n.place(first) <= |n.order|
    ensures HandedOverThenFailed(n, states, actions)
  {
    hide VersionAt, PageVersions, InsertRows, IsRun;
    var whole, page := NodePage(true, n.order, None), NodePage(true, n.order[..n.place(first)], Some(first));
    StorablePage(n, |n.order|);
    StorablePage(n, n.place(first));
    assert n.order[..|n.order|] == n.order[0..0 + |n.order|] == n.order;
    states, actions := ThreeExpiries(n, World(Row(Walking, 0, None, |n.order|, map[]), map[], map[]), page);
    states, actions := Played(n, states, actions, Open(1));
    states, actions := Played(n, states, actions, Read(1, page));
    states, actions := Played(n, states, actions, Open(0));
    states, actions := Played(n, states, actions, Read(0, whole));
    states, actions := Played(n, states, actions, Commit(0));
    states, actions := Played(n, states, actions, Expire(1));
  }

  // ---------------------------------------------------------------------
  // The walk as the source writes it

  /** The walk over some answers, up to the last page; none when one of them is refused. */
  function Walked(w: Walker, pages: seq<NodePage>, total: nat): Option<Walker> {
    if pages == [] then Some(w)
    else
      var before, page := Walked(w, pages[..|pages| - 1], total), pages[|pages| - 1];
      if before.None? || before.value.ended then before
      else if RefusesPage(before.value, page, total) then None
      else Some(PastPage(before.value, page))
  }

  lemma WalkedOne(w: Walker, pages: seq<NodePage>, total: nat, i: nat)
    requires i < |pages| && Walked(w, pages[..i], total).Some? && !Walked(w, pages[..i], total).value.ended
    ensures var before := Walked(w, pages[..i], total).value;
            Walked(w, pages[..i + 1], total) == if RefusesPage(before, pages[i], total) then None else Some(PastPage(before, pages[i]))
  {
    assert pages[..i + 1][..i] == pages[..i];
  }

  lemma NoPages(w: Walker, total: nat)
    ensures Walked(w, [], total) == Some(w)
  {
  }

  lemma {:induction false} WalkedStops(w: Walker, pages: seq<NodePage>, total: nat, i: nat)
    requires i <= |pages|
    requires var sofar := Walked(w, pages[..i], total); sofar.None? || sofar.value.ended
    ensures Walked(w, pages, total) == Walked(w, pages[..i], total)
  {
    if i == |pages| {
      assert pages[..i] == pages;
    } else {
      assert pages[..|pages| - 1][..i] == pages[..i];
      WalkedStops(w, pages[..|pages| - 1], total, i);
    }
  }

  lemma {:induction false} RefusedEarlier(data: seq<NodeEntity>, from: nat, i: nat)
    requires i <= |data| && PageVersions(data[..i], from).None?
    ensures PageVersions(data, from).None?
  {
    if i == |data| {
      assert data[..i] == data;
    } else {
      assert data[..|data| - 1][..i] == data[..i];
      RefusedEarlier(data[..|data| - 1], from, i);
    }
  }

  /** `page.data.map(...)`: each entity at the next position. */
  method ConvertPage(data: seq<NodeEntity>, from: nat) returns (versions: Option<seq<Version>>)
    ensures versions == PageVersions(data, from)
  {
    var converted: seq<Version> := [];
    for i := 0 to |data|
      invariant PageVersions(data[..i], from) == Some(converted)
    {
      assert data[..i + 1][..i] == data[..i];
      var v := GenesisEntityToVersion(data[i], from + i);
      if v.None? {
        RefusedEarlier(data, from, i + 1);
        return None;
      }
      converted := converted + [v.value];
    }
    assert data[..|data|] == data;
    return Some(converted);
  }

  /** The generator: refused before the first page for a count out of range or already passed, then the loop over the node's answers. */
  method WalkGenesisEntities(resume: Walker, answers: seq<NodePage>, total: nat) returns (walker: Option<Walker>)
    requires !resume.ended
    ensures walker == if total > MAX_GENESIS_POSITION || resume.imported > total then None else Walked(resume, answers, total)
  {
    hide Walked, PageVersions, VersionAt;
    if total > MAX_GENESIS_POSITION || resume.imported > total { return None; }
    NoPages(resume, total);
    assert answers[..0] == [];
    var cursor, pending := resume.cursor, resume.pending;
    var imported: nat := resume.imported;
    for i := 0 to |answers|
      invariant Walked(resume, answers[..i], total) == Some(resume.(cursor := cursor, imported := imported, pending := pending))
    {
      var page := answers[i];
      ghost var before := resume.(cursor := cursor, imported := imported, pending := pending);
      ghost var next := Walked(resume, answers[..i + 1], total);
      WalkedOne(resume, answers, total, i);
      if next.None? || next.value.ended { WalkedStops(resume, answers, total, i + 1); }
      if !page.atBlockZero || (page.next.Some? && page.next == cursor) || (page.next.Some? && page.data == []) ||
         imported + |page.data| > total
      {
        return None;
      }
      var versions := ConvertPage(page.data, imported);
      if versions.None? { return None; }
      imported, pending, cursor := imported + |page.data|, pending + versions.value, page.next;
      if cursor.None? {
        if imported != total { return None; }
        return Some(Walker(resume.seenImported, resume.seenCursor, pending, imported, None, true));
      }
    }
    assert answers[..|answers|] == answers;
    return Some(Walker(resume.seenImported, resume.seenCursor, pending, imported, cursor, false));
  }
}
