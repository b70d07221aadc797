/**
 Reading a query page by page at a pinned block (`queryEntities` in
 src/entityIndexStorage.ts, `arkiv_query` in src/arkivJsonRpc.ts), while the
 projector may be folding later blocks between the pages.
 */
module Paging {
  import opened Wrappers
  import opened ByteStrings
  import opened EntityIndex
  import opened FoldProperties
  import opened IndexStorage
  import opened IndexTables
  import opened StoredPast
  import opened Projector
  import opened ProjectorTheorems
  import opened QuerySql
  import Cursor

  // ---------------------------------------------------------------------
  // The two live filters

  predicate LiveAtHead(v: Version, block: int) {
    v.toBlock.None? && v.fromBlock <= block && !v.deleted && v.expiresAt > block
  }

  predicate LiveInThePast(v: Version, block: int) {
    ValidAt(v, block) && !v.deleted && v.expiresAt > block
  }

  predicate LiveFilter(v: Version, block: int, atHead: bool) {
    if atHead then LiveAtHead(v, block) else LiveInThePast(v, block)
  }

  /** Whatever was folded since, the head filter selects only rows the historical filter selects. */
  lemma HeadFilterIsSubset(v: Version, block: int)
    requires LiveAtHead(v, block)
    ensures LiveInThePast(v, block)
  {
  }

  /** An entity has a version that starts above the block. */
  ghost predicate VersionAbove(hist: Histories, k: ByteString, block: int) {
    exists i :: 0 <= i < |VersionsOf(hist, k)| && VersionsOf(hist, k)[i].fromBlock > block
  }

  /** The two filters part exactly on a row that is live at the block and whose entity has a version that starts above it. */
  lemma HeadFilterIsExact(hist: Histories, v: Version, block: nat)
    requires WellFormedHistories(hist) && Recorded(hist, v)
    ensures LiveAtHead(v, block) <==> LiveInThePast(v, block) && !VersionAbove(hist, v.entityKey, block)
  {
    var vs := hist[v.entityKey];
    assert WellFormedVersions(v.entityKey, vs);
    var n := StartedOfHistory(v.entityKey, vs, block);
    assert VersionsOf(hist, v.entityKey) == vs;
    if n < |vs| { assert VersionsOf(hist, v.entityKey)[n].fromBlock > block; }
    assert VersionAbove(hist, v.entityKey, block) <==> n < |vs|;
    if v.version == |vs| - 1 {
      assert v == Last(vs) && v.toBlock.None?;
    } else {
      assert vs[v.version].toBlock == Some(vs[v.version + 1].fromBlock);
      assert ValidAt(v, block) ==> !(vs[v.version + 1].fromBlock <= block);
    }
  }

  // ---------------------------------------------------------------------
  // The block a read is answered at

  datatype ResolvedBlock = ResolvedBlock(block: int, atHead: bool)

  /** `genesisReadiness`: an import is done; or none was found or asked for, where nobody manages one. */
  predicate GenesisReady(g: Genesis, managed: bool) {
    g.Done? || (!managed && (g.Unprobed? || g.NoneFound?))
  }

  function ResolveBlock(index: Index, managed: bool, requested: Option<int>): Outcome<ResolvedBlock> {
    if !GenesisReady(index.genesis, managed) || index.through.None? then Fault
    else
      var head := index.through.value;
      if requested.None? then Ok(ResolvedBlock(head, true))
      else if requested.value > head || (index.floor.Some? && requested.value < index.floor.value) then Fault
      else Ok(ResolvedBlock(requested.value, requested.value == head))
  }

  /**
   A read is answered at a block the index covers or not at all: never above
   the fold point, never while an import owns the index, and with the head
   filter exactly at the fold point.
   */
  lemma ReadsAreCovered(w: World, managed: bool, requested: Option<int>)
    ensures var r := ResolveBlock(w.index, managed, requested);
            (r.Ok? ==> Ready(w) && r.value.block <= w.index.through.value && (r.value.atHead <==> r.value.block == w.index.through.value)) &&
            (r.Fault? && Ready(w) && !managed ==>
               requested.Some? && (requested.value > w.index.through.value || (w.index.floor.Some? && requested.value < w.index.floor.value)))
  {
  }

  // ---------------------------------------------------------------------
  // The rows a statement selects

  /** The rows the WHERE clause keeps, the block being the statement's first parameter. */
  ghost predicate Selected(versions: VersionTable, attributes: AttributeTable, q: Query, params: seq<Param>, block: int, atHead: bool, v: Version) {
    IdOf(v) in versions && versions[IdOf(v)] == v && LiveFilter(v, block, atHead) &&
    Compile(q, 1).Ok? && Eval(Compile(q, 1).value.sql, v, attributes, params) == Ok(true)
  }

  /** The rows that answer a query at a block. */
  ghost predicate IsAnswerRow(hist: Histories, q: Query, block: int, atHead: bool, v: Version) {
    Recorded(hist, v) && LiveFilter(v, block, atHead) && Matches(q, v)
  }

  /**
   The statement selects exactly the recorded live versions the query matches,
   whatever parameters (cursor, limit) follow the compiled ones.
   */
  lemma StatementSelectsAnswers(versions: VersionTable, attributes: AttributeTable, hist: Histories, q: Query, block: int, atHead: bool,
                                first: Param, rest: seq<Param>, v: Version)
    requires IsVersionTable(versions, hist) && IsAttributeTable(attributes, hist)
    requires WellTyped(q) && LiteralsInRange(q) && v.createdAt <= I64_MAX
    ensures Compile(q, 1).Ok?
    ensures Selected(versions, attributes, q, [first] + Compile(q, 1).value.params + rest, block, atHead, v) <==>
            IsAnswerRow(hist, q, block, atHead, v)
  {
    WellTypedCompiles(q);
    if IdOf(v) in versions && versions[IdOf(v)] == v { assert Recorded(hist, v); }
    if Recorded(hist, v) {
      CompilationPreservesMeaning(q, v, attributes, hist, [first], rest);
    }
  }

  lemma WellTypedCompiles(q: Query)
    requires WellTyped(q)
    ensures Compile(q, 1).Ok?
  {
    WellTypedHasNoSystemPrefix(q);
    CompileFaultsExactly(q, 1);
  }

  lemma WellTypedHasNoSystemPrefix(q: Query)
    requires WellTyped(q)
    ensures !HasSystemPrefix(q)
  {
  }

  // ---------------------------------------------------------------------
  // The answers at a pinned block

  lemma MatchesIgnoresEnd(q: Query, v: Version, end: Option<nat>)
    ensures Matches(q, v.(toBlock := end)) == Matches(q, v)
  {
  }

  /** The rows a statement selects in one state of the index, with the filter it was given. */
  ghost function RowsFor(w: World, q: Query, block: int, atHead: bool): set<Version> {
    set k, i | k in w.index.hist && 0 <= i < |w.index.hist[k]| &&
               IsAnswerRow(w.index.hist, q, block, atHead, w.index.hist[k][i]) :: w.index.hist[k][i]
  }

  /** What a reader sees of a row: everything but when a later version closed it. */
  function Seen(v: Version): Version { v.(toBlock := None) }

  /** What a reader is returned. */
  ghost function Returned(w: World, q: Query, block: int, atHead: bool): set<Version> {
    set v | v in RowsFor(w, q, block, atHead) :: Seen(v)
  }

  /** The answers of a state at a block; the head filter is used when the block is its fold point. */
  ghost function Answers(w: World, q: Query, block: int): set<Version>
    requires w.index.through.Some?
  {
    Returned(w, q, block, block == w.index.through.value)
  }

  /** The answers by their meaning: each entity's state at the block, live and matching. */
  ghost predicate Answering(c: Setting, w: World, q: Query, block: int, seen: Version) {
    StateAt(seen.entityKey, w.db, block, Ground(c, w, seen.entityKey)) == Some(seen) &&
    !seen.deleted && seen.expiresAt > block && Matches(q, seen)
  }

  /**
   A state of the index a reader is served from at a block: nothing that is
   behind there, awaiting the late scan for a row at or below the block, answers
   otherwise than its fold. What is behind only above the block does not count.
   */
  ghost predicate Serving(c: Setting, w: World, block: nat) {
    WellFormedSetting(c) && Invariant(c, w) && Ready(w) && block <= w.index.through.value &&
    forall k :: Behind(c, w, k, block) ==> Stands(c, w, k, block)
  }

  lemma ServedKeyStands(c: Setting, w: World, k: ByteString, block: nat)
    requires Serving(c, w, block)
    ensures Stands(c, w, k, block) && WellFormedHistories(w.index.hist) && OnOneSide(VersionsOf(w.index.hist, k), w.index.through.value)
  {
    hide Stands, Behind, Agreement, SeedRows, VersionsHaveRows, LocalInvariant;
    ReadyKeysStand(c, w, k, block);
    assert OnOneSide(VersionsOf(w.index.hist, k), Covered(w.index));
  }

  lemma FilterIsExact(hist: Histories, v: Version, block: nat, atHead: bool)
    requires WellFormedHistories(hist) && Recorded(hist, v)
    ensures LiveFilter(v, block, atHead) <==> LiveInThePast(v, block) && !(atHead && VersionAbove(hist, v.entityKey, block))
  {
    HeadFilterIsExact(hist, v, block);
  }

  lemma RowAnswers(c: Setting, w: World, q: Query, block: nat, atHead: bool, v: Version)
    requires Serving(c, w, block) && v in RowsFor(w, q, block, atHead)
    ensures Answering(c, w, q, block, Seen(v)) && !(atHead && VersionAbove(w.index.hist, v.entityKey, block))
  {
    hide Invariant, Behind, Stands, StateAt, VersionAbove;
    var k := v.entityKey;
    ServedKeyStands(c, w, k, block);
    FilterIsExact(w.index.hist, v, block, atHead);
    StandingKeyAnswers(c, w, k, block);
    assert IsValidVersion(w.index.hist, k, v.version, block, Seen(v));
    MatchesIgnoresEnd(q, v, None);
  }

  lemma AnswerHasRow(c: Setting, w: World, q: Query, block: nat, atHead: bool, seen: Version)
    requires Serving(c, w, block) && Answering(c, w, q, block, seen)
    requires !(atHead && VersionAbove(w.index.hist, seen.entityKey, block))
    ensures seen in Returned(w, q, block, atHead)
  {
    hide Invariant, Behind, Stands, StateAt, VersionAbove;
    var k := seen.entityKey;
    ServedKeyStands(c, w, k, block);
    StandingKeyAnswers(c, w, k, block);
    var v := w.index.hist[k][seen.version];
    assert WellFormedVersions(k, w.index.hist[k]);
    assert Recorded(w.index.hist, v);
    FilterIsExact(w.index.hist, v, block, atHead);
    MatchesIgnoresEnd(q, v, None);
    assert v in RowsFor(w, q, block, atHead);
  }

  /**
   What a statement returns at a block, with either filter and however far the
   index has folded since its block was resolved: no wrong row, and of the
   answers exactly those that a head read was not overtaken on, by a version of
   the entity above the block.
   */
  lemma ReturnedExactly(c: Setting, w: World, q: Query, block: nat, atHead: bool, seen: Version)
    requires Serving(c, w, block)
    ensures seen in Returned(w, q, block, atHead) <==>
            Answering(c, w, q, block, seen) && !(atHead && VersionAbove(w.index.hist, seen.entityKey, block))
  {
    hide Serving, Answering, VersionAbove;
    if seen in Returned(w, q, block, atHead) {
      var v :| v in RowsFor(w, q, block, atHead) && Seen(v) == seen;
      RowAnswers(c, w, q, block, atHead, v);
    }
    if Answering(c, w, q, block, seen) && !(atHead && VersionAbove(w.index.hist, seen.entityKey, block)) {
      AnswerHasRow(c, w, q, block, atHead, seen);
    }
  }

  /** At its own fold point a state has no answer with a version above. */
  lemma NothingAboveTheFoldPoint(c: Setting, w: World, q: Query, seen: Version)
    requires Ready(w) && w.index.through.value >= 0
    requires Serving(c, w, w.index.through.value) && Answering(c, w, q, w.index.through.value, seen)
    ensures !VersionAbove(w.index.hist, seen.entityKey, w.index.through.value)
  {
    hide Invariant, Behind, Stands, StateAt;
    ServedKeyStands(c, w, seen.entityKey, w.index.through.value);
    StandingKeyAnswers(c, w, seen.entityKey, w.index.through.value);
    assert ValidAt(VersionsOf(w.index.hist, seen.entityKey)[seen.version], w.index.through.value);
  }

  /** The answers are each entity's state at the block, filtered: nothing of how far the index has folded since. */
  lemma AnswersAreStates(c: Setting, w: World, q: Query, block: nat, seen: Version)
    requires Serving(c, w, block)
    ensures seen in Answers(w, q, block) <==> Answering(c, w, q, block, seen)
  {
    hide Invariant, Behind, Stands, Answering, VersionAbove;
    ReturnedExactly(c, w, q, block, block == w.index.through.value, seen);
    if block == w.index.through.value && Answering(c, w, q, block, seen) { NothingAboveTheFoldPoint(c, w, q, seen); }
  }

  /** The same transactions are stored up to a block, and the import is as far. */
  ghost predicate SamePast(a: World, b: World, block: int) {
    (a.index.genesis.Done? <==> b.index.genesis.Done?) && forall k :: Relevant(a.db, k, block) == Relevant(b.db, k, block)
  }

  /** Two states of the index, any number of folds apart, answer alike at a block nothing was stored below since. */
  lemma PinnedAnswersAreStable(c: Setting, a: World, b: World, q: Query, block: nat)
    requires Serving(c, a, block) && Serving(c, b, block) && SamePast(a, b, block)
    ensures Answers(a, q, block) == Answers(b, q, block)
  {
    forall seen ensures seen in Answers(a, q, block) <==> seen in Answers(b, q, block) {
      AnswersAreStates(c, a, q, block, seen);
      AnswersAreStates(c, b, q, block, seen);
      assert Ground(c, a, seen.entityKey) == Ground(c, b, seen.entityKey);
      assert Relevant(a.db, seen.entityKey, block) == Relevant(b.db, seen.entityKey, block);
    }
  }

  // ---------------------------------------------------------------------
  // The creation triple

  /** Genesis entities are placed by their number in the node's order. */
  ghost predicate Numbered(c: Setting) {
    forall i :: 0 <= i < |c.seed| ==> Born(c.seed[i]) == Location(0, i, 0)
  }

  /** An entity made by an operation is born where a stored row of its key sits. */
  ghost predicate BornOfRow(db: Database, k: ByteString, born: Location) {
    exists at, i :: at in db && 0 <= i < |db[at].rows| && born == Location(at.block, at.position, db[at].rows[i].opIndex) &&
                    db[at].rows[i].entityKey == Some(k)
  }

  lemma StateIsBornSomewhere(c: Setting, w: World, k: ByteString, block: nat)
    requires WellFormedSetting(c) && WellFormedDatabase(w.db) && StateAt(k, w.db, block, Ground(c, w, k)).Some?
    ensures var seen := StateAt(k, w.db, block, Ground(c, w, k)).value;
            if Ground(c, w, k).Some? then Born(seen) == Born(Ground(c, w, k).value) else BornOfRow(w.db, k, Born(seen))
  {
    var txs, base := Relevant(w.db, k, block), Ground(c, w, k);
    RelevantIsWellFormed(w.db, k, block);
    OpsAmongAreWellFormed(k, txs);
    GroundIsWellFormed(c, w, k);
    var ops := Enumerate(OpsAmong(k, txs).value);
    FoldIsHistory(k, ops, base);
    var vs := Fold(k, ops, base).value;
    assert Born(Last(vs)) == FromLocation(vs[0]);
    if base.Some? {
      RefoldFromStoredBase(k, ops, [], base.value);
    } else {
      FoldWithoutBaseStartsLater(k, ops);
      VersionsAreMade(k, ops, None, 0);
      var o :| o in ops && LocationOf(o) == FromLocation(vs[0]);
      var at :| at in txs && o in LoadedTx(at, txs[at]).value && o.entityKey == k;
      LoadedShape(at, txs[at]);
      assert FromRow(o, at, w.db[at]);
    }
  }

  /** No two entities share a creation triple. */
  lemma CreationTripleIsInjective(c: Setting, w: World, block: nat, j: ByteString, k: ByteString)
    requires WellFormedSetting(c) && WellFormedDatabase(w.db) && Numbered(c)
    requires StateAt(j, w.db, block, Ground(c, w, j)).Some? && StateAt(k, w.db, block, Ground(c, w, k)).Some?
    requires Born(StateAt(j, w.db, block, Ground(c, w, j)).value) == Born(StateAt(k, w.db, block, Ground(c, w, k)).value)
    ensures j == k
  {
    StateIsBornSomewhere(c, w, j, block);
    StateIsBornSomewhere(c, w, k, block);
    if Ground(c, w, j).Some? && Ground(c, w, k).Some? {
      var x :| 0 <= x < |c.seed| && c.seed[x].entityKey == j && SeedOf(c, j) == Some(c.seed[x]);
      var y :| 0 <= y < |c.seed| && c.seed[y].entityKey == k && SeedOf(c, k) == Some(c.seed[y]);
      assert Born(c.seed[x]) == Location(0, x, 0) && Born(c.seed[y]) == Location(0, y, 0);
    } else if Ground(c, w, j).None? && Ground(c, w, k).None? {
      RowsAreBornApart(w.db, j, k, Born(StateAt(j, w.db, block, None).value));
    } else {
      GroundIsWellFormed(c, w, j);
      GroundIsWellFormed(c, w, k);
    }
  }

  lemma RowsAreBornApart(db: Database, j: ByteString, k: ByteString, born: Location)
    requires WellFormedDatabase(db) && BornOfRow(db, j, born) && BornOfRow(db, k, born)
    ensures j == k
  {
    var at, x :| at in db && 0 <= x < |db[at].rows| && born == Location(at.block, at.position, db[at].rows[x].opIndex) &&
                 db[at].rows[x].entityKey == Some(j);
    var at', y :| at' in db && 0 <= y < |db[at'].rows| && born == Location(at'.block, at'.position, db[at'].rows[y].opIndex) &&
                  db[at'].rows[y].entityKey == Some(k);
    assert at == at';
    assert x == y;
  }

  /** Distinct answers have distinct creation triples. */
  ghost predicate BornApart(answers: set<Version>) {
    forall a, b :: a in answers && b in answers && Born(a) == Born(b) ==> a == b
  }

  // ---------------------------------------------------------------------
  // One page

  datatype Page = Page(entities: seq<Version>, next: Option<Location>)

  predicate Past(v: Version, after: Option<Location>) {
    after.None? || Earlier(after.value, Born(v))
  }

  ghost predicate InCreationOrder(s: seq<Version>) {
    forall i, j :: 0 <= i < j < |s| ==> Earlier(Born(s[i]), Born(s[j]))
  }

  /** `... AND created > after ORDER BY created LIMIT n` over the answers. */
  ghost predicate FirstRows(rows: seq<Version>, answers: set<Version>, after: Option<Location>, n: nat) {
    && |rows| <= n && InCreationOrder(rows)
    && (forall v :: v in rows ==> v in answers && Past(v, after))
    && (forall v :: v in answers && Past(v, after) && v !in rows ==>
          |rows| == n && forall u :: u in rows ==> Earlier(Born(u), Born(v)))
  }

  /** One row over the limit tells that there is more; the cursor is the last kept row's triple. */
  function PageOf(rows: seq<Version>, limit: nat): Page {
    var kept := if |rows| > limit then rows[..limit] else rows;
    Page(kept, if |rows| > limit && kept != [] then Some(Born(Last(kept))) else None)
  }

  ghost predicate IsPage(p: Page, answers: set<Version>, after: Option<Location>, limit: nat) {
    exists rows :: FirstRows(rows, answers, after, limit + 1) && p == PageOf(rows, limit)
  }

  /** Up to and including the cursor; everything when there is none. */
  predicate Upto(v: Version, next: Option<Location>) {
    next.None? || !Earlier(next.value, Born(v))
  }

  /** A page holds, in order, exactly the answers past its cursor up to the next one, and never stalls. */
  lemma PageCovers(p: Page, answers: set<Version>, after: Option<Location>, limit: nat)
    requires IsPage(p, answers, after, limit) && limit >= 1 && BornApart(answers)
    ensures InCreationOrder(p.entities) && |p.entities| <= limit
    ensures forall v :: v in p.entities <==> v in answers && Past(v, after) && Upto(v, p.next)
    ensures p.next.Some? ==> p.entities != [] && p.next.value == Born(Last(p.entities))
  {
    var rows :| FirstRows(rows, answers, after, limit + 1) && p == PageOf(rows, limit);
    if |rows| > limit {
      forall v ensures v in p.entities <==> v in answers && Past(v, after) && Upto(v, p.next) {
        if v in p.entities {
          var i :| 0 <= i < limit && rows[i] == v;
        } else if v in rows {
          var i :| 0 <= i < |rows| && rows[i] == v;
          assert i == limit ==> Earlier(Born(rows[limit - 1]), Born(v));
          assert i < limit ==> p.entities[i] == v;
        } else {
          assert rows[limit - 1] in rows;
        }
      }
    }
  }

  /**
   Over rows whose creation triples fit their columns, the cursor a page gives
   out encodes, is accepted under its own binding as the triple it stands for,
   and fits the columns it is compared with.
   */
  lemma PageCursorsFit(p: Page, answers: set<Version>, after: Option<Location>, limit: nat, binding: ByteString)
    requires IsPage(p, answers, after, limit) && limit >= 1 && BornApart(answers) && p.next.Some?
    requires |binding| == Cursor.BINDING_LENGTH && forall v :: v in answers ==> Cursor.FitsColumns(Born(v))
    ensures Cursor.FitsColumns(p.next.value) && Cursor.EncodeCursor(p.next.value, binding).Ok?
    ensures Cursor.DecodeCursor(Cursor.Text(Cursor.EncodeCursor(p.next.value, binding).value), binding) == Ok(p.next.value)
  {
    PageCovers(p, answers, after, limit);
    assert Last(p.entities) in p.entities;
    Cursor.CursorRoundTrip(p.next.value, binding, binding);
  }

  // ---------------------------------------------------------------------
  // Following the cursors

  /** The requests of one reader: each asks with the cursor it was given, at any limit, until a page gives none. */
  ghost predicate Follows(pages: seq<Page>, limits: seq<nat>, answers: seq<set<Version>>) {
    && |pages| == |limits| == |answers| && pages != []
    && (forall i :: 0 <= i < |pages| ==> limits[i] >= 1 && IsPage(pages[i], answers[i], CursorBefore(pages, i), limits[i]))
    && (forall i :: 0 <= i < |pages| ==> (pages[i].next.None? <==> i == |pages| - 1))
  }

  function CursorBefore(pages: seq<Page>, i: nat): Option<Location>
    requires i <= |pages|
  {
    if i == 0 then None else pages[i - 1].next
  }

  /** The entities of the first pages, in the order they came. */
  function CollectedUpTo(pages: seq<Page>, n: nat): seq<Version>
    requires n <= |pages|
  {
    if n == 0 then [] else CollectedUpTo(pages, n - 1) + pages[n - 1].entities
  }

  function Collected(pages: seq<Page>): seq<Version> { CollectedUpTo(pages, |pages|) }

  /** The page whose stretch between two cursors a position falls into. */
  ghost predicate Covers(pages: seq<Page>, i: nat, v: Version)
    requires i < |pages|
  {
    Past(v, CursorBefore(pages, i)) && Upto(v, pages[i].next)
  }

  ghost predicate IsCovered(pages: seq<Page>, v: Version) {
    exists i :: 0 <= i < |pages| && Covers(pages, i, v)
  }

  /** The page holds, of its answers, those it covers. */
  ghost predicate HoldsCovered(pages: seq<Page>, answers: seq<set<Version>>, i: nat)
    requires i < |pages| == |answers|
  {
    forall v :: v in pages[i].entities <==> Covers(pages, i, v) && v in answers[i]
  }

  /** What the first pages hold: in order, of each page's answers those the page covers. */
  ghost predicate Gathered(s: seq<Version>, pages: seq<Page>, answers: seq<set<Version>>, n: nat)
    requires 0 < n <= |pages| == |answers|
  {
    && InCreationOrder(s)
    && (forall v :: v in s <==> exists i :: 0 <= i < n && Covers(pages, i, v) && v in answers[i])
    && (forall v :: v in s ==> Upto(v, pages[n - 1].next))
  }

  /** After some pages the reader has, in order, of each page's answers those it covers. */
  lemma {:induction false} PagesCollect(pages: seq<Page>, limits: seq<nat>, answers: seq<set<Version>>, n: nat)
    requires Follows(pages, limits, answers) && 0 < n <= |pages|
    requires forall i :: 0 <= i < |answers| ==> BornApart(answers[i])
    ensures Gathered(CollectedUpTo(pages, n), pages, answers, n)
  {
    hide IsPage, BornApart;
    var page := pages[n - 1];
    PageCovers(page, answers[n - 1], CursorBefore(pages, n - 1), limits[n - 1]);
    if n == 1 {
      assert CollectedUpTo(pages, 1) == [] + page.entities == page.entities;
      assert forall v :: v in page.entities <==> Covers(pages, 0, v) && v in answers[0];
    } else {
      PagesCollect(pages, limits, answers, n - 1);
      assert HoldsCovered(pages, answers, n - 1);
      PageExtends(CollectedUpTo(pages, n - 1), pages, answers, n);
    }
  }

  /** The page past a cursor continues what was gathered up to it. */
  lemma PageExtends(before: seq<Version>, pages: seq<Page>, answers: seq<set<Version>>, n: nat)
    requires 1 < n <= |pages| == |answers| && Gathered(before, pages, answers, n - 1) && pages[n - 2].next.Some?
    requires var p := pages[n - 1]; InCreationOrder(p.entities) && (p.next.Some? ==> p.entities != [] && p.next.value == Born(Last(p.entities)))
    requires HoldsCovered(pages, answers, n - 1)
    ensures Gathered(before + pages[n - 1].entities, pages, answers, n)
  {
    var p, cursor := pages[n - 1], pages[n - 2].next.value;
    InOrderTogether(before, p.entities);
    if p.next.Some? {
      assert Last(p.entities) in p.entities;
      assert Earlier(cursor, p.next.value);
    }
    forall v ensures v in before + p.entities <==> exists i :: 0 <= i < n && Covers(pages, i, v) && v in answers[i] {
      assert v in before + p.entities <==> v in before || v in p.entities;
      if i :| 0 <= i < n && Covers(pages, i, v) && v in answers[i] {
        if i == n - 1 { assert v in p.entities; } else { assert v in before; }
      }
      if v in p.entities { assert Covers(pages, n - 1, v) && v in answers[n - 1]; }
    }
  }

  /** From one cursor to the next the walk moves on. */
  lemma CursorsAscend(pages: seq<Page>, limits: seq<nat>, answers: seq<set<Version>>, i: nat, j: nat)
    requires Follows(pages, limits, answers) && i < j < |pages|
    requires forall i :: 0 <= i < |answers| ==> BornApart(answers[i])
    ensures pages[i].next.Some? && CursorBefore(pages, j).Some?
    ensures pages[i].next == CursorBefore(pages, j) || Earlier(pages[i].next.value, CursorBefore(pages, j).value)
    decreases j
  {
    hide IsPage, BornApart;
    if i < j - 1 {
      CursorsAscend(pages, limits, answers, i, j - 1);
      PageCovers(pages[j - 1], answers[j - 1], CursorBefore(pages, j - 1), limits[j - 1]);
      assert Last(pages[j - 1].entities) in pages[j - 1].entities;
    }
  }

  /** Each position is covered by one page, and by no other. */
  lemma CoveredOnce(pages: seq<Page>, limits: seq<nat>, answers: seq<set<Version>>, v: Version)
    requires Follows(pages, limits, answers)
    requires forall i :: 0 <= i < |answers| ==> BornApart(answers[i])
    ensures IsCovered(pages, v)
    ensures forall i, j :: 0 <= i < j < |pages| ==> !(Covers(pages, i, v) && Covers(pages, j, v))
  {
    forall i, j | 0 <= i < j < |pages| ensures !(Covers(pages, i, v) && Covers(pages, j, v)) {
      CursorsAscend(pages, limits, answers, i, j);
    }
    var i := 0;
    while i < |pages| - 1 && !Upto(v, pages[i].next)
      invariant i < |pages| && Past(v, CursorBefore(pages, i))
      decreases |pages| - i
    {
      i := i + 1;
    }
    assert Covers(pages, i, v);
  }

  lemma InOrderTogether(a: seq<Version>, b: seq<Version>)
    requires InCreationOrder(a) && InCreationOrder(b)
    requires forall u, v :: u in a && v in b ==> Earlier(Born(u), Born(v))
    ensures InCreationOrder(a + b)
  {
    var s := a + b;
    forall i, j | 0 <= i < j < |s| ensures Earlier(Born(s[i]), Born(s[j])) {
      if i < |a| && j >= |a| {
        assert a[i] in a && b[j - |a|] in b;
      }
    }
  }

  /** One request: the state its block was resolved in, and the later one its statement ran in. */
  datatype Request = Request(resolved: World, served: World)

  /** The filter is chosen when the block is resolved. */
  ghost predicate AsksAtHead(r: Request, block: nat) {
    r.resolved.index.through == Some(block)
  }

  /** The statement of a head read ran after a fold that changed the entity. */
  ghost predicate Overtaken(r: Request, block: nat, k: ByteString) {
    AsksAtHead(r, block) && VersionAbove(r.served.index.hist, k, block)
  }

  ghost function ReturnedTo(r: Request, q: Query, block: nat): set<Version> {
    Returned(r.served, q, block, AsksAtHead(r, block))
  }

  /** The requests of a walk at a pin: each statement ran where nothing was behind at the pin, nothing stored below it in between. */
  ghost predicate Served(c: Setting, requests: seq<Request>, block: nat) {
    requests != [] &&
    forall i :: 0 <= i < |requests| ==> Serving(c, requests[i].served, block) && SamePast(requests[0].served, requests[i].served, block)
  }

  /** What each request is returned. */
  ghost function AllReturned(requests: seq<Request>, q: Query, block: nat): seq<set<Version>> {
    seq(|requests|, i requires 0 <= i < |requests| => ReturnedTo(requests[i], q, block))
  }

  lemma RequestReturns(c: Setting, requests: seq<Request>, q: Query, block: nat, i: nat, seen: Version)
    requires Served(c, requests, block) && i < |requests|
    ensures seen in ReturnedTo(requests[i], q, block) <==>
            Answering(c, requests[0].served, q, block, seen) && !Overtaken(requests[i], block, seen.entityKey)
  {
    hide Serving, VersionAbove, StateAt;
    var w, first := requests[i].served, requests[0].served;
    assert Serving(c, w, block) && SamePast(first, w, block);
    ReturnedExactly(c, w, q, block, AsksAtHead(requests[i], block), seen);
    assert Ground(c, first, seen.entityKey) == Ground(c, w, seen.entityKey);
    assert Relevant(first.db, seen.entityKey, block) == Relevant(w.db, seen.entityKey, block);
    SameState(c, first, w, seen.entityKey, block);
  }

  lemma SameState(c: Setting, a: World, b: World, k: ByteString, block: nat)
    requires Ground(c, a, k) == Ground(c, b, k) && Relevant(a.db, k, block) == Relevant(b.db, k, block)
    ensures StateAt(k, a.db, block, Ground(c, a, k)) == StateAt(k, b.db, block, Ground(c, b, k))
  {
  }

  lemma ReturnedAreBornApart(c: Setting, requests: seq<Request>, q: Query, block: nat, i: nat)
    requires Numbered(c) && Served(c, requests, block) && i < |requests|
    ensures BornApart(ReturnedTo(requests[i], q, block))
  {
    hide Overtaken, ReturnedTo;
    var first := requests[0].served;
    assert Serving(c, first, block);
    assert WellFormedDatabase(first.db) by { InvariantHasHistories(c, first); }
    forall a, b | a in ReturnedTo(requests[i], q, block) && b in ReturnedTo(requests[i], q, block) && Born(a) == Born(b) ensures a == b {
      RequestReturns(c, requests, q, block, i, a);
      RequestReturns(c, requests, q, block, i, b);
      CreationTripleIsInjective(c, first, block, a.entityKey, b.entityKey);
    }
  }

  /**
   Following the cursors at a pinned block returns entities that are live there
   and match, in creation order and none twice, for any page sizes, however far
   the projector folds between the requests and within them, and whatever is
   late or unreadable above the block. And it returns every one of them, but
   for those the request whose page covers their place was overtaken on:
   resolved at the head, its statement run after a fold changed the entity.
   */
  lemma WalkReturnsExactly(c: Setting, requests: seq<Request>, q: Query, block: nat, pages: seq<Page>, limits: seq<nat>)
    requires Numbered(c) && Served(c, requests, block) && |pages| == |requests|
    requires Follows(pages, limits, AllReturned(requests, q, block))
    ensures InCreationOrder(Collected(pages))
    ensures forall seen :: seen in Collected(pages) ==> Answering(c, requests[0].served, q, block, seen)
    ensures forall seen :: IsCovered(pages, seen)
    ensures forall seen, i :: 0 <= i < |pages| && Covers(pages, i, seen) ==>
              (seen in Collected(pages) <==>
               Answering(c, requests[0].served, q, block, seen) && !Overtaken(requests[i], block, seen.entityKey))
  {
    hide Serving, Answering, Overtaken, IsPage, BornApart, ReturnedTo, SamePast, Covers;
    var answers := AllReturned(requests, q, block);
    forall i | 0 <= i < |answers| ensures BornApart(answers[i]) {
      ReturnedAreBornApart(c, requests, q, block, i);
    }
    PagesCollect(pages, limits, answers, |pages|);
    forall seen ensures IsCovered(pages, seen) {
      CoveredOnce(pages, limits, answers, seen);
    }
    forall seen, i | 0 <= i < |pages| && Covers(pages, i, seen)
      ensures seen in Collected(pages) <==>
              Answering(c, requests[0].served, q, block, seen) && !Overtaken(requests[i], block, seen.entityKey)
    {
      CoveredOnce(pages, limits, answers, seen);
      RequestReturns(c, requests, q, block, i, seen);
      if seen in Collected(pages) {
        var j :| 0 <= j < |pages| && Covers(pages, j, seen) && seen in answers[j];
        assert i == j;
      }
    }
  }

  /** Where no request was overtaken, as below the head none can be, each answer is returned exactly once, and as many as the count says. */
  lemma WalkReturnsEachAnswerOnce(c: Setting, requests: seq<Request>, q: Query, block: nat, pages: seq<Page>, limits: seq<nat>)
    requires Numbered(c) && Served(c, requests, block) && |pages| == |requests|
    requires Follows(pages, limits, AllReturned(requests, q, block))
    requires forall i, k :: 0 <= i < |requests| ==> !Overtaken(requests[i], block, k)
    ensures InCreationOrder(Collected(pages))
    ensures forall seen :: seen in Collected(pages) <==> Answering(c, requests[0].served, q, block, seen)
    ensures |Collected(pages)| == |RowsFor(requests[0].served, q, block, false)|
  {
    hide Serving, Answering, Overtaken, IsPage, BornApart, ReturnedTo, SamePast, Covers, Follows;
    WalkReturnsExactly(c, requests, q, block, pages, limits);
    var first := requests[0].served;
    assert Serving(c, first, block);
    forall seen
      ensures seen in Collected(pages) <==> Answering(c, first, q, block, seen)
      ensures seen in Collected(pages) <==> seen in Returned(first, q, block, false)
    {
      assert IsCovered(pages, seen);
      var i :| 0 <= i < |pages| && Covers(pages, i, seen);
      assert !Overtaken(requests[i], block, seen.entityKey);
      ReturnedExactly(c, first, q, block, false, seen);
    }
    OrderedHasNoRepeats(Collected(pages), Returned(first, q, block, false));
    RowsAndAnswersCount(c, first, q, block, false);
  }

  lemma {:induction false} OrderedHasNoRepeats(s: seq<Version>, all: set<Version>)
    requires InCreationOrder(s) && forall v :: v in s <==> v in all
    ensures |s| == |all|
  {
    if s == [] {
      assert all == {};
    } else {
      var rest, last := s[..|s| - 1], Last(s);
      assert last in s;
      forall v ensures v in rest <==> v in all - {last} {
        assert v in s <==> v in rest || v == last;
        if v in rest { var i :| 0 <= i < |rest| && rest[i] == v; assert Earlier(Born(s[i]), Born(last)); }
      }
      OrderedHasNoRepeats(rest, all - {last});
    }
  }

  /** `COUNT(*)` counts rows; each is one answer. */
  lemma RowsAndAnswersCount(c: Setting, w: World, q: Query, block: nat, atHead: bool)
    requires Serving(c, w, block)
    ensures |RowsFor(w, q, block, atHead)| == |Returned(w, q, block, atHead)|
  {
    var rows := RowsFor(w, q, block, atHead);
    forall a, b | a in rows && b in rows && Seen(a) == Seen(b) ensures a == b {
    }
    SeenKeepsCount(rows);
  }

  lemma {:induction false} SeenKeepsCount(rows: set<Version>)
    requires forall a, b :: a in rows && b in rows && Seen(a) == Seen(b) ==> a == b
    ensures |rows| == |set v | v in rows :: Seen(v)|
  {
    if rows != {} {
      var v :| v in rows;
      SeenKeepsCount(rows - {v});
      assert (set u | u in rows :: Seen(u)) == (set u | u in rows - {v} :: Seen(u)) + {Seen(v)};
      assert Seen(v) !in (set u | u in rows - {v} :: Seen(u));
    }
  }

  /** The answers past a cursor. */
  function Ahead(answers: set<Version>, after: Option<Location>): set<Version> {
    set v | v in answers && Past(v, after)
  }

  /** Each request with more to come leaves strictly fewer answers ahead: the walk ends. */
  lemma WalkProgresses(p: Page, answers: set<Version>, after: Option<Location>, limit: nat)
    requires IsPage(p, answers, after, limit) && limit >= 1 && BornApart(answers) && p.next.Some?
    ensures Ahead(answers, p.next) < Ahead(answers, after)
  {
    PageCovers(p, answers, after, limit);
    var last := Last(p.entities);
    assert last in p.entities;
    assert last in Ahead(answers, after) && last !in Ahead(answers, p.next);
    forall v | v in Ahead(answers, p.next) ensures v in Ahead(answers, after) {
      if after.Some? { assert Earlier(after.value, p.next.value); }
    }
  }
}
