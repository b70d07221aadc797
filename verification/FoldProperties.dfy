/**
 What the replay of EntityIndex guarantees: it is a function of the set of
 operations, its versions tile the blocks from creation on, a past block sees
 what replaying only its past gives, and attributes are last-writer-wins.
 */
module FoldProperties {
  import opened Wrappers
  import opened ByteStrings
  import opened EntityIndex

  // ---------------------------------------------------------------------
  // The order the operations are given in does not matter

  ghost predicate InChainOrder(ops: seq<Op>) {
    forall i, j :: 0 <= i < j < |ops| ==> Earlier(LocationOf(ops[i]), LocationOf(ops[j]))
  }

  ghost predicate DistinctLocations(ops: seq<Op>) {
    forall i, j :: 0 <= i < j < |ops| ==> LocationOf(ops[i]) != LocationOf(ops[j])
  }

  lemma {:induction false} InsertOpKeepsOrder(op: Op, ops: seq<Op>)
    requires InChainOrder(ops)
    requires forall o :: o in ops ==> LocationOf(o) != LocationOf(op)
    ensures InChainOrder(InsertOp(op, ops))
    ensures forall o :: o in InsertOp(op, ops) <==> o == op || o in ops
  {
    if ops != [] {
      assert ops[0] in ops;
      assert forall o :: o in ops <==> o == ops[0] || o in ops[1..];
      if Earlier(LocationOf(ops[0]), LocationOf(op)) {
        var tail := InsertOp(op, ops[1..]);
        InsertOpKeepsOrder(op, ops[1..]);
        forall j | 0 <= j < |tail| ensures Earlier(LocationOf(ops[0]), LocationOf(tail[j])) {
          assert tail[j] in tail;
        }
      }
    }
  }

  lemma {:induction false} SortedOpsIsSorted(ops: seq<Op>)
    requires DistinctLocations(ops)
    ensures InChainOrder(SortedOps(ops))
    ensures forall o :: o in SortedOps(ops) <==> o in ops
  {
    if ops != [] {
      SortedOpsIsSorted(ops[1..]);
      assert forall o :: o in ops <==> o == ops[0] || o in ops[1..];
      forall o | o in SortedOps(ops[1..]) ensures LocationOf(o) != LocationOf(ops[0]) {
        assert o in ops[1..];
        var k :| 0 <= k < |ops[1..]| && ops[1..][k] == o;
      }
      InsertOpKeepsOrder(ops[0], SortedOps(ops[1..]));
    }
  }

  lemma {:induction false} OrderedOpsAgree(s: seq<Op>, t: seq<Op>)
    requires InChainOrder(s) && InChainOrder(t)
    requires forall o :: o in s <==> o in t
    ensures s == t
  {
    assert |t| > 0 ==> t[0] in t;
    assert |s| > 0 ==> s[0] in s;
    if s != [] && t != [] {
      assert s[0] in t && t[0] in s;
      assert s[0] == t[0];
      forall o ensures o in s[1..] <==> o in t[1..] {
        assert o in s <==> o == s[0] || o in s[1..];
        assert o in t <==> o == t[0] || o in t[1..];
      }
      OrderedOpsAgree(s[1..], t[1..]);
    }
  }

  /** The fold is a function of the set of operations, whatever order they are loaded in. */
  lemma FoldIgnoresOrder(key: ByteString, a: seq<Op>, b: seq<Op>, base: Option<Version>)
    requires DistinctLocations(a) && DistinctLocations(b)
    requires forall o :: o in a <==> o in b
    ensures Fold(key, a, base) == Fold(key, b, base)
  {
    SortedOpsIsSorted(a);
    SortedOpsIsSorted(b);
    OrderedOpsAgree(SortedOps(a), SortedOps(b));
  }

  /** The operations at or below a block. */
  function UpTo(ops: seq<Op>, block: int): seq<Op> {
    if ops == [] then []
    else if ops[0].block <= block then [ops[0]] + UpTo(ops[1..], block)
    else UpTo(ops[1..], block)
  }

  lemma {:induction false} UpToContents(ops: seq<Op>, block: int)
    ensures forall o :: o in UpTo(ops, block) <==> o in ops && o.block <= block
    ensures DistinctLocations(ops) ==> DistinctLocations(UpTo(ops, block))
  {
    if ops != [] {
      UpToContents(ops[1..], block);
      assert forall o :: o in ops <==> o == ops[0] || o in ops[1..];
      if DistinctLocations(ops) && ops[0].block <= block {
        forall o | o in UpTo(ops[1..], block) ensures LocationOf(o) != LocationOf(ops[0]) {
          var k :| 0 <= k < |ops[1..]| && ops[1..][k] == o;
        }
      }
    }
  }

  /** Where the operations above a block begin in a list in chain order. */
  function Cut(ops: seq<Op>, block: int): (k: nat)
    ensures k <= |ops|
  {
    if ops == [] || ops[0].block > block then 0 else 1 + Cut(ops[1..], block)
  }

  lemma {:induction false} CutSplits(ops: seq<Op>, block: int)
    requires InChainOrder(ops)
    ensures forall i :: 0 <= i < Cut(ops, block) ==> ops[i].block <= block
    ensures forall i :: Cut(ops, block) <= i < |ops| ==> ops[i].block > block
  {
    if ops != [] && ops[0].block <= block {
      CutSplits(ops[1..], block);
      forall i | Cut(ops, block) <= i < |ops| ensures ops[i].block > block {
        assert ops[i] == ops[1..][i - 1];
      }
      forall i | 0 <= i < Cut(ops, block) ensures ops[i].block <= block {
        if i > 0 { assert ops[i] == ops[1..][i - 1]; }
      }
    } else if ops != [] {
      forall i | 0 <= i < |ops| ensures ops[i].block > block {
        assert i == 0 || Earlier(LocationOf(ops[0]), LocationOf(ops[i]));
      }
    }
  }

  /** Keeping only the operations up to a block cuts the sorted list short. */
  lemma SortedUpTo(ops: seq<Op>, block: int)
    requires DistinctLocations(ops)
    ensures SortedOps(UpTo(ops, block)) == SortedOps(ops)[..Cut(SortedOps(ops), block)]
  {
    var all := SortedOps(ops);
    var k := Cut(all, block);
    SortedOpsIsSorted(ops);
    CutSplits(all, block);
    UpToContents(ops, block);
    SortedOpsIsSorted(UpTo(ops, block));
    forall o ensures o in UpTo(ops, block) <==> o in all[..k] {
      assert o in ops <==> o in all;
      if o in all {
        var i :| 0 <= i < |all| && all[i] == o;
        assert i < k ==> all[..k][i] == o;
      }
    }
    OrderedOpsAgree(SortedOps(UpTo(ops, block)), all[..k]);
  }

  // ---------------------------------------------------------------------
  // The shape of a history

  /** A genesis state as the importers write it: version 0 of a history that starts at block 0. */
  ghost predicate Canonical(base: Version) {
    base.version == 0 && base.fromBlock == 0 && base.toBlock == None && !base.deleted &&
    base.createdAt == 0 && base.createdPosition == base.fromPosition && base.createdOpIndex == base.fromOpIndex &&
    base.updatedAt == 0 &&
    Summarized(base)
  }

  /** The derived columns agree with the attributes, which are in name order. */
  ghost predicate Summarized(v: Version) {
    StrictlySorted(v.attributes) &&
    v.bytesSize == BytesSize(v.attributes) && v.schemaName == SchemaName(v.attributes)
  }

  ghost predicate WellFormedBase(key: ByteString, base: Option<Version>) {
    base.Some? ==> Canonical(base.value) && base.value.entityKey == key
  }

  /** What a stored operation list satisfies: unique places, none in the genesis block. */
  ghost predicate WellFormedOps(ops: seq<Op>) {
    DistinctLocations(ops) && forall o :: o in ops ==> o.block >= 1
  }

  function FromLocation(v: Version): Location { Location(v.fromBlock, v.fromPosition, v.fromOpIndex) }

  function Born(v: Version): Location { Location(v.createdAt, v.createdPosition, v.createdOpIndex) }

  /**
   The versions of one entity: numbered from 0, each ending where the next one
   starts, in chain order, one creation and one creator throughout, nothing
   after a delete.
   */
  ghost predicate History(key: ByteString, vs: seq<Version>) {
    && (forall i :: 0 <= i < |vs| ==>
          vs[i].entityKey == key && vs[i].version == i && vs[i].updatedAt == vs[i].fromBlock && Summarized(vs[i]))
    && (forall i :: 0 <= i < |vs| ==> Born(vs[i]) == FromLocation(vs[0]) && vs[i].creator == vs[0].creator)
    && (forall i :: 0 <= i < |vs| - 1 ==> vs[i].toBlock == Some(vs[i + 1].fromBlock) && !vs[i].deleted)
    && (vs != [] ==> Last(vs).toBlock == None && !vs[0].deleted)
    && (forall i, j :: 0 <= i < j < |vs| ==> Earlier(FromLocation(vs[i]), FromLocation(vs[j])))
  }

  lemma {:induction false} MapOfContents(s: seq<Attribute>)
    requires StrictlySorted(s)
    ensures Named(MapOf(s))
    ensures forall a :: a in s <==> a.name in MapOf(s) && MapOf(s)[a.name] == a
  {
    if s != [] {
      var rest := s[..|s| - 1];
      MapOfContents(rest);
      assert forall a :: a in s <==> a == Last(s) || a in rest;
      forall a | a in rest ensures a.name != Last(s).name {
        var k :| 0 <= k < |rest| && rest[k] == a;
        assert Before(s[k].name, Last(s).name);
        BeforeIsIrreflexive(a.name);
      }
    }
  }

  lemma ListingOfMapOf(s: seq<Attribute>)
    requires StrictlySorted(s)
    ensures Listing(MapOf(s)) == s
  {
    MapOfContents(s);
    ListingContents(MapOf(s));
    SortedListsAgree(Listing(MapOf(s)), s);
  }

  /** A canonical genesis state opens as itself. */
  lemma StartOfCanonical(base: Version)
    requires Canonical(base)
    ensures Start(Some(base)).versions == [base]
    ensures Named(Start(Some(base)).attrs) && Listing(Start(Some(base)).attrs) == base.attributes
  {
    ListingOfMapOf(base.attributes);
    MapOfContents(base.attributes);
  }

  /** The replay's invariant: a history whose latest attributes are the working set's listing. */
  ghost predicate Replaying(key: ByteString, r: Replay) {
    History(key, r.versions) && Named(r.attrs) &&
    (r.versions != [] ==> Listing(r.attrs) == Last(r.versions).attributes)
  }

  lemma PushKeepsHistory(key: ByteString, vs: seq<Version>, next: Version)
    requires History(key, vs) && vs != [] && !Last(vs).deleted
    requires next.entityKey == key && next.version == |vs| && next.updatedAt == next.fromBlock && Summarized(next)
    requires Born(next) == FromLocation(vs[0]) && next.creator == vs[0].creator && next.toBlock == None
    requires Earlier(FromLocation(Last(vs)), FromLocation(next))
    ensures History(key, Push(vs, next))
  {
    var q := Push(vs, next);
    assert forall i :: 0 <= i < |vs| ==> FromLocation(q[i]) == FromLocation(vs[i]);
    forall i | 0 <= i < |vs| ensures Earlier(FromLocation(vs[i]), FromLocation(next)) {
      assert i < |vs| - 1 ==> Earlier(FromLocation(vs[i]), FromLocation(Last(vs)));
    }
  }

  /** `next` is the version an operation makes out of the current one. */
  ghost predicate Reopens(current: Version, next: Version, op: Op) {
    next.entityKey == current.entityKey && next.version == current.version + 1 && FromLocation(next) == LocationOf(op) &&
    next.updatedAt == next.fromBlock && next.toBlock == None &&
    Born(next) == Born(current) && next.creator == current.creator
  }

  /** An operation on a living entity changes nothing, or pushes one version. */
  lemma StepPushes(key: ByteString, r: Replay, op: Op)
    requires Replaying(key, r) && r.versions != [] && !Last(r.versions).deleted
    requires Step(key, r, op).Ok?
    ensures var s := Step(key, r, op).value;
            s == r ||
            (s.versions != [] && s.versions == Push(r.versions, Last(s.versions)) &&
             Reopens(Last(r.versions), Last(s.versions), op) && Summarized(Last(s.versions)) &&
             Named(s.attrs) && Listing(s.attrs) == Last(s.versions).attributes)
  {
    var current := Last(r.versions);
    assert Summarized(current);
    var s := Step(key, r, op).value;
    if op.operationType == PATCH {
      ApplyCellsKeepsNames(r.attrs, op.attributes);
      ListingContents(s.attrs);
      assert Last(s.versions) == WithAttributes(Reopened(current, op), Listing(s.attrs));
    }
  }

  lemma StepKeepsHistory(key: ByteString, r: Replay, op: Op)
    requires Replaying(key, r)
    requires r.versions != [] ==> Earlier(FromLocation(Last(r.versions)), LocationOf(op))
    requires Step(key, r, op).Ok?
    ensures Replaying(key, Step(key, r, op).value)
    ensures var vs := Step(key, r, op).value.versions;
            vs == r.versions || (vs != [] && FromLocation(Last(vs)) == LocationOf(op))
  {
    var s := Step(key, r, op).value;
    if r.versions == [] {
      if op.operationType == CREATE {
        ApplyCellsKeepsNames(map[], op.attributes);
        ListingContents(s.attrs);
      }
    } else if !Last(r.versions).deleted {
      StepPushes(key, r, op);
      if s != r {
        PushKeepsHistory(key, r.versions, Last(s.versions));
      }
    }
  }

  lemma {:induction false} ReplayKeepsHistory(key: ByteString, base: Option<Version>, ops: seq<Op>)
    requires WellFormedBase(key, base) && InChainOrder(ops)
    requires forall o :: o in ops ==> o.block >= 1
    requires ReplayAll(key, Start(base), ops).Ok?
    ensures var r := ReplayAll(key, Start(base), ops).value;
            Replaying(key, r) &&
            (r.versions != [] ==> FromLocation(Last(r.versions)).block == 0 ||
                                  exists o :: o in ops && LocationOf(o) == FromLocation(Last(r.versions)))
  {
    if ops == [] {
      if base.Some? { StartOfCanonical(base.value); }
    } else {
      var before := ops[..|ops| - 1];
      assert forall o :: o in ops <==> o == Last(ops) || o in before;
      ReplayKeepsHistory(key, base, before);
      var r := ReplayAll(key, Start(base), before).value;
      if r.versions != [] && FromLocation(Last(r.versions)).block != 0 {
        var o :| o in before && LocationOf(o) == FromLocation(Last(r.versions));
        var k :| 0 <= k < |before| && before[k] == o;
        assert Earlier(LocationOf(ops[k]), LocationOf(Last(ops)));
      } else if r.versions != [] {
        assert Last(ops) in ops;
      }
      StepKeepsHistory(key, r, Last(ops));
      assert Last(ops) in ops;
    }
  }

  /** Every fold is a history. */
  lemma FoldIsHistory(key: ByteString, ops: seq<Op>, base: Option<Version>)
    requires WellFormedBase(key, base) && WellFormedOps(ops)
    requires Fold(key, ops, base).Ok?
    ensures History(key, Fold(key, ops, base).value)
  {
    SortedOpsIsSorted(ops);
    ReplayKeepsHistory(key, base, SortedOps(ops));
  }

  // ---------------------------------------------------------------------
  // Later operations only add versions

  /** `q` continues `p`: the same versions, the last of them possibly closed, then more. */
  ghost predicate Continues(p: seq<Version>, q: seq<Version>) {
    && |p| <= |q|
    && (forall i :: 0 <= i < |p| - 1 ==> q[i] == p[i])
    && (p != [] ==> q[|p| - 1].(toBlock := Last(p).toBlock) == Last(p))
    && (|p| == |q| ==> p == q)
  }

  lemma StepContinues(key: ByteString, r: Replay, op: Op)
    requires Step(key, r, op).Ok?
    ensures var q := Step(key, r, op).value.versions;
            Continues(r.versions, q) &&
            |q| <= |r.versions| + 1 && (|q| > |r.versions| ==> FromLocation(Last(q)) == LocationOf(op))
  {
  }

  lemma ContinuesIsTransitive(p: seq<Version>, q: seq<Version>, r: seq<Version>)
    requires Continues(p, q) && Continues(q, r)
    ensures Continues(p, r)
  {
    if p != [] && |p| < |q| {
      assert r[|p| - 1] == q[|p| - 1];
    }
  }

  ghost predicate MadeBy(v: Version, ops: seq<Op>) {
    exists o :: o in ops && LocationOf(o) == FromLocation(v)
  }

  lemma {:induction false} ReplayContinues(key: ByteString, start: Replay, ops: seq<Op>, m: nat)
    requires m <= |ops| && ReplayAll(key, start, ops).Ok?
    ensures ReplayAll(key, start, ops[..m]).Ok?
    ensures var p, q := ReplayAll(key, start, ops[..m]).value.versions, ReplayAll(key, start, ops).value.versions;
            Continues(p, q) && (forall i :: |p| <= i < |q| ==> MadeBy(q[i], ops[m..]))
  {
    hide Step;
    if m == |ops| {
      assert ops[..m] == ops;
    } else {
      var before, op := ops[..|ops| - 1], Last(ops);
      assert before[..m] == ops[..m] && ops[m..] == before[m..] + [op];
      ReplayContinues(key, start, before, m);
      var p := ReplayAll(key, start, ops[..m]).value.versions;
      var mid := ReplayAll(key, start, before).value;
      var q := Step(key, mid, op).value.versions;
      StepContinues(key, mid, op);
      ContinuesIsTransitive(p, mid.versions, q);
      assert op in ops[m..];
      forall i | |p| <= i < |q| ensures MadeBy(q[i], ops[m..]) {
        if i < |mid.versions| {
          var o :| o in before[m..] && LocationOf(o) == FromLocation(mid.versions[i]);
          assert FromLocation(q[i]) == FromLocation(mid.versions[i]);
          assert o in ops[m..];
        }
      }
    }
  }

  // ---------------------------------------------------------------------
  // Time travel

  /** The historical filter's validity half: `from_block <= B AND (to_block IS NULL OR to_block > B)`. */
  predicate ValidAt(v: Version, block: int) {
    v.fromBlock <= block && (v.toBlock.None? || v.toBlock.value > block)
  }

  /**
   For every block, at most one version is valid there, and it is the last
   version of folding only the operations at or below the block; there is one
   exactly when that past fold is not empty. So folding later operations
   changes no answer at the block.
   */
  lemma TimeTravel(key: ByteString, ops: seq<Op>, base: Option<Version>, block: nat)
    requires WellFormedBase(key, base) && WellFormedOps(ops)
    requires Fold(key, ops, base).Ok?
    ensures Fold(key, UpTo(ops, block), base).Ok?
    ensures var now, past := Fold(key, ops, base).value, Fold(key, UpTo(ops, block), base).value;
            Continues(past, now) &&
            forall i :: 0 <= i < |now| ==> (ValidAt(now[i], block) <==> i == |past| - 1)
  {
    var all := SortedOps(ops);
    SortedOpsIsSorted(ops);
    SortedUpTo(ops, block);
    ReplayContinues(key, Start(base), all, Cut(all, block));
    var now, past := Fold(key, ops, base).value, Fold(key, UpTo(ops, block), base).value;
    FoldIsHistory(key, ops, base);
    forall i | 0 <= i < |now| ensures now[i].fromBlock <= block <==> i < |past| {
      VersionStartsByThen(key, base, all, block, i);
    }
    ValidIsLastStarted(key, now, |past|, block);
  }

  /** The versions that have started by a block, the last of them open again: the history as it stood there. */
  function Started(vs: seq<Version>, block: nat): seq<Version> {
    if vs == [] then []
    else if Last(vs).fromBlock <= block then vs[|vs| - 1 := Last(vs).(toBlock := None)]
    else Started(vs[..|vs| - 1], block)
  }

  lemma {:induction false} StartedCuts(vs: seq<Version>, block: nat, n: nat)
    requires n <= |vs| && forall i :: 0 <= i < |vs| ==> (vs[i].fromBlock <= block <==> i < n)
    ensures Started(vs, block) == if n == 0 then [] else vs[..n][n - 1 := vs[n - 1].(toBlock := None)]
  {
    if n < |vs| {
      StartedCuts(vs[..|vs| - 1], block, n);
      assert vs[..|vs| - 1][..n] == vs[..n];
    } else {
      assert vs[..n] == vs;
    }
  }

  /** In a history the versions started by a block are a first part of it, and the last of them is the one valid there. */
  lemma StartedOfHistory(key: ByteString, vs: seq<Version>, block: nat) returns (n: nat)
    requires History(key, vs)
    ensures n <= |vs| && |Started(vs, block)| == n
    ensures forall i :: 0 <= i < |vs| ==> (vs[i].fromBlock <= block <==> i < n) && (ValidAt(vs[i], block) <==> i == n - 1)
    ensures n > 0 ==> Started(vs, block) == vs[..n][n - 1 := vs[n - 1].(toBlock := None)]
  {
    n := 0;
    while n < |vs| && vs[n].fromBlock <= block
      invariant n <= |vs| && forall i :: 0 <= i < n ==> vs[i].fromBlock <= block
    {
      n := n + 1;
    }
    forall i | n <= i < |vs| ensures vs[i].fromBlock > block {
      assert i == n || Earlier(FromLocation(vs[n]), FromLocation(vs[i]));
    }
    StartedCuts(vs, block, n);
    ValidIsLastStarted(key, vs, n, block);
  }

  /** Folding only the operations up to a block gives the whole fold as it stood there. */
  lemma PastFoldIsStarted(key: ByteString, ops: seq<Op>, base: Option<Version>, block: nat)
    requires WellFormedBase(key, base) && WellFormedOps(ops)
    requires Fold(key, ops, base).Ok?
    ensures Fold(key, UpTo(ops, block), base) == Ok(Started(Fold(key, ops, base).value, block))
  {
    hide SortedOps, UpTo, Start, ReplayAll, Summarized;
    TimeTravel(key, ops, base, block);
    FoldIsHistory(key, ops, base);
    UpToContents(ops, block);
    FoldIsHistory(key, UpTo(ops, block), base);
    var now, past := Fold(key, ops, base).value, Fold(key, UpTo(ops, block), base).value;
    var n := StartedOfHistory(key, now, block);
    assert past != [] ==> ValidAt(now[|past| - 1], block);
    if n > 0 {
      assert ValidAt(now[n - 1], block);
      assert n == |past|;
      assert Last(past).toBlock == None;
      assert now[..n][n - 1 := now[n - 1].(toBlock := None)] == past;
    }
  }

  lemma ValidIsLastStarted(key: ByteString, vs: seq<Version>, started: nat, block: nat)
    requires History(key, vs) && started <= |vs|
    requires forall i :: 0 <= i < |vs| ==> (vs[i].fromBlock <= block <==> i < started)
    ensures forall i :: 0 <= i < |vs| ==> (ValidAt(vs[i], block) <==> i == started - 1)
  {
    forall i | 0 <= i < |vs| ensures ValidAt(vs[i], block) <==> i == started - 1 {
      if i < |vs| - 1 {
        assert vs[i].toBlock == Some(vs[i + 1].fromBlock);
      }
    }
  }

  /** A version starts at or below the block exactly when the fold of the operations up to it has it. */
  lemma VersionStartsByThen(key: ByteString, base: Option<Version>, all: seq<Op>, block: nat, i: nat)
    requires WellFormedBase(key, base) && InChainOrder(all) && forall o :: o in all ==> o.block >= 1
    requires ReplayAll(key, Start(base), all).Ok?
    requires i < |ReplayAll(key, Start(base), all).value.versions|
    ensures ReplayAll(key, Start(base), all[..Cut(all, block)]).Ok?
    ensures ReplayAll(key, Start(base), all).value.versions[i].fromBlock <= block <==>
            i < |ReplayAll(key, Start(base), all[..Cut(all, block)]).value.versions|
  {
    hide Cut, ReplayAll, Start, Step, Summarized;
    var k := Cut(all, block);
    CutSplits(all, block);
    ReplayContinues(key, Start(base), all, k);
    var now, past := ReplayAll(key, Start(base), all).value.versions, ReplayAll(key, Start(base), all[..k]).value.versions;
    if i >= |past| {
      assert MadeBy(now[i], all[k..]);
      var o :| o in all[k..] && LocationOf(o) == FromLocation(now[i]);
      var j :| 0 <= j < |all[k..]| && all[k..][j] == o;
      assert all[k + j].block > block;
    } else {
      ReplayKeepsHistory(key, base, all[..k]);
      if FromLocation(Last(past)).block != 0 {
        var o :| o in all[..k] && LocationOf(o) == FromLocation(Last(past));
        var j :| 0 <= j < |all[..k]| && all[..k][j] == o;
      }
      assert i == |past| - 1 || Earlier(FromLocation(past[i]), FromLocation(Last(past)));
      assert FromLocation(now[i]) == FromLocation(past[i]);
    }
  }

  /** Validity ranges partition the blocks from creation on: each block has exactly one valid version. */
  lemma ValidityPartitionsBlocks(key: ByteString, ops: seq<Op>, base: Option<Version>, block: nat)
    requires WellFormedBase(key, base) && WellFormedOps(ops)
    requires Fold(key, ops, base).Ok?
    ensures var vs := Fold(key, ops, base).value;
            (forall i, j :: 0 <= i < |vs| && 0 <= j < |vs| && ValidAt(vs[i], block) && ValidAt(vs[j], block) ==> i == j) &&
            ((exists i :: 0 <= i < |vs| && ValidAt(vs[i], block)) <==> vs != [] && vs[0].fromBlock <= block)
  {
    TimeTravel(key, ops, base, block);
    FoldIsHistory(key, ops, base);
    var vs, past := Fold(key, ops, base).value, Fold(key, UpTo(ops, block), base).value;
    if past != [] {
      assert ValidAt(vs[|past| - 1], block);
      assert |past| == 1 || Earlier(FromLocation(vs[0]), FromLocation(vs[|past| - 1]));
    } else if vs != [] && vs[0].fromBlock <= block {
      FirstValidVersion(key, vs, block);
    }
  }

  lemma {:induction false} FirstValidVersion(key: ByteString, vs: seq<Version>, block: nat)
    requires History(key, vs) && vs != [] && vs[0].fromBlock <= block
    ensures exists i :: 0 <= i < |vs| && ValidAt(vs[i], block)
  {
    var i := 0;
    while i < |vs| - 1 && vs[i + 1].fromBlock <= block
      invariant 0 <= i < |vs| && vs[i].fromBlock <= block
      decreases |vs| - i
    {
      i := i + 1;
    }
    assert ValidAt(vs[i], block);
  }

  // ---------------------------------------------------------------------
  // Refolding from the stored version 0

  /** The state a refold reads back, version 0 as stored, replays to the same history. */
  lemma RefoldFromStoredBase(key: ByteString, ops: seq<Op>, more: seq<Op>, base: Version)
    requires Canonical(base) && base.entityKey == key && WellFormedOps(ops)
    requires Fold(key, ops, Some(base)).Ok?
    ensures var vs := Fold(key, ops, Some(base)).value;
            vs != [] && vs[0].version == 0 && vs[0].fromBlock == 0 &&
            vs[0].(toBlock := None) == base &&
            Fold(key, more, Some(vs[0])) == Fold(key, more, Some(base))
  {
    var all := SortedOps(ops);
    ReplayContinues(key, Start(Some(base)), all, 0);
    assert all[..0] == [];
    StartOfCanonical(base);
    var vs := Fold(key, ops, Some(base)).value;
    FoldIsHistory(key, ops, Some(base));
    assert Start(Some(vs[0])) == Start(Some(base));
  }

  /** Without a create and without a genesis state there is nothing to fold. */
  lemma {:induction false} NoCreateFoldsToNothing(key: ByteString, ops: seq<Op>)
    requires forall o :: o in ops ==> o.operationType != CREATE
    ensures ReplayAll(key, Start(None), ops) == Ok(Start(None))
  {
    if ops != [] {
      NoCreateFoldsToNothing(key, ops[..|ops| - 1]);
      assert Last(ops) in ops;
    }
  }

  /** An entity made by an operation starts at that operation's block, never at block 0. */
  lemma FoldWithoutBaseStartsLater(key: ByteString, ops: seq<Op>)
    requires WellFormedOps(ops) && Fold(key, ops, None).Ok? && Fold(key, ops, None).value != []
    ensures Fold(key, ops, None).value[0].fromBlock >= 1
  {
    var all := SortedOps(ops);
    SortedOpsIsSorted(ops);
    ReplayContinues(key, Start(None), all, 0);
    assert all[..0] == [] && all[0..] == all;
    var vs := Fold(key, ops, None).value;
    assert MadeBy(vs[0], all[0..]);
    var o :| o in all[0..] && LocationOf(o) == FromLocation(vs[0]);
    assert o in ops;
  }

  // ---------------------------------------------------------------------
  // Attributes are last-writer-wins

  /** What the latest mention of a name among some triples says. */
  datatype Verdict = Untouched | Unset | SetTo(attribute: Attribute)

  function LastWord(name: ByteString, cells: seq<Cell>): Verdict {
    if cells == [] then Untouched
    else
      var cell := Last(cells);
      if cell.name != name then LastWord(name, cells[..|cells| - 1])
      else if StoredAttributeOf(cell).None? then Unset
      else SetTo(StoredAttributeOf(cell).value)
  }

  function Settle(before: Option<Attribute>, verdict: Verdict): Option<Attribute> {
    match verdict
    case Untouched => before
    case Unset => None
    case SetTo(a) => Some(a)
  }

  function Lookup(attrs: AttributeMap, name: ByteString): Option<Attribute> {
    if name in attrs then Some(attrs[name]) else None
  }

  ghost predicate Holds(attributes: seq<Attribute>, name: ByteString, found: Option<Attribute>) {
    if found.Some? then found.value in attributes && found.value.name == name
    else forall a :: a in attributes ==> a.name != name
  }

  /**
   The triples that count towards a version: the creating operation's, then
   every later patch's, up to and including the version's own operation.
   */
  function MutationsUpTo(ops: seq<Op>, born: Location, upTo: Location): seq<Cell> {
    if ops == [] then []
    else
      var op := Last(ops);
      MutationsUpTo(ops[..|ops| - 1], born, upTo) +
      (if (LocationOf(op) == born || (op.operationType == PATCH && Earlier(born, LocationOf(op)))) &&
          !Earlier(upTo, LocationOf(op))
       then op.attributes else [])
  }

  lemma {:induction false} ApplyCellsSettles(attrs: AttributeMap, cells: seq<Cell>, name: ByteString)
    requires ApplyCells(attrs, cells).Ok?
    ensures Lookup(ApplyCells(attrs, cells).value, name) == Settle(Lookup(attrs, name), LastWord(name, cells))
  {
    if cells != [] {
      ApplyCellsSettles(attrs, cells[..|cells| - 1], name);
    }
  }

  lemma {:induction false} ApplyCellsInTwo(attrs: AttributeMap, a: seq<Cell>, b: seq<Cell>)
    requires ApplyCells(attrs, a).Ok?
    ensures ApplyCells(attrs, a + b) == ApplyCells(ApplyCells(attrs, a).value, b)
  {
    if b == [] {
      assert a + b == a;
    } else {
      assert (a + b)[..|a + b| - 1] == a + b[..|b| - 1];
      ApplyCellsInTwo(attrs, a, b[..|b| - 1]);
    }
  }

  /** Adding operations after `upTo` adds nothing to what counts up to it. */
  lemma MutationsOfPrefix(ops: seq<Op>, op: Op, born: Location, upTo: Location)
    requires Earlier(upTo, LocationOf(op))
    ensures MutationsUpTo(ops + [op], born, upTo) == MutationsUpTo(ops, born, upTo)
  {
    assert (ops + [op])[..|ops|] == ops;
  }

  ghost function BaseAttributes(base: Option<Version>): AttributeMap {
    Start(base).attrs
  }

  /** The far end of the chain order among `ops`: nothing in them is later. */
  ghost predicate Closes(ops: seq<Op>, end: Location) {
    forall o :: o in ops ==> !Earlier(end, LocationOf(o))
  }

  ghost predicate AttributesSettled(ops: seq<Op>, base: Option<Version>, vs: seq<Version>) {
    forall i, name :: 0 <= i < |vs| ==>
      Holds(vs[i].attributes, name,
            Settle(Lookup(BaseAttributes(base), name), LastWord(name, MutationsUpTo(ops, Born(vs[0]), FromLocation(vs[i])))))
  }

  /** The working set is the base with every triple so far applied. */
  ghost predicate WorkingSetSettled(ops: seq<Op>, base: Option<Version>, r: Replay)
    requires r.versions != []
  {
    forall end :: Closes(ops, end) ==>
      ApplyCells(BaseAttributes(base), MutationsUpTo(ops, Born(r.versions[0]), end)) == Ok(r.attrs)
  }

  lemma ListedAttributesSettle(base: AttributeMap, cells: seq<Cell>, name: ByteString)
    requires Named(base) && ApplyCells(base, cells).Ok?
    ensures Holds(Listing(ApplyCells(base, cells).value), name, Settle(Lookup(base, name), LastWord(name, cells)))
  {
    ApplyCellsKeepsNames(base, cells);
    ApplyCellsSettles(base, cells, name);
    ListingContents(ApplyCells(base, cells).value);
  }

  lemma {:induction false} NoMutationsBeforeBirth(ops: seq<Op>, born: Location, upTo: Location)
    requires forall o :: o in ops ==> Earlier(LocationOf(o), born)
    ensures MutationsUpTo(ops, born, upTo) == []
  {
    if ops != [] {
      assert Last(ops) in ops;
      assert forall o :: o in ops[..|ops| - 1] ==> o in ops;
      NoMutationsBeforeBirth(ops[..|ops| - 1], born, upTo);
    }
  }

  /** The versions already there stay settled when an operation after all of them arrives. */
  lemma EarlierVersionsStaySettled(base: Option<Version>, vs: seq<Version>, before: seq<Op>, op: Op)
    requires AttributesSettled(before, base, vs)
    requires forall i :: 0 <= i < |vs| ==> Earlier(FromLocation(vs[i]), LocationOf(op))
    ensures AttributesSettled(before + [op], base, vs)
  {
    forall i | 0 <= i < |vs|
      ensures MutationsUpTo(before + [op], Born(vs[0]), FromLocation(vs[i])) ==
              MutationsUpTo(before, Born(vs[0]), FromLocation(vs[i]))
    {
      MutationsOfPrefix(before, op, Born(vs[0]), FromLocation(vs[i]));
    }
  }

  lemma CreationSettles(key: ByteString, before: seq<Op>, op: Op)
    requires op.operationType == CREATE
    requires forall o :: o in before ==> Earlier(LocationOf(o), LocationOf(op))
    requires Step(key, Start(None), op).Ok?
    ensures var r := Step(key, Start(None), op).value; r.versions != [] && WorkingSetSettled(before + [op], None, r)
  {
    var r, ops, born := Step(key, Start(None), op).value, before + [op], LocationOf(op);
    assert ops[..|ops| - 1] == before;
    forall end | Closes(ops, end) ensures MutationsUpTo(ops, born, end) == op.attributes {
      NoMutationsBeforeBirth(before, born, end);
      assert op in ops;
    }
  }

  /** Only a patch changes the working set of a living entity. */
  lemma LivingStepApplies(key: ByteString, r: Replay, op: Op)
    requires r.versions != [] && !Last(r.versions).deleted && Step(key, r, op).Ok?
    ensures (if op.operationType == PATCH then ApplyCells(r.attrs, op.attributes) else Ok(r.attrs)) == Ok(Step(key, r, op).value.attrs)
    ensures var s := Step(key, r, op).value; s.versions != [] && Born(s.versions[0]) == Born(r.versions[0])
  {
  }

  lemma LivingStepSettles(key: ByteString, base: Option<Version>, before: seq<Op>, r: Replay, op: Op)
    requires Replaying(key, r) && r.versions != [] && !Last(r.versions).deleted
    requires Earlier(FromLocation(Last(r.versions)), LocationOf(op))
    requires WorkingSetSettled(before, base, r)
    requires Step(key, r, op).Ok?
    ensures var s := Step(key, r, op).value; s.versions != [] && WorkingSetSettled(before + [op], base, s)
  {
    hide Step, ApplyCells, Summarized;
    var s, ops, born := Step(key, r, op).value, before + [op], Born(r.versions[0]);
    assert ops[..|ops| - 1] == before;
    LivingStepApplies(key, r, op);
    assert |r.versions| == 1 || Earlier(FromLocation(r.versions[0]), FromLocation(Last(r.versions)));
    forall end | Closes(ops, end) ensures ApplyCells(BaseAttributes(base), MutationsUpTo(ops, born, end)) == Ok(s.attrs) {
      assert op in ops && forall o :: o in before ==> o in ops;
      assert Closes(before, end);
      var sofar := MutationsUpTo(before, born, end);
      if op.operationType == PATCH {
        ApplyCellsInTwo(BaseAttributes(base), sofar, op.attributes);
      } else {
        assert sofar + [] == sofar;
      }
    }
  }

  /** The latest version is settled when the working set is, and nothing later has been replayed. */
  lemma LatestVersionSettles(base: Option<Version>, ops: seq<Op>, s: Replay)
    requires s.versions != [] && WorkingSetSettled(ops, base, s)
    requires Named(BaseAttributes(base)) && Listing(s.attrs) == Last(s.versions).attributes
    requires Closes(ops, FromLocation(Last(s.versions)))
    ensures forall name ::
              Holds(Last(s.versions).attributes, name,
                    Settle(Lookup(BaseAttributes(base), name),
                           LastWord(name, MutationsUpTo(ops, Born(s.versions[0]), FromLocation(Last(s.versions))))))
  {
    forall name {
      ListedAttributesSettle(BaseAttributes(base), MutationsUpTo(ops, Born(s.versions[0]), FromLocation(Last(s.versions))), name);
    }
  }

  /** One operation after everything replayed so far keeps all versions settled. */
  lemma StepSettles(key: ByteString, base: Option<Version>, before: seq<Op>, r: Replay, op: Op)
    requires Replaying(key, r) && Named(BaseAttributes(base)) && (r.versions == [] ==> r == Start(None) && base.None?)
    requires forall o :: o in before ==> Earlier(LocationOf(o), LocationOf(op))
    requires r.versions != [] ==> Earlier(FromLocation(Last(r.versions)), LocationOf(op))
    requires AttributesSettled(before, base, r.versions)
    requires r.versions != [] && !Last(r.versions).deleted ==> WorkingSetSettled(before, base, r)
    requires Step(key, r, op).Ok?
    ensures var s := Step(key, r, op).value;
            AttributesSettled(before + [op], base, s.versions) &&
            (s.versions != [] && !Last(s.versions).deleted ==> WorkingSetSettled(before + [op], base, s))
  {
    hide Summarized, ApplyCells;
    var s, ops := Step(key, r, op).value, before + [op];
    StepKeepsHistory(key, r, op);
    StepContinues(key, r, op);
    forall i | 0 <= i < |r.versions| ensures Earlier(FromLocation(r.versions[i]), LocationOf(op)) {
      assert i == |r.versions| - 1 || Earlier(FromLocation(r.versions[i]), FromLocation(Last(r.versions)));
    }
    EarlierVersionsStaySettled(base, r.versions, before, op);
    if r.versions == [] {
      if op.operationType == CREATE { CreationSettles(key, before, op); }
    } else if !Last(r.versions).deleted {
      LivingStepSettles(key, base, before, r, op);
    }
    if s.versions != r.versions {
      LatestVersionSettles(base, ops, s);
      forall i, name | 0 <= i < |s.versions|
        ensures Holds(s.versions[i].attributes, name,
                      Settle(Lookup(BaseAttributes(base), name),
                             LastWord(name, MutationsUpTo(ops, Born(s.versions[0]), FromLocation(s.versions[i])))))
      {
        if i < |r.versions| {
          assert s.versions[i].attributes == r.versions[i].attributes;
          assert FromLocation(s.versions[i]) == FromLocation(r.versions[i]) && Born(s.versions[0]) == Born(r.versions[0]);
        }
      }
    }
  }

  lemma StartSettles(key: ByteString, base: Option<Version>)
    requires WellFormedBase(key, base)
    ensures var r := Start(base);
            AttributesSettled([], base, r.versions) && (r.versions != [] ==> WorkingSetSettled([], base, r))
  {
    if base.Some? {
      StartOfCanonical(base.value);
      assert Start(base).versions == [base.value];
      assert Replaying(key, Start(base));
      assert WorkingSetSettled([], base, Start(base));
      LatestVersionSettles(base, [], Start(base));
    }
  }

  /** What holds of a replay over all its operations. */
  ghost predicate ReplayedSettled(ops: seq<Op>, base: Option<Version>, r: Replay) {
    (r.versions == [] ==> r == Start(None) && base.None?) &&
    AttributesSettled(ops, base, r.versions) &&
    (r.versions != [] && !Last(r.versions).deleted ==> WorkingSetSettled(ops, base, r))
  }

  lemma NothingOrSomething(key: ByteString, base: Option<Version>, r: Replay, op: Op)
    requires r.versions == [] ==> r == Start(None) && base.None?
    requires Step(key, r, op).Ok?
    ensures var s := Step(key, r, op).value; s.versions == [] ==> s == Start(None) && base.None?
  {
  }

  lemma {:induction false} ReplaySettles(key: ByteString, base: Option<Version>, ops: seq<Op>)
    requires WellFormedBase(key, base) && InChainOrder(ops) && forall o :: o in ops ==> o.block >= 1
    requires ReplayAll(key, Start(base), ops).Ok?
    ensures ReplayedSettled(ops, base, ReplayAll(key, Start(base), ops).value)
  {
    if ops == [] {
      StartSettles(key, base);
    } else {
      hide Step, AttributesSettled, WorkingSetSettled, Start, Canonical;
      var before, op := ops[..|ops| - 1], Last(ops);
      assert ops == before + [op];
      ReplaySettles(key, base, before);
      ReplayKeepsHistory(key, base, before);
      var r := ReplayAll(key, Start(base), before).value;
      if r.versions != [] && FromLocation(Last(r.versions)).block != 0 {
        var o :| o in before && LocationOf(o) == FromLocation(Last(r.versions));
      }
      assert op in ops;
      BaseIsNamed(key, base);
      StepSettles(key, base, before, r, op);
      NothingOrSomething(key, base, r, op);
    }
  }

  lemma BaseIsNamed(key: ByteString, base: Option<Version>)
    requires WellFormedBase(key, base)
    ensures Named(BaseAttributes(base))
  {
    if base.Some? { StartOfCanonical(base.value); }
  }

  /**
   The attributes of every version are the genesis state's, overwritten by the
   last word of every triple since, tombstones included.
   */
  lemma AttributesAreLastWriterWins(key: ByteString, ops: seq<Op>, base: Option<Version>, i: nat, name: ByteString)
    requires WellFormedBase(key, base) && WellFormedOps(ops)
    requires Fold(key, ops, base).Ok? && i < |Fold(key, ops, base).value|
    ensures var vs := Fold(key, ops, base).value;
            Holds(vs[i].attributes, name,
                  Settle(Lookup(BaseAttributes(base), name),
                         LastWord(name, MutationsUpTo(SortedOps(ops), Born(vs[0]), FromLocation(vs[i])))))
  {
    SortedOpsIsSorted(ops);
    ReplaySettles(key, base, SortedOps(ops));
  }
}
