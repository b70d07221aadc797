/**
 Which operation made each version, and what it changed: the fold's versions
 and the operations that had an effect are the same thing, one for one.
 */
module VersionProperties {
  import opened Wrappers
  import opened ByteStrings
  import opened EntityIndex
  import opened FoldProperties

  // ---------------------------------------------------------------------
  // Derived values

  /** The later of the deadline and the lifetime's end, and never past the permanent expiry. */
  lemma ResolvedExpiryIsTheLater(block: nat, expiresAt: nat, minLifetime: nat)
    ensures var r := ResolveRequestedExpiry(block, expiresAt, minLifetime);
            r <= U64_MAX && (r < U64_MAX ==> r >= expiresAt && r >= block + minLifetime) &&
            (r == U64_MAX || r == expiresAt || r == block + minLifetime) &&
            (r == U64_MAX ==> expiresAt >= U64_MAX || block + minLifetime >= U64_MAX)
  {
  }

  lemma TagStandsOnce(s: seq<Attribute>, i: nat)
    requires StrictlySorted(s) && i < |s| - 1
    ensures !(IsSchemaTag(s[i]) && IsSchemaTag(Last(s)))
  {
    assert Before(s[i].name, Last(s).name);
    BeforeIsIrreflexive(Last(s).name);
  }

  /** An entity has a schema name exactly when it has the indexed text attribute of that name, and it is its text. */
  lemma {:induction false} SchemaNameIsTheTag(s: seq<Attribute>, text: ByteString)
    requires StrictlySorted(s)
    ensures SchemaName(s) == Some(text) <==> exists i :: 0 <= i < |s| && IsSchemaTag(s[i]) && s[i].value.text == text
  {
    hide Before, IsSchemaTag;
    if s != [] {
      var before, n := s[..|s| - 1], |s| - 1;
      SchemaNameIsTheTag(before, text);
      if IsSchemaTag(s[n]) {
        forall i | 0 <= i < n ensures !IsSchemaTag(s[i]) {
          TagStandsOnce(s, i);
        }
      } else {
        assert forall i :: 0 <= i < n ==> before[i] == s[i];
      }
    }
  }

  // ---------------------------------------------------------------------
  // One operation, one version

  /** A version an operation made of the one before: only what the operation is about changed. */
  ghost predicate Follows(prev: Version, next: Version, o: Op) {
    && (o.operationType == PATCH || o.operationType == EXTEND || o.operationType == TRANSFER || o.operationType == DELETE)
    && FromLocation(next) == LocationOf(o)
    && next.expiresAt == (if o.operationType == EXTEND then ResolveExpiry(o) else prev.expiresAt)
    && (if o.operationType == TRANSFER then NewOwner(o) == Some(next.owner) else next.owner == prev.owner)
    && (next.deleted <==> o.operationType == DELETE) && !prev.deleted
    && next.creationFlags == prev.creationFlags && next.creator == prev.creator && Born(next) == Born(prev)
    && (o.operationType != PATCH ==> next.attributes == prev.attributes)
  }

  /** The version a create made: its sender owns it, and its expiry and flags are the ones announced. */
  ghost predicate Founds(o: Op, v: Version) {
    && o.operationType == CREATE && Born(v) == FromLocation(v) == LocationOf(o)
    && v.owner == v.creator == o.sender && v.expiresAt == ResolveExpiry(o) && !v.deleted
    && v.creationFlags == (if o.event.Some? && o.event.value.creationFlags.Some? then o.event.value.creationFlags else o.creationFlags)
  }

  /** Every version has its operation. */
  ghost predicate VersionsHaveOps(ops: seq<Op>, base: Option<Version>, vs: seq<Version>) {
    && (vs != [] && base.None? ==> exists o :: o in ops && Founds(o, vs[0]))
    && forall i :: 0 < i < |vs| ==> HasOp(ops, vs[i - 1], vs[i])
  }

  ghost predicate HasOp(ops: seq<Op>, prev: Version, next: Version) {
    exists o :: o in ops && Follows(prev, next, o)
  }

  /** An operation that changes a living entity; a transfer to nobody does not. */
  predicate Effective(o: Op) {
    o.operationType == PATCH || o.operationType == EXTEND || o.operationType == DELETE ||
    (o.operationType == TRANSFER && NewOwner(o).Some?)
  }

  /** After the entity's creation, and not after its deletion. */
  ghost predicate InLife(vs: seq<Version>, o: Op) {
    vs != [] && Earlier(Born(vs[0]), LocationOf(o)) && (Last(vs).deleted ==> !Earlier(FromLocation(Last(vs)), LocationOf(o)))
  }

  /** Every effective operation in the entity's life left its version. */
  ghost predicate OpsHaveVersions(ops: seq<Op>, vs: seq<Version>) {
    forall o :: o in ops && Effective(o) && InLife(vs, o) ==> HasVersion(vs, o)
  }

  ghost predicate HasVersion(vs: seq<Version>, o: Op) {
    exists i :: 0 < i < |vs| && FromLocation(vs[i]) == LocationOf(o)
  }

  lemma StepMakesVersion(key: ByteString, r: Replay, op: Op)
    requires r.versions != [] && !Last(r.versions).deleted && Step(key, r, op).Ok?
    ensures var s := Step(key, r, op).value.versions;
            if Effective(op) then |s| == |r.versions| + 1 && Follows(Last(r.versions), Last(s), op)
            else s == r.versions
  {
  }

  lemma StepFounds(key: ByteString, r: Replay, op: Op)
    requires r.versions == [] && Step(key, r, op).Ok?
    ensures var s := Step(key, r, op).value.versions;
            if op.operationType == CREATE then |s| == 1 && Founds(op, s[0]) else s == []
  {
  }

  lemma StepAfterDelete(key: ByteString, r: Replay, op: Op)
    requires r.versions != [] && Last(r.versions).deleted
    ensures Step(key, r, op) == Ok(r)
  {
  }

  /** Versions already there keep their operations: only the latest changes, and only its end. */
  lemma VersionsKeepOps(before: seq<Op>, op: Op, base: Option<Version>, vs: seq<Version>, next: seq<Version>)
    requires VersionsHaveOps(before, base, vs) && Continues(vs, next) && |next| <= |vs| + 1 && (vs != [] || base.Some?)
    requires |next| == |vs| + 1 && vs != [] ==> Follows(Last(vs), Last(next), op)
    requires vs == [] ==> next == []
    ensures VersionsHaveOps(before + [op], base, next)
  {
    var ops := before + [op];
    assert op in ops && forall o :: o in before ==> o in ops;
    if next != [] && base.None? {
      var o :| o in before && Founds(o, vs[0]);
      assert Founds(o, next[0]);
    }
    forall i | 0 < i < |next| ensures HasOp(ops, next[i - 1], next[i]) {
      if i < |vs| {
        assert HasOp(before, vs[i - 1], vs[i]);
        var o :| o in before && Follows(vs[i - 1], vs[i], o);
        assert Follows(next[i - 1], next[i], o);
      } else {
        assert Follows(next[i - 1], next[i], op);
      }
    }
  }

  lemma OpsKeepVersions(before: seq<Op>, op: Op, vs: seq<Version>, next: seq<Version>)
    requires vs != [] && OpsHaveVersions(before, vs) && Continues(vs, next) && |next| <= |vs| + 1
    requires |next| == |vs| + 1 ==> FromLocation(Last(next)) == LocationOf(op) && !Last(vs).deleted
    requires |next| == |vs| ==> next == vs && (Last(vs).deleted || !Effective(op))
    requires Earlier(FromLocation(Last(vs)), LocationOf(op))
    ensures OpsHaveVersions(before + [op], next)
  {
    forall o | o in before + [op] && Effective(o) && InLife(next, o) ensures HasVersion(next, o) {
      assert Born(next[0]) == Born(vs[0]);
      if o in before && InLife(vs, o) {
        assert HasVersion(vs, o);
        var i :| 0 < i < |vs| && FromLocation(vs[i]) == LocationOf(o);
        assert FromLocation(next[i]) == LocationOf(o);
      } else {
        assert o == op || !InLife(vs, o);
        assert |next| == |vs| + 1 ==> FromLocation(next[|vs|]) == LocationOf(op);
      }
    }
  }

  lemma {:induction false} ReplayMakesVersions(key: ByteString, base: Option<Version>, ops: seq<Op>)
    requires WellFormedBase(key, base) && InChainOrder(ops) && forall o :: o in ops ==> o.block >= 1
    requires ReplayAll(key, Start(base), ops).Ok?
    ensures var vs := ReplayAll(key, Start(base), ops).value.versions;
            VersionsHaveOps(ops, base, vs) && OpsHaveVersions(ops, vs) && (base.Some? ==> vs != [])
  {
    if ops == [] {
      if base.Some? { StartOfCanonical(base.value); }
    } else {
      hide Step, Start, Canonical, Founds, Follows, VersionsHaveOps, OpsHaveVersions;
      var before, op := ops[..|ops| - 1], Last(ops);
      assert ops == before + [op];
      ReplayMakesVersions(key, base, before);
      ReplayKeepsHistory(key, base, before);
      var r := ReplayAll(key, Start(base), before).value;
      StepContinues(key, r, op);
      if r.versions != [] {
        LatestIsEarlier(key, base, before, op);
        LivingOrDead(key, base, r, before, op);
      } else {
        Birth(key, base, r, before, op);
      }
    }
  }

  lemma LatestIsEarlier(key: ByteString, base: Option<Version>, before: seq<Op>, op: Op)
    requires WellFormedBase(key, base) && InChainOrder(before + [op]) && forall o :: o in before + [op] ==> o.block >= 1
    requires ReplayAll(key, Start(base), before).Ok? && ReplayAll(key, Start(base), before).value.versions != []
    ensures Earlier(FromLocation(Last(ReplayAll(key, Start(base), before).value.versions)), LocationOf(op))
  {
    var ops := before + [op];
    assert op in ops && ops[|before|] == op;
    assert forall i :: 0 <= i < |before| ==> ops[i] == before[i];
    assert InChainOrder(before) by {
      forall i, j | 0 <= i < j < |before| ensures Earlier(LocationOf(before[i]), LocationOf(before[j])) {
        assert Earlier(LocationOf(ops[i]), LocationOf(ops[j]));
      }
    }
    assert forall o :: o in before ==> o in ops;
    ReplayKeepsHistory(key, base, before);
    var v := Last(ReplayAll(key, Start(base), before).value.versions);
    if FromLocation(v).block != 0 {
      var o :| o in before && LocationOf(o) == FromLocation(v);
      var i :| 0 <= i < |before| && before[i] == o;
      assert Earlier(LocationOf(ops[i]), LocationOf(ops[|before|]));
    }
  }

  lemma LivingOrDead(key: ByteString, base: Option<Version>, r: Replay, before: seq<Op>, op: Op)
    requires r.versions != [] && VersionsHaveOps(before, base, r.versions) && OpsHaveVersions(before, r.versions)
    requires Step(key, r, op).Ok? && Earlier(FromLocation(Last(r.versions)), LocationOf(op))
    ensures var s := Step(key, r, op).value.versions;
            VersionsHaveOps(before + [op], base, s) && OpsHaveVersions(before + [op], s)
  {
    StepContinues(key, r, op);
    if Last(r.versions).deleted { StepAfterDelete(key, r, op); } else { StepMakesVersion(key, r, op); }
    hide Step, VersionsHaveOps, OpsHaveVersions;
    var s := Step(key, r, op).value.versions;
    VersionsKeepOps(before, op, base, r.versions, s);
    OpsKeepVersions(before, op, r.versions, s);
  }

  lemma Birth(key: ByteString, base: Option<Version>, r: Replay, before: seq<Op>, op: Op)
    requires r.versions == [] && base.None? && Step(key, r, op).Ok?
    requires InChainOrder(before + [op])
    ensures var s := Step(key, r, op).value.versions;
            VersionsHaveOps(before + [op], base, s) && OpsHaveVersions(before + [op], s)
  {
    StepFounds(key, r, op);
    var s, ops := Step(key, r, op).value.versions, before + [op];
    assert op in ops && ops[|before|] == op;
    if s != [] {
      forall o | o in ops ensures !InLife(s, o) {
        var i :| 0 <= i < |ops| && ops[i] == o;
        assert i < |before| ==> Earlier(LocationOf(ops[i]), LocationOf(ops[|before|]));
      }
    }
  }

  /**
   The versions of a fold and the effective operations of the entity's life
   correspond one for one: each version was made by the operation at its place
   and differs from the one before exactly in what that operation is about;
   each effective operation between creation and deletion left its version.
   */
  lemma VersionsAreOperations(key: ByteString, ops: seq<Op>, base: Option<Version>)
    requires WellFormedBase(key, base) && WellFormedOps(ops)
    requires Fold(key, ops, base).Ok?
    ensures var vs := Fold(key, ops, base).value;
            VersionsHaveOps(ops, base, vs) && OpsHaveVersions(ops, vs)
  {
    var all := SortedOps(ops);
    SortedOpsIsSorted(ops);
    ReplayMakesVersions(key, base, all);
    var vs := Fold(key, ops, base).value;
    if vs != [] && base.None? {
      var o :| o in all && Founds(o, vs[0]);
      assert o in ops;
    }
    forall i | 0 < i < |vs| ensures HasOp(ops, vs[i - 1], vs[i]) {
      assert HasOp(all, vs[i - 1], vs[i]);
    }
    forall o | o in ops && Effective(o) && InLife(vs, o) ensures HasVersion(vs, o) {
      assert o in all;
    }
  }
}
