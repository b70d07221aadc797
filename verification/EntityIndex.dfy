/**
 Replaying one entity's applied operations into its versions
 (src/entityIndex.ts). The functions give the meaning of the replay; the
 methods at the end run it the way the source does, over a mutable list of
 versions and a mutable map of attributes, and are proved to compute it.
 */
module EntityIndex {
  import opened Wrappers
  import opened ByteStrings

  const CREATE := 1
  const PATCH := 2
  const EXTEND := 3
  const TRANSFER := 4
  const DELETE := 5

  const U64_MAX: nat := 0xffff_ffff_ffff_ffff
  /** The `typeId` that unsets an attribute in a patch. */
  const TOMBSTONE: Byte := 0
  const TYPE_BYTES := 7
  const TYPE_STR := 8
  /** "arkiv.schema" */
  const SCHEMA_NAME: ByteString := [97, 114, 107, 105, 118, 46, 115, 99, 104, 101, 109, 97]

  /** A stored value: the canonical text, and a number where the type is ordered (or the size of a `bytes`). */
  datatype StoredValue = StoredValue(text: ByteString, num: Option<int>)

  datatype Attribute = Attribute(name: ByteString, typeId: nat, indexed: bool, value: StoredValue)

  /**
   One decoded triple of an operation. `reading` is its wire value read as its
   type, when it is a value of that type.
   */
  datatype Cell = Cell(name: ByteString, flagged: bool, typeId: Byte, reading: Option<StoredValue>)

  /** What the engine announced for an operation. */
  datatype Event = Event(expiresAt: Option<nat>, creationFlags: Option<nat>, newOwner: Option<ByteString>)

  /** One applied operation on one entity, joined with its transaction. */
  datatype Op = Op(
    block: nat, position: nat, opIndex: nat,
    operationType: int,
    entityKey: ByteString,
    sender: ByteString,
    creationFlags: Option<nat>,
    attributes: seq<Cell>,
    expiresAt: Option<nat>,
    minLifetime: Option<nat>,
    newOwner: Option<ByteString>,
    event: Option<Event>)

  /** One state an entity was in, valid for blocks from `fromBlock` up to, not including, `toBlock`. */
  datatype Version = Version(
    entityKey: ByteString,
    version: nat,
    fromBlock: nat, fromPosition: nat, fromOpIndex: nat,
    toBlock: Option<nat>,
    deleted: bool,
    owner: ByteString, creator: ByteString,
    createdAt: nat, createdPosition: nat, createdOpIndex: nat,
    updatedAt: nat,
    expiresAt: nat,
    creationFlags: Option<nat>,
    bytesSize: int,
    schemaName: Option<ByteString>,
    attributes: seq<Attribute>)

  // ---------------------------------------------------------------------
  // Chain order

  datatype Location = Location(block: nat, position: nat, opIndex: nat)

  function LocationOf(op: Op): Location { Location(op.block, op.position, op.opIndex) }

  /** Block, then transaction position, then operation index. */
  predicate Earlier(a: Location, b: Location) {
    a.block < b.block ||
    (a.block == b.block && (a.position < b.position || (a.position == b.position && a.opIndex < b.opIndex)))
  }

  /** Insertion keeps equal locations in the order given, as a stable sort does. */
  function InsertOp(op: Op, ops: seq<Op>): seq<Op> {
    if ops == [] || !Earlier(LocationOf(ops[0]), LocationOf(op)) then [op] + ops
    else [ops[0]] + InsertOp(op, ops[1..])
  }

  function SortedOps(ops: seq<Op>): seq<Op> {
    if ops == [] then [] else InsertOp(ops[0], SortedOps(ops[1..]))
  }

  // ---------------------------------------------------------------------
  // Expiry, stored attributes and the columns derived from them

  /** The engine's larger of the deadline and the lifetime floor, capped at the permanent expiry. */
  function ResolveRequestedExpiry(block: nat, expiresAt: nat, minLifetime: nat): nat {
    var floor := block + minLifetime;
    var resolved := if expiresAt > floor then expiresAt else floor;
    if resolved > U64_MAX then U64_MAX else resolved
  }

  function ResolveExpiry(op: Op): nat {
    if op.event.Some? && op.event.value.expiresAt.Some? then op.event.value.expiresAt.value
    else ResolveRequestedExpiry(op.block, op.expiresAt.Else(0), op.minLifetime.Else(0))
  }

  /** A decoded triple as a stored attribute, or none when it cannot be one. */
  function StoredAttributeOf(cell: Cell): Option<Attribute> {
    if cell.flagged || cell.typeId == TOMBSTONE then None else
    var tag := cell.typeId % 128;
    var indexed := cell.typeId >= 128;
    if !(1 <= tag <= 10) || cell.reading.None? || (tag == TYPE_BYTES && indexed) then None
    else Some(Attribute(cell.name, tag, indexed, cell.reading.value))
  }

  /** Bytes held by the `bytes` attributes together. */
  function BytesSize(attributes: seq<Attribute>): int {
    if attributes == [] then 0
    else
      var last := attributes[|attributes| - 1];
      BytesSize(attributes[..|attributes| - 1]) + (if last.typeId == TYPE_BYTES then last.value.num.Else(0) else 0)
  }

  predicate IsSchemaTag(a: Attribute) {
    a.name == SCHEMA_NAME && a.typeId == TYPE_STR && a.indexed
  }

  function SchemaName(attributes: seq<Attribute>): Option<ByteString> {
    if attributes == [] then None
    else
      var last := attributes[|attributes| - 1];
      if IsSchemaTag(last) then Some(last.value.text) else SchemaName(attributes[..|attributes| - 1])
  }

  function WithAttributes(v: Version, attributes: seq<Attribute>): Version {
    v.(attributes := attributes, bytesSize := BytesSize(attributes), schemaName := SchemaName(attributes))
  }

  // ---------------------------------------------------------------------
  // The working set of attributes

  type AttributeMap = map<ByteString, Attribute>

  ghost predicate Named(attrs: AttributeMap) {
    forall n :: n in attrs ==> attrs[n].name == n
  }

  ghost predicate StrictlySorted(s: seq<Attribute>) {
    forall i, j :: 0 <= i < j < |s| ==> Before(s[i].name, s[j].name)
  }

  ghost predicate IsLeast(n: ByteString, names: set<ByteString>) {
    n in names && forall m :: m in names ==> AtMost(n, m)
  }

  lemma {:induction false} LeastExists(names: set<ByteString>)
    requires names != {}
    ensures exists n :: IsLeast(n, names)
    decreases |names|
  {
    var n :| n in names;
    var rest := names - {n};
    if rest == {} {
      assert names == {n};
      assert IsLeast(n, names);
    } else {
      LeastExists(rest);
      var m :| IsLeast(m, rest);
      BeforeIsTotal(n, m);
      if Before(n, m) {
        forall k | k in names ensures AtMost(n, k) {
          if k != n && k != m {
            assert k in rest;
            BeforeIsTransitive(n, m, k);
          }
        }
        assert IsLeast(n, names);
      } else {
        assert IsLeast(m, names);
      }
    }
  }

  ghost function Least(names: set<ByteString>): (n: ByteString)
    requires names != {}
    ensures IsLeast(n, names)
  {
    LeastExists(names);
    var n :| IsLeast(n, names);
    n
  }

  /** The attributes in the order of their names' bytes. */
  ghost function Listing(attrs: AttributeMap): seq<Attribute>
    decreases |attrs|
  {
    if attrs == map[] then []
    else
      var n := Least(attrs.Keys);
      [attrs[n]] + Listing(attrs - {n})
  }

  /** One triple: a tombstone unsets, a typed triple sets value, type and flag together. */
  function ApplyCell(attrs: AttributeMap, cell: Cell): Outcome<AttributeMap> {
    if cell.flagged then Fault
    else if cell.typeId == TOMBSTONE then Ok(attrs - {cell.name})
    else
      var stored := StoredAttributeOf(cell);
      if stored.None? then Fault else Ok(attrs[cell.name := stored.value])
  }

  function ApplyCells(attrs: AttributeMap, cells: seq<Cell>): Outcome<AttributeMap> {
    if cells == [] then Ok(attrs)
    else
      var before :- ApplyCells(attrs, cells[..|cells| - 1]);
      ApplyCell(before, cells[|cells| - 1])
  }

  // ---------------------------------------------------------------------
  // The replay

  /** What the replay has built so far: the versions, and the latest one's attributes by name. */
  datatype Replay = Replay(versions: seq<Version>, attrs: AttributeMap)

  function Last<T>(s: seq<T>): T
    requires s != []
  {
    s[|s| - 1]
  }

  function Push(versions: seq<Version>, next: Version): seq<Version> {
    if versions == [] then [next]
    else versions[|versions| - 1 := Last(versions).(toBlock := Some(next.fromBlock))] + [next]
  }

  function CreatedBy(key: ByteString, op: Op): Version {
    Version(key, 0, op.block, op.position, op.opIndex, None, false, op.sender, op.sender,
            op.block, op.position, op.opIndex, op.block, ResolveExpiry(op),
            (if op.event.Some? && op.event.value.creationFlags.Some? then op.event.value.creationFlags else op.creationFlags),
            0, None, [])
  }

  /** The version an operation starts from: the current one, opened anew at the operation's place. */
  function Reopened(current: Version, op: Op): Version {
    current.(version := current.version + 1,
             fromBlock := op.block, fromPosition := op.position, fromOpIndex := op.opIndex,
             toBlock := None, updatedAt := op.block)
  }

  function LowerByte(b: Byte): Byte { if 65 <= b <= 90 then b + 32 else b }

  function Lower(s: ByteString): (r: ByteString)
    ensures |r| == |s|
  {
    seq(|s|, i requires 0 <= i < |s| => LowerByte(s[i]))
  }

  /** The announced new owner, else the one in the calldata; none when there is neither or it is empty. */
  function NewOwner(op: Op): Option<ByteString> {
    var owner :=
      if op.event.Some? && op.event.value.newOwner.Some? then op.event.value.newOwner
      else if op.newOwner.Some? then Some(Lower(op.newOwner.value)) else None;
    if owner == Some([]) then None else owner
  }

  ghost function Step(key: ByteString, r: Replay, op: Op): Outcome<Replay> {
    if r.versions == [] then
      if op.operationType != CREATE then Ok(r)
      else
        var attrs :- ApplyCells(map[], op.attributes);
        Ok(Replay([WithAttributes(CreatedBy(key, op), Listing(attrs))], attrs))
    else if Last(r.versions).deleted then Ok(r)
    else
      var next := Reopened(Last(r.versions), op);
      if op.operationType == PATCH then
        var attrs :- ApplyCells(r.attrs, op.attributes);
        Ok(Replay(Push(r.versions, WithAttributes(next, Listing(attrs))), attrs))
      else if op.operationType == EXTEND then
        Ok(r.(versions := Push(r.versions, next.(expiresAt := ResolveExpiry(op)))))
      else if op.operationType == TRANSFER then
        if NewOwner(op).None? then Ok(r)
        else Ok(r.(versions := Push(r.versions, next.(owner := NewOwner(op).value))))
      else if op.operationType == DELETE then
        Ok(r.(versions := Push(r.versions, next.(deleted := true))))
      else
        Ok(r)
  }

  function MapOf(attributes: seq<Attribute>): AttributeMap {
    if attributes == [] then map[]
    else
      var last := attributes[|attributes| - 1];
      MapOf(attributes[..|attributes| - 1])[last.name := last]
  }

  /** Nothing yet, or the genesis state opened as version 0. */
  ghost function Start(base: Option<Version>): Replay {
    if base.None? then Replay([], map[])
    else
      var attrs := MapOf(base.value.attributes);
      Replay([WithAttributes(base.value.(toBlock := None, deleted := false), Listing(attrs))], attrs)
  }

  ghost function ReplayAll(key: ByteString, start: Replay, ops: seq<Op>): Outcome<Replay> {
    if ops == [] then Ok(start)
    else
      var before :- ReplayAll(key, start, ops[..|ops| - 1]);
      Step(key, before, Last(ops))
  }

  /** The versions an entity went through: its operations in chain order, on its genesis state if it has one. */
  ghost function Fold(key: ByteString, records: seq<Op>, base: Option<Version>): Outcome<seq<Version>> {
    var r :- ReplayAll(key, Start(base), SortedOps(records));
    Ok(r.versions)
  }

  // ---------------------------------------------------------------------
  // Sorted listings are unique

  lemma {:induction false} ListingContents(attrs: AttributeMap)
    requires Named(attrs)
    ensures StrictlySorted(Listing(attrs))
    ensures forall a :: a in Listing(attrs) <==> a.name in attrs && attrs[a.name] == a
    decreases |attrs|
  {
    if attrs != map[] {
      var n := Least(attrs.Keys);
      var rest := attrs - {n};
      ListingContents(rest);
      assert Listing(attrs) == [attrs[n]] + Listing(rest);
      forall m | m in rest ensures Before(n, m) {
        assert AtMost(n, m);
      }
    }
  }

  lemma {:induction false} SortedListsAgree(s: seq<Attribute>, t: seq<Attribute>)
    requires StrictlySorted(s) && StrictlySorted(t)
    requires forall a :: a in s <==> a in t
    ensures s == t
  {
    assert |t| > 0 ==> t[0] in t;
    assert |s| > 0 ==> s[0] in s;
    if s != [] && t != [] {
      assert s[0] in t && t[0] in s;
      BeforeIsTotal(s[0].name, t[0].name);
      assert s[0] == t[0];
      forall a ensures a in s[1..] <==> a in t[1..] {
        BeforeIsIrreflexive(s[0].name);
        assert a in s <==> a == s[0] || a in s[1..];
        assert a in t <==> a == t[0] || a in t[1..];
      }
      SortedListsAgree(s[1..], t[1..]);
    }
  }

  function InsertAttribute(a: Attribute, s: seq<Attribute>): seq<Attribute> {
    if s == [] || Before(a.name, s[0].name) then [a] + s
    else [s[0]] + InsertAttribute(a, s[1..])
  }

  lemma {:induction false} InsertKeepsOrder(a: Attribute, s: seq<Attribute>)
    requires StrictlySorted(s)
    requires forall b :: b in s ==> b.name != a.name
    ensures StrictlySorted(InsertAttribute(a, s))
    ensures forall b :: b in InsertAttribute(a, s) <==> b == a || b in s
  {
    if s != [] {
      if Before(a.name, s[0].name) {
        forall j | 0 < j < |s| ensures Before(a.name, s[j].name) {
          BeforeIsTransitive(a.name, s[0].name, s[j].name);
        }
      } else {
        assert s[0] in s;
        BeforeIsTotal(a.name, s[0].name);
        var tail := InsertAttribute(a, s[1..]);
        assert forall b :: b in s <==> b == s[0] || b in s[1..];
        InsertKeepsOrder(a, s[1..]);
        forall j | 0 <= j < |tail| ensures Before(s[0].name, tail[j].name) {
          assert tail[j] in tail;
          if tail[j] != a {
            var k :| 0 <= k < |s[1..]| && s[1..][k] == tail[j];
          }
        }
      }
    }
  }

  // ---------------------------------------------------------------------
  // The replay as the source runs it

  /** The first of some names or keys in byte order. */
  method LeastOf(names: set<ByteString>) returns (least: ByteString)
    requires names != {}
    ensures IsLeast(least, names)
  {
    least :| least in names;
    var left := names - {least};
    while left != {}
      invariant least in names && left <= names && forall k :: k in names && k !in left ==> AtMost(least, k)
      decreases |left|
    {
      var k :| k in left;
      BeforeIsTotal(k, least);
      if Before(k, least) {
        forall j | j in names && j !in left && j != least ensures Before(k, j) {
          BeforeIsTransitive(k, least, j);
        }
        least := k;
      }
      left := left - {k};
    }
  }

  /** `[...byName.values()].sort(...)` */
  method SortedAttributes(byName: AttributeMap) returns (sorted: seq<Attribute>)
    requires Named(byName)
    ensures sorted == Listing(byName)
  {
    sorted := [];
    var left := byName;
    while left != map[]
      invariant forall n :: n in left ==> n in byName && left[n] == byName[n]
      invariant StrictlySorted(sorted)
      invariant forall a :: a in sorted <==> a.name in byName && a.name !in left && byName[a.name] == a
      decreases |left|
    {
      var n :| n in left;
      InsertKeepsOrder(left[n], sorted);
      sorted := InsertAttribute(left[n], sorted);
      left := left - {n};
    }
    ListingContents(byName);
    SortedListsAgree(sorted, Listing(byName));
  }

  method SummarizeAttributes(attributes: seq<Attribute>) returns (bytesSize: int, schemaName: Option<ByteString>)
    ensures bytesSize == BytesSize(attributes) && schemaName == SchemaName(attributes)
  {
    bytesSize, schemaName := 0, None;
    for i := 0 to |attributes|
      invariant bytesSize == BytesSize(attributes[..i]) && schemaName == SchemaName(attributes[..i])
    {
      var attribute := attributes[i];
      assert attributes[..i + 1][..i] == attributes[..i];
      if attribute.typeId == TYPE_BYTES {
        bytesSize := bytesSize + attribute.value.num.Else(0);
      }
      if IsSchemaTag(attribute) {
        schemaName := Some(attribute.value.text);
      }
    }
    assert attributes[..|attributes|] == attributes;
  }

  lemma {:induction false} ApplyCellsKeepsNames(attrs: AttributeMap, cells: seq<Cell>)
    requires Named(attrs)
    ensures ApplyCells(attrs, cells).Ok? ==> Named(ApplyCells(attrs, cells).value)
  {
    if cells != [] {
      ApplyCellsKeepsNames(attrs, cells[..|cells| - 1]);
    }
  }

  lemma {:induction false} ApplyCellsFaultsEarly(attrs: AttributeMap, cells: seq<Cell>, i: nat)
    requires i <= |cells| && ApplyCells(attrs, cells[..i]).Fault?
    ensures ApplyCells(attrs, cells).Fault?
  {
    if i == |cells| {
      assert cells[..i] == cells;
    } else {
      assert cells[..|cells| - 1][..i] == cells[..i];
      ApplyCellsFaultsEarly(attrs, cells[..|cells| - 1], i);
    }
  }

  method ApplyAttributes(attrs: AttributeMap, op: Op) returns (r: Outcome<AttributeMap>)
    ensures r == ApplyCells(attrs, op.attributes)
  {
    var byName := attrs;
    var cells := op.attributes;
    for i := 0 to |cells|
      invariant ApplyCells(attrs, cells[..i]) == Ok(byName)
    {
      var cell := cells[i];
      assert cells[..i + 1][..i] == cells[..i];
      var applied := ApplyCell(byName, cell);
      if applied.Fault? {
        ApplyCellsFaultsEarly(attrs, cells, i + 1);
        return Fault;
      }
      byName := applied.value;
    }
    assert cells[..|cells|] == cells;
    return Ok(byName);
  }

  lemma {:induction false} ReplayFaultsEarly(key: ByteString, start: Replay, ops: seq<Op>, i: nat)
    requires i <= |ops| && ReplayAll(key, start, ops[..i]).Fault?
    ensures ReplayAll(key, start, ops).Fault?
  {
    if i == |ops| {
      assert ops[..i] == ops;
    } else {
      assert ops[..|ops| - 1][..i] == ops[..i];
      ReplayFaultsEarly(key, start, ops[..|ops| - 1], i);
    }
  }

  lemma {:induction false} MapOfIsNamed(attributes: seq<Attribute>)
    ensures Named(MapOf(attributes))
  {
    if attributes != [] {
      MapOfIsNamed(attributes[..|attributes| - 1]);
    }
  }

  /** One operation on the list of versions and the map of attributes the loop keeps. */
  method ReplayOp(key: ByteString, versions: seq<Version>, attributes: AttributeMap, op: Op)
    returns (r: Outcome<Replay>)
    requires Named(attributes)
    ensures r == Step(key, Replay(versions, attributes), op)
    ensures r.Ok? ==> Named(r.value.attrs)
  {
    if versions == [] {
      if op.operationType != CREATE { return Ok(Replay(versions, attributes)); }
      ApplyCellsKeepsNames(map[], op.attributes);
      var byName :- ApplyAttributes(map[], op);
      var listed := SortedAttributes(byName);
      return Ok(Replay([WithAttributes(CreatedBy(key, op), listed)], byName));
    }
    var current := Last(versions);
    if current.deleted { return Ok(Replay(versions, attributes)); }
    var next := Reopened(current, op);
    if op.operationType == PATCH {
      ApplyCellsKeepsNames(attributes, op.attributes);
      var byName :- ApplyAttributes(attributes, op);
      var listed := SortedAttributes(byName);
      return Ok(Replay(Push(versions, WithAttributes(next, listed)), byName));
    } else if op.operationType == EXTEND {
      return Ok(Replay(Push(versions, next.(expiresAt := ResolveExpiry(op))), attributes));
    } else if op.operationType == TRANSFER {
      var newOwner := NewOwner(op);
      if newOwner.None? { return Ok(Replay(versions, attributes)); }
      return Ok(Replay(Push(versions, next.(owner := newOwner.value)), attributes));
    } else if op.operationType == DELETE {
      return Ok(Replay(Push(versions, next.(deleted := true)), attributes));
    }
    return Ok(Replay(versions, attributes));
  }

  method FoldEntityVersions(key: ByteString, records: seq<Op>, base: Option<Version>)
    returns (r: Outcome<seq<Version>>)
    ensures r == Fold(key, records, base)
  {
    var ops := SortedOps(records);
    var versions: seq<Version> := [];
    var attributes: AttributeMap := map[];
    if base.Some? {
      for i := 0 to |base.value.attributes|
        invariant attributes == MapOf(base.value.attributes[..i])
      {
        assert base.value.attributes[..i + 1][..i] == base.value.attributes[..i];
        attributes := attributes[base.value.attributes[i].name := base.value.attributes[i]];
      }
      assert base.value.attributes[..|base.value.attributes|] == base.value.attributes;
      MapOfIsNamed(base.value.attributes);
      var listed := SortedAttributes(attributes);
      versions := [WithAttributes(base.value.(toBlock := None, deleted := false), listed)];
    }
    for i := 0 to |ops|
      invariant Named(attributes)
      invariant ReplayAll(key, Start(base), ops[..i]) == Ok(Replay(versions, attributes))
    {
      assert ops[..i + 1][..i] == ops[..i];
      var stepped := ReplayOp(key, versions, attributes, ops[i]);
      if stepped.Fault? {
        ReplayFaultsEarly(key, Start(base), ops, i + 1);
        return Fault;
      }
      versions, attributes := stepped.value.versions, stepped.value.attrs;
    }
    assert ops[..|ops|] == ops;
    return Ok(versions);
  }
}
