/**
 A genesis entity as the node describes it, as the version it is stored as
 (`genesisEntityToVersion` in src/entityGenesis.ts).
 */
module GenesisEntity {
  import opened Wrappers
  import opened ByteStrings
  import opened EntityIndex
  import opened FoldProperties
  import opened Projector
  import opened Paging

  const MAX_GENESIS_POSITION: nat := 0x7fff_ffff

  /** Creation flags as the wire has them: absent, a byte, two named booleans, or anything else. */
  datatype WireFlags = NoFlags | RawFlags(raw: nat) | NamedFlags(readonly: bool, permissionlessExtension: bool) | BadFlags

  /** An attribute: its type's id, when the index knows the type, and its value read as that type, when it is one. */
  datatype WireAttribute = WireAttribute(name: ByteString, typeId: Option<nat>, reading: Option<StoredValue>)

  datatype SchemaEntry = SchemaEntry(name: ByteString, indexed: bool)

  /** Each field as far as it has its shape. */
  datatype NodeEntity = NodeEntity(
    key: Option<ByteString>, owner: Option<ByteString>, creator: Option<ByteString>,
    createdAt: Option<nat>, updatedAt: Option<nat>, expiresAt: Option<nat>,
    flags: WireFlags, schema: Option<seq<SchemaEntry>>, attributes: Option<seq<WireAttribute>>)

  /** The indexed flag of a name: the last schema entry's. */
  function IndexedFlag(schema: seq<SchemaEntry>, name: ByteString): Option<bool> {
    if schema == [] then None
    else if schema[|schema| - 1].name == name then Some(schema[|schema| - 1].indexed)
    else IndexedFlag(schema[..|schema| - 1], name)
  }

  /** One attribute, refused unless it can be stored faithfully. */
  function StoredAttribute(schema: seq<SchemaEntry>, cell: WireAttribute): Option<Attribute> {
    var indexed := IndexedFlag(schema, cell.name);
    if cell.name == [] || cell.typeId.None? || indexed.None? || cell.reading.None? then None
    else if indexed.value && cell.typeId.value == TYPE_BYTES then None
    else Some(Attribute(cell.name, cell.typeId.value, indexed.value, cell.reading.value))
  }

  /** The attributes in name order; none when one is refused or appears twice. */
  function StoredAttributes(schema: seq<SchemaEntry>, cells: seq<WireAttribute>): Option<seq<Attribute>> {
    if cells == [] then Some([])
    else
      var before := StoredAttributes(schema, cells[..|cells| - 1]);
      var last := StoredAttribute(schema, cells[|cells| - 1]);
      if before.None? || last.None? || (exists a :: a in before.value && a.name == last.value.name) then None
      else Some(InsertAttribute(last.value, before.value))
  }

  function StoredFlags(flags: WireFlags): Option<Option<nat>> {
    match flags
    case NoFlags => Some(None)
    case RawFlags(raw) => if raw > 255 then None else Some(Some(raw))
    case NamedFlags(readonly, extension) => Some(Some((if readonly then 1 else 0) + (if extension then 2 else 0)))
    case BadFlags => None
  }

  function VersionAt(e: NodeEntity, position: nat): Option<Version> {
    if e.key.None? || position > MAX_GENESIS_POSITION || e.owner.None? || e.creator.None? then None
    else if e.createdAt != Some(0) || e.updatedAt != Some(0) || e.expiresAt.None? then None
    else if e.expiresAt.value == 0 || e.expiresAt.value > U64_MAX then None
    else if StoredFlags(e.flags).None? || e.schema.None? || e.attributes.None? then None
    else
      var attributes := StoredAttributes(e.schema.value, e.attributes.value);
      if attributes.None? then None
      else Some(WithAttributes(
        Version(Lower(e.key.value), 0, 0, position, 0, None, false, Lower(e.owner.value), Lower(e.creator.value),
                0, position, 0, 0, e.expiresAt.value, StoredFlags(e.flags).value, 0, None, []),
        attributes.value))
  }

  lemma {:induction false} StoredAttributesAreSorted(schema: seq<SchemaEntry>, cells: seq<WireAttribute>)
    requires StoredAttributes(schema, cells).Some?
    ensures StrictlySorted(StoredAttributes(schema, cells).value)
    ensures forall a :: a in StoredAttributes(schema, cells).value <==> exists i :: 0 <= i < |cells| && StoredAttribute(schema, cells[i]) == Some(a)
  {
    if cells != [] {
      var n := |cells| - 1;
      var before, last := StoredAttributes(schema, cells[..n]).value, StoredAttribute(schema, cells[n]).value;
      StoredAttributesAreSorted(schema, cells[..n]);
      InsertKeepsOrder(last, before);
      forall a ensures a in InsertAttribute(last, before) <==> exists i :: 0 <= i < |cells| && StoredAttribute(schema, cells[i]) == Some(a) {
        if a in before {
          var i :| 0 <= i < n && StoredAttribute(schema, cells[..n][i]) == Some(a);
          assert StoredAttribute(schema, cells[i]) == Some(a);
        }
        if i :| 0 <= i < |cells| && StoredAttribute(schema, cells[i]) == Some(a) {
          assert i < n ==> cells[..n][i] == cells[i];
        }
      }
    }
  }

  /**
   What an entity is stored as is a canonical genesis state, placed by its
   number: version 0 from block 0 on, its attributes sorted by name and each
   once, exactly those the node sent.
   */
  lemma StoredEntityIsCanonical(e: NodeEntity, position: nat)
    requires VersionAt(e, position).Some?
    ensures var v := VersionAt(e, position).value;
            Canonical(v) && Born(v) == Location(0, position, 0) && v.entityKey == Lower(e.key.value) && 0 < v.expiresAt <= U64_MAX &&
            forall a :: a in v.attributes <==>
                        exists i :: 0 <= i < |e.attributes.value| && StoredAttribute(e.schema.value, e.attributes.value[i]) == Some(a)
  {
    StoredAttributesAreSorted(e.schema.value, e.attributes.value);
  }

  // ---------------------------------------------------------------------
  // The conversion as the source writes it

  method SchemaFlags(schema: seq<SchemaEntry>) returns (indexedByName: map<ByteString, bool>)
    ensures forall n :: IndexedFlag(schema, n) == if n in indexedByName then Some(indexedByName[n]) else None
  {
    indexedByName := map[];
    for i := 0 to |schema|
      invariant forall n :: IndexedFlag(schema[..i], n) == if n in indexedByName then Some(indexedByName[n]) else None
    {
      assert schema[..i + 1][..i] == schema[..i];
      indexedByName := indexedByName[schema[i].name := schema[i].indexed];
    }
    assert schema[..|schema|] == schema;
  }

  lemma {:induction false} RefusedEarly(schema: seq<SchemaEntry>, cells: seq<WireAttribute>, i: nat)
    requires i <= |cells| && StoredAttributes(schema, cells[..i]).None?
    ensures StoredAttributes(schema, cells).None?
  {
    if i == |cells| {
      assert cells[..i] == cells;
    } else {
      assert cells[..|cells| - 1][..i] == cells[..i];
      RefusedEarly(schema, cells[..|cells| - 1], i);
    }
  }

  /** Each attribute checked, none twice, kept in name order. */
  method ReadAttributes(schema: seq<SchemaEntry>, cells: seq<WireAttribute>) returns (r: Option<seq<Attribute>>)
    ensures r == StoredAttributes(schema, cells)
  {
    var indexedByName := SchemaFlags(schema);
    var attributes: seq<Attribute> := [];
    var names: set<ByteString> := {};
    for i := 0 to |cells|
      invariant StoredAttributes(schema, cells[..i]) == Some(attributes)
      invariant forall n :: n in names <==> exists a :: a in attributes && a.name == n
    {
      var cell := cells[i];
      assert cells[..i + 1][..i] == cells[..i];
      assert IndexedFlag(schema, cell.name) == if cell.name in indexedByName then Some(indexedByName[cell.name]) else None;
      if cell.name == [] || cell.name in names || cell.typeId.None? || cell.name !in indexedByName || cell.reading.None? ||
         (indexedByName[cell.name] && cell.typeId.value == TYPE_BYTES)
      {
        assert StoredAttributes(schema, cells[..i + 1]).None?;
        RefusedEarly(schema, cells, i + 1);
        return None;
      }
      var attribute := Attribute(cell.name, cell.typeId.value, indexedByName[cell.name], cell.reading.value);
      InsertedNames(attribute, attributes);
      attributes, names := InsertAttribute(attribute, attributes), names + {cell.name};
    }
    assert cells[..|cells|] == cells;
    return Some(attributes);
  }

  lemma {:induction false} InsertedNames(a: Attribute, s: seq<Attribute>)
    ensures forall b :: b in InsertAttribute(a, s) <==> b == a || b in s
  {
    if s != [] && !Before(a.name, s[0].name) {
      InsertedNames(a, s[1..]);
      assert forall b :: b in s <==> b == s[0] || b in s[1..];
    }
  }

  method GenesisEntityToVersion(e: NodeEntity, position: nat) returns (r: Option<Version>)
    ensures r == VersionAt(e, position)
  {
    if e.key.None? || position > MAX_GENESIS_POSITION || e.owner.None? || e.creator.None? { return None; }
    if e.createdAt != Some(0) || e.updatedAt != Some(0) || e.expiresAt.None? { return None; }
    if e.expiresAt.value <= 0 || e.expiresAt.value > U64_MAX { return None; }
    var creationFlags := StoredFlags(e.flags);
    if creationFlags.None? || e.schema.None? || e.attributes.None? { return None; }
    var attributes := ReadAttributes(e.schema.value, e.attributes.value);
    if attributes.None? { return None; }
    var bytesSize, schemaName := SummarizeAttributes(attributes.value);
    return Some(Version(Lower(e.key.value), 0, 0, position, 0, None, false, Lower(e.owner.value), Lower(e.creator.value),
                        0, position, 0, 0, e.expiresAt.value, creationFlags.value, bytesSize, schemaName, attributes.value));
  }

  // ---------------------------------------------------------------------
  // The node's entities as the seed of the index

  ghost predicate AllStorable(order: seq<NodeEntity>) {
    forall i :: 0 <= i < |order| ==> VersionAt(order[i], i).Some?
  }

  function Versions(order: seq<NodeEntity>): seq<Version>
    requires forall i :: 0 <= i < |order| ==> VersionAt(order[i], i).Some?
  {
    seq(|order|, i requires 0 <= i < |order| => VersionAt(order[i], i).value)
  }

  /** Entities under distinct, non-empty keys make a seed the projector and the pages can stand on. */
  lemma SeedIsWellFormed(order: seq<NodeEntity>, overlap: nat)
    requires AllStorable(order)
    requires forall i :: 0 <= i < |order| ==> Lower(order[i].key.value) != []
    requires forall i, j :: 0 <= i < j < |order| ==> Lower(order[i].key.value) != Lower(order[j].key.value)
    ensures WellFormedSetting(Setting(Versions(order), overlap)) && Numbered(Setting(Versions(order), overlap))
  {
    forall i | 0 <= i < |order|
      ensures Canonical(Versions(order)[i]) && Born(Versions(order)[i]) == Location(0, i, 0) &&
              Versions(order)[i].entityKey == Lower(order[i].key.value)
    {
      StoredEntityIsCanonical(order[i], i);
    }
  }
}
