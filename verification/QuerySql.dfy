/**
 Compiling a query to a predicate over the two projection tables
 (src/entityQuerySql.ts), and what the predicate means there.
 */
module QuerySql {
  import opened Wrappers
  import opened ByteStrings
  import opened EntityIndex
  import opened IndexStorage

  const I64_MAX: int := 0x7fff_ffff_ffff_ffff

  // ---------------------------------------------------------------------
  // Queries, and what they mean of a version

  datatype QueryValue =
    | BoolValue(bit: bool)
    | I32(number: int) | U64(number: int) | U256(number: int) | Dec(number: int)
    | Str(text: ByteString) | Addr(text: ByteString) | Key(text: ByteString) | Bytes32(text: ByteString)

  datatype BuiltIn = Owner | Creator | EntityKey | ExpiresAt | CreatedAt

  datatype AttributeRef = User(name: ByteString) | System(field: BuiltIn)

  datatype Comparison = Eq | Lt | Lte | Gt | Gte

  datatype Query =
    | All
    | Compare(op: Comparison, ref: AttributeRef, value: QueryValue)
    | StartsWith(ref: AttributeRef, prefix: ByteString)
    | And(left: Query, right: Query)
    | Or(left: Query, right: Query)
    | Not(inner: Query)

  function TypeId(value: QueryValue): nat {
    match value
    case BoolValue(_) => 1
    case I32(_) => 2
    case U64(_) => 3
    case U256(_) => 4
    case Dec(_) => 5
    case Bytes32(_) => 6
    case Str(_) => 8
    case Addr(_) => 9
    case Key(_) => 10
  }

  predicate IsOrdered(value: QueryValue) {
    value.I32? || value.U64? || value.U256? || value.Dec?
  }

  /** What the parser lets through: a system attribute's own type, ranges on ordered types only, no prefix of a system attribute. */
  predicate WellTyped(q: Query) {
    match q
    case All => true
    case Compare(op, ref, value) =>
      (op != Eq ==> IsOrdered(value)) &&
      (ref.System? ==>
        match ref.field
        case Owner => value.Addr?
        case Creator => value.Addr?
        case EntityKey => value.Key?
        case ExpiresAt => value.U64?
        case CreatedAt => value.U64?)
    case StartsWith(ref, _) => ref.User?
    case And(l, r) => WellTyped(l) && WellTyped(r)
    case Or(l, r) => WellTyped(l) && WellTyped(r)
    case Not(inner) => WellTyped(inner)
  }

  const TRUE_TEXT: ByteString := [116, 114, 117, 101]
  const FALSE_TEXT: ByteString := [102, 97, 108, 115, 101]

  /** The typed value a stored attribute holds; `bytes` are not queryable. */
  function ValueOf(a: Attribute): Option<QueryValue> {
    match a.typeId
    case 1 => if a.value.text == TRUE_TEXT then Some(BoolValue(true)) else if a.value.text == FALSE_TEXT then Some(BoolValue(false)) else None
    case 2 => if a.value.num.Some? then Some(I32(a.value.num.value)) else None
    case 3 => if a.value.num.Some? then Some(U64(a.value.num.value)) else None
    case 4 => if a.value.num.Some? then Some(U256(a.value.num.value)) else None
    case 5 => if a.value.num.Some? then Some(Dec(a.value.num.value)) else None
    case 6 => Some(Bytes32(a.value.text))
    case 8 => Some(Str(a.value.text))
    case 9 => Some(Addr(a.value.text))
    case 10 => Some(Key(a.value.text))
    case _ => None
  }

  predicate CompareNumbers(op: Comparison, a: int, b: int) {
    match op
    case Eq => a == b
    case Lt => a < b
    case Lte => a <= b
    case Gt => a > b
    case Gte => a >= b
  }

  predicate CompareBytes(op: Comparison, a: ByteString, b: ByteString) {
    match op
    case Eq => a == b
    case Lt => Before(a, b)
    case Lte => AtMost(a, b)
    case Gt => Before(b, a)
    case Gte => AtMost(b, a)
  }

  /** Values of one type compare; values of different types never match. */
  predicate Satisfies(op: Comparison, held: QueryValue, asked: QueryValue) {
    TypeId(held) == TypeId(asked) &&
    if IsOrdered(asked) then CompareNumbers(op, held.number, asked.number) else op == Eq && held == asked
  }

  /** Whether a version has the answer, read off its own attributes: indexed ones of the asked type only. */
  ghost predicate Matches(q: Query, v: Version) {
    match q
    case All => true
    case Compare(op, User(name), value) =>
      exists a :: a in v.attributes && a.name == name && a.indexed && ValueOf(a).Some? && Satisfies(op, ValueOf(a).value, value)
    case Compare(op, System(Owner), value) => Satisfies(op, Addr(v.owner), value)
    case Compare(op, System(Creator), value) => Satisfies(op, Addr(v.creator), value)
    case Compare(op, System(EntityKey), value) => Satisfies(op, Key(v.entityKey), value)
    case Compare(op, System(ExpiresAt), value) => Satisfies(op, U64(v.expiresAt), value)
    case Compare(op, System(CreatedAt), value) => Satisfies(op, U64(v.createdAt), value)
    case StartsWith(User(name), prefix) =>
      exists a :: a in v.attributes && a.name == name && a.indexed && a.typeId == TYPE_STR && prefix <= a.value.text
    case StartsWith(System(_), _) => false
    case And(l, r) => Matches(l, v) && Matches(r, v)
    case Or(l, r) => Matches(l, v) || Matches(r, v)
    case Not(inner) => !Matches(inner, v)
  }

  // ---------------------------------------------------------------------
  // Numbers as parameter text

  function Digits(n: nat): ByteString {
    if n < 10 then [48 + n] else Digits(n / 10) + [48 + n % 10]
  }

  /** `String(n)`, `n.toString()` */
  function DecimalText(n: int): ByteString {
    if n < 0 then [45] + Digits(-n) else Digits(n)
  }

  function ReadDigits(s: ByteString): Option<int> {
    if s == [] then Some(0)
    else
      var high, d := ReadDigits(s[..|s| - 1]), s[|s| - 1];
      if high.None? || d < 48 || d > 57 then None else Some(10 * high.value + (d - 48))
  }

  /** `::numeric` of an integer text */
  function ReadNumeric(s: ByteString): Option<int> {
    if s != [] && s[0] == 45 then
      if ReadDigits(s[1..]).None? || |s| == 1 then None else Some(-ReadDigits(s[1..]).value)
    else if s == [] then None
    else if ReadDigits(s).None? then None else Some(ReadDigits(s).value)
  }

  lemma {:induction false} DigitsRoundTrip(n: nat)
    ensures ReadDigits(Digits(n)) == Some(n)
    ensures Digits(n) != [] && Digits(n)[0] != 45
  {
    if n >= 10 {
      DigitsRoundTrip(n / 10);
      var s := Digits(n);
      assert s[..|s| - 1] == Digits(n / 10);
    } else {
      assert ReadDigits([48 + n][..0]) == Some(0);
    }
  }

  lemma NumericRoundTrip(n: int)
    ensures ReadNumeric(DecimalText(n)) == Some(n)
  {
    DigitsRoundTrip(if n < 0 then -n else n);
    if n < 0 { assert DecimalText(n)[1..] == Digits(-n); }
  }

  // ---------------------------------------------------------------------
  // The compiled predicate

  datatype Param = TextParam(text: ByteString) | BytesParam(bytes: ByteString) | SmallParam(number: int)

  datatype Cast = NoCast | Numeric | BigInt

  datatype Condition =
    | NumberIs(op: Comparison, param: nat)
    | BytesAre(op: Comparison, param: nat)
    | BytesFrom(from: nat, below: Option<nat>)

  /** A predicate over the row `v`; numbers are the `$n` it refers to. */
  datatype Sql =
    | TrueSql | FalseSql
    | AndSql(left: Sql, right: Sql)
    | OrSql(left: Sql, right: Sql)
    | NotSql(inner: Sql)
    | ColumnIs(column: BuiltIn, op: Comparison, param: nat, cast: Cast)
    | ExistsAttribute(name: nat, typeId: nat, condition: Condition)

  /** The comparable form of a value: decimal text of ordered types, canonical text otherwise. */
  function QueryValueOperand(value: QueryValue): ByteString {
    match value
    case BoolValue(bit) => if bit then TRUE_TEXT else FALSE_TEXT
    case I32(n) => DecimalText(n)
    case U64(n) => DecimalText(n)
    case U256(n) => DecimalText(n)
    case Dec(n) => DecimalText(n)
    case Str(s) => s
    case Addr(s) => s
    case Key(s) => s
    case Bytes32(s) => s
  }

  function CastOf(field: BuiltIn): Cast {
    match field
    case ExpiresAt => Numeric
    case CreatedAt => BigInt
    case _ => NoCast
  }

  datatype Compiled = Compiled(sql: Sql, params: seq<Param>)

  /** The literal is above every block number the column can hold. */
  predicate AboveColumn(ref: AttributeRef, value: QueryValue) {
    ref == System(CreatedAt) && (value.U64? || value.U256?) && value.number > I64_MAX
  }

  /** The predicate and the parameters it adds, when `used` placeholders are taken before it. */
  function Compile(q: Query, used: nat): Outcome<Compiled> {
    match q
    case All => Ok(Compiled(TrueSql, []))
    case And(l, r) =>
      var left :- Compile(l, used);
      var right :- Compile(r, used + |left.params|);
      Ok(Compiled(AndSql(left.sql, right.sql), left.params + right.params))
    case Or(l, r) =>
      var left :- Compile(l, used);
      var right :- Compile(r, used + |left.params|);
      Ok(Compiled(OrSql(left.sql, right.sql), left.params + right.params))
    case Not(inner) =>
      var c :- Compile(inner, used);
      Ok(Compiled(NotSql(c.sql), c.params))
    case Compare(op, System(field), value) =>
      if AboveColumn(System(field), value) then Ok(Compiled(if op == Lt || op == Lte then TrueSql else FalseSql, []))
      else Ok(Compiled(ColumnIs(field, op, used + 1, CastOf(field)), [TextParam(QueryValueOperand(value))]))
    case Compare(op, User(name), value) =>
      var operand := QueryValueOperand(value);
      Ok(Compiled(ExistsAttribute(used + 1, used + 2, if IsOrdered(value) then NumberIs(op, used + 3) else BytesAre(op, used + 3)),
                  [TextParam(name), SmallParam(TypeId(value)), if IsOrdered(value) then TextParam(operand) else BytesParam(operand)]))
    case StartsWith(System(_), _) => Fault
    case StartsWith(User(name), prefix) =>
      var next := NextPrefix(prefix);
      Ok(Compiled(ExistsAttribute(used + 1, used + 2, BytesFrom(used + 3, if next.Some? then Some(used + 4) else None)),
                  [TextParam(name), SmallParam(TYPE_STR), BytesParam(prefix)] +
                  (if next.Some? then [BytesParam(next.value)] else [])))
  }

  /** The parameter `$n` as a number; reading it as a `bigint` fails past its range. */
  function NumberAt(params: seq<Param>, n: nat, cast: Cast): Outcome<int> {
    if !(1 <= n <= |params|) || !params[n - 1].TextParam? then Fault
    else
      var number := ReadNumeric(params[n - 1].text);
      if number.None? || (cast.BigInt? && !(-I64_MAX - 1 <= number.value <= I64_MAX)) then Fault else Ok(number.value)
  }

  function TextAt(params: seq<Param>, n: nat): Outcome<ByteString> {
    if !(1 <= n <= |params|) || !params[n - 1].TextParam? then Fault else Ok(params[n - 1].text)
  }

  function BytesAt(params: seq<Param>, n: nat): Outcome<ByteString> {
    if !(1 <= n <= |params|) || !params[n - 1].BytesParam? then Fault else Ok(params[n - 1].bytes)
  }

  function SmallAt(params: seq<Param>, n: nat): Outcome<int> {
    if !(1 <= n <= |params|) || !params[n - 1].SmallParam? then Fault else Ok(params[n - 1].number)
  }

  /** The condition's parameters, read once for all rows: a test of one attribute row. */
  datatype RowTest =
    | NumberTest(op: Comparison, number: int)
    | BytesTest(op: Comparison, bytes: ByteString)
    | RangeTest(from: ByteString, below: Option<ByteString>)

  function TestOf(condition: Condition, params: seq<Param>): Outcome<RowTest> {
    match condition
    case NumberIs(op, n) => var number :- NumberAt(params, n, Numeric); Ok(NumberTest(op, number))
    case BytesAre(op, n) => var bytes :- BytesAt(params, n); Ok(BytesTest(op, bytes))
    case BytesFrom(n, m) =>
      var from :- BytesAt(params, n);
      if m.None? then Ok(RangeTest(from, None))
      else
        var below :- BytesAt(params, m.value);
        Ok(RangeTest(from, Some(below)))
  }

  /** A comparison with a NULL `value_num` is not true. */
  predicate Passes(test: RowTest, value: StoredValue) {
    match test
    case NumberTest(op, number) => value.num.Some? && CompareNumbers(op, value.num.value, number)
    case BytesTest(op, bytes) => CompareBytes(op, value.text, bytes)
    case RangeTest(from, below) => AtMost(from, value.text) && (below.None? || Before(value.text, below.value))
  }

  ghost predicate SomeRow(table: AttributeTable, v: Version, name: ByteString, typeId: int, test: RowTest) {
    exists id :: id in table && id.key == v.entityKey && id.version == v.version && table[id].attribute.indexed &&
                 id.name == name && table[id].attribute.typeId == typeId && Passes(test, table[id].attribute.value)
  }

  function ColumnText(field: BuiltIn, v: Version): ByteString {
    match field
    case Owner => v.owner
    case Creator => v.creator
    case _ => v.entityKey
  }

  function ColumnNumber(field: BuiltIn, v: Version): int {
    if field == ExpiresAt then v.expiresAt else v.createdAt
  }

  /** The predicate evaluated on a row of the versions table; a failing cast fails the statement. */
  ghost function Eval(sql: Sql, v: Version, table: AttributeTable, params: seq<Param>): Outcome<bool> {
    match sql
    case TrueSql => Ok(true)
    case FalseSql => Ok(false)
    case AndSql(l, r) =>
      var a :- Eval(l, v, table, params);
      var b :- Eval(r, v, table, params);
      Ok(a && b)
    case OrSql(l, r) =>
      var a :- Eval(l, v, table, params);
      var b :- Eval(r, v, table, params);
      Ok(a || b)
    case NotSql(inner) => var a :- Eval(inner, v, table, params); Ok(!a)
    case ColumnIs(field, op, n, cast) =>
      if cast.NoCast? then
        var text :- TextAt(params, n);
        Ok(CompareBytes(op, ColumnText(field, v), text))
      else
        var number :- NumberAt(params, n, cast);
        Ok(CompareNumbers(op, ColumnNumber(field, v), number))
    case ExistsAttribute(n, t, condition) =>
      var name :- TextAt(params, n);
      var typeId :- SmallAt(params, t);
      var test :- TestOf(condition, params);
      Ok(SomeRow(table, v, name, typeId, test))
  }

  // ---------------------------------------------------------------------
  // Meaning is preserved

  /** An EXISTS over the attributes table looks at exactly the version's own attributes. */
  lemma RowsAreOwnAttributes(table: AttributeTable, hist: Histories, v: Version, name: ByteString, typeId: int, test: RowTest)
    requires IsAttributeTable(table, hist) && Recorded(hist, v)
    ensures SomeRow(table, v, name, typeId, test) <==>
            exists a :: a in v.attributes && a.name == name && a.indexed && a.typeId == typeId && Passes(test, a.value)
  {
    if SomeRow(table, v, name, typeId, test) {
      var id :| id in table && id.key == v.entityKey && id.version == v.version && table[id].attribute.indexed &&
                id.name == name && table[id].attribute.typeId == typeId && Passes(test, table[id].attribute.value);
      assert HasSource(hist, id, table[id]);
      var w :| Recorded(hist, w) && table[id].attribute in w.attributes && id == AttributeIdOf(w, table[id].attribute);
      assert w == v;
      assert table[id].attribute in v.attributes;
    }
    if a :| a in v.attributes && a.name == name && a.indexed && a.typeId == typeId && Passes(test, a.value) {
      assert HasRow(table, v, a);
      var id := AttributeIdOf(v, a);
      assert id in table && table[id].attribute == a;
    }
  }

  /** One stored attribute passes the compiled test exactly when its typed value satisfies the predicate. */
  lemma TestIsSatisfaction(op: Comparison, a: Attribute, value: QueryValue)
    requires op != Eq ==> IsOrdered(value)
    ensures var test := if IsOrdered(value) then NumberTest(op, value.number) else BytesTest(op, QueryValueOperand(value));
            (a.typeId == TypeId(value) && Passes(test, a.value)) <==> (ValueOf(a).Some? && Satisfies(op, ValueOf(a).value, value))
  {
  }

  lemma ComparePreserves(q: Query, v: Version, table: AttributeTable, hist: Histories, pre: seq<Param>, post: seq<Param>)
    requires q.Compare? && q.ref.User? && WellTyped(q)
    requires IsAttributeTable(table, hist) && Recorded(hist, v)
    ensures var c := Compile(q, |pre|);
            c.Ok? && Eval(c.value.sql, v, table, pre + c.value.params + post) == Ok(Matches(q, v))
  {
    var c := Compile(q, |pre|).value;
    var params := pre + c.params + post;
    var value := q.value;
    assert params[|pre|] == c.params[0] && params[|pre| + 1] == c.params[1] && params[|pre| + 2] == c.params[2];
    var test := if IsOrdered(value) then NumberTest(q.op, value.number) else BytesTest(q.op, QueryValueOperand(value));
    if IsOrdered(value) { NumericRoundTrip(value.number); }
    assert TestOf(c.sql.condition, params) == Ok(test);
    RowsAreOwnAttributes(table, hist, v, q.ref.name, TypeId(value), test);
    forall a | a in v.attributes
      ensures (a.typeId == TypeId(value) && Passes(test, a.value)) <==> (ValueOf(a).Some? && Satisfies(q.op, ValueOf(a).value, value))
    {
      TestIsSatisfaction(q.op, a, value);
    }
  }

  lemma PrefixPreserves(q: Query, v: Version, table: AttributeTable, hist: Histories, pre: seq<Param>, post: seq<Param>)
    requires q.StartsWith? && WellTyped(q)
    requires IsAttributeTable(table, hist) && Recorded(hist, v)
    ensures var c := Compile(q, |pre|);
            c.Ok? && Eval(c.value.sql, v, table, pre + c.value.params + post) == Ok(Matches(q, v))
  {
    var c := Compile(q, |pre|).value;
    var params := pre + c.params + post;
    var next := NextPrefix(q.prefix);
    assert params[|pre|] == c.params[0] && params[|pre| + 1] == c.params[1] && params[|pre| + 2] == c.params[2];
    if next.Some? { assert params[|pre| + 3] == c.params[3]; }
    var test := RangeTest(q.prefix, next);
    assert TestOf(c.sql.condition, params) == Ok(test);
    RowsAreOwnAttributes(table, hist, v, q.ref.name, TYPE_STR, test);
    forall a | a in v.attributes ensures Passes(test, a.value) <==> q.prefix <= a.value.text {
      PrefixIsRange(a.value.text, q.prefix);
    }
  }

  lemma ColumnPreserves(q: Query, v: Version, table: AttributeTable, pre: seq<Param>, post: seq<Param>)
    requires q.Compare? && q.ref.System? && WellTyped(q) && v.createdAt <= I64_MAX
    requires q.value.U64? ==> q.value.number >= 0
    ensures var c := Compile(q, |pre|);
            c.Ok? && Eval(c.value.sql, v, table, pre + c.value.params + post) == Ok(Matches(q, v))
  {
    var c := Compile(q, |pre|).value;
    var params := pre + c.params + post;
    if !AboveColumn(q.ref, q.value) {
      assert params[|pre|] == c.params[0];
      if q.value.U64? { NumericRoundTrip(q.value.number); }
    }
  }

  /** Unsigned literals are not negative: the lexer has no sign for them. */
  predicate LiteralsInRange(q: Query) {
    match q
    case Compare(_, _, value) => value.U64? ==> value.number >= 0
    case And(l, r) => LiteralsInRange(l) && LiteralsInRange(r)
    case Or(l, r) => LiteralsInRange(l) && LiteralsInRange(r)
    case Not(inner) => LiteralsInRange(inner)
    case _ => true
  }

  /**
   Compilation preserves meaning: for every well-typed query, every row of the
   versions table and every placement of its parameters in a statement, the
   compiled predicate evaluates, without a failing cast, to what the query
   says of the version's own attributes.
   */
  lemma {:induction false} CompilationPreservesMeaning(q: Query, v: Version, table: AttributeTable, hist: Histories,
                                                       pre: seq<Param>, post: seq<Param>)
    requires WellTyped(q) && LiteralsInRange(q) && v.createdAt <= I64_MAX
    requires IsAttributeTable(table, hist) && Recorded(hist, v)
    ensures var c := Compile(q, |pre|);
            c.Ok? && Eval(c.value.sql, v, table, pre + c.value.params + post) == Ok(Matches(q, v))
    decreases q
  {
    match q
    case All =>
    case Compare(_, ref, _) =>
      if ref.User? { ComparePreserves(q, v, table, hist, pre, post); } else { ColumnPreserves(q, v, table, pre, post); }
    case StartsWith(_, _) => PrefixPreserves(q, v, table, hist, pre, post);
    case Not(inner) => CompilationPreservesMeaning(inner, v, table, hist, pre, post);
    case _ => PairPreserves(q, q.left, q.right, v, table, hist, pre, post);
  }

  lemma {:induction false} PairPreserves(q: Query, l: Query, r: Query, v: Version, table: AttributeTable, hist: Histories,
                                         pre: seq<Param>, post: seq<Param>)
    requires WellTyped(q) && LiteralsInRange(q) && v.createdAt <= I64_MAX && (q == And(l, r) || q == Or(l, r))
    requires IsAttributeTable(table, hist) && Recorded(hist, v)
    ensures var c := Compile(q, |pre|);
            c.Ok? && Eval(c.value.sql, v, table, pre + c.value.params + post) == Ok(Matches(q, v))
    decreases q, 0
  {
    CompilationPreservesMeaning(l, v, table, hist, pre, []);
    var left := Compile(l, |pre|).value.params;
    CompilationPreservesMeaning(r, v, table, hist, pre + left, post);
    var right := Compile(r, |pre + left|).value.params;
    CompilationPreservesMeaning(l, v, table, hist, pre, right + post);
    PairEvaluates(q, l, r, v, table, pre, left, right, post, Matches(l, v), Matches(r, v));
  }

  lemma PairCompiles(q: Query, l: Query, r: Query, used: nat)
    requires q == And(l, r) || q == Or(l, r)
    requires Compile(l, used).Ok? && Compile(r, used + |Compile(l, used).value.params|).Ok?
    ensures var a, b := Compile(l, used).value, Compile(r, used + |Compile(l, used).value.params|).value;
            Compile(q, used) == Ok(Compiled(if q.And? then AndSql(a.sql, b.sql) else OrSql(a.sql, b.sql), a.params + b.params))
  {
  }

  lemma PairOfSql(sql: Sql, l: Sql, r: Sql, v: Version, table: AttributeTable, params: seq<Param>)
    requires sql == AndSql(l, r) || sql == OrSql(l, r)
    requires Eval(l, v, table, params).Ok? && Eval(r, v, table, params).Ok?
    ensures var a, b := Eval(l, v, table, params).value, Eval(r, v, table, params).value;
            Eval(sql, v, table, params) == Ok(if sql.AndSql? then a && b else a || b)
  {
  }

  lemma PairEvaluates(q: Query, l: Query, r: Query, v: Version, table: AttributeTable,
                      pre: seq<Param>, left: seq<Param>, right: seq<Param>, post: seq<Param>, a: bool, b: bool)
    requires q == And(l, r) || q == Or(l, r)
    requires Compile(l, |pre|).Ok? && Compile(l, |pre|).value.params == left
    requires Compile(r, |pre + left|).Ok? && Compile(r, |pre + left|).value.params == right
    requires Eval(Compile(l, |pre|).value.sql, v, table, pre + left + (right + post)) == Ok(a)
    requires Eval(Compile(r, |pre + left|).value.sql, v, table, (pre + left) + right + post) == Ok(b)
    ensures var c := Compile(q, |pre|);
            c.Ok? && Eval(c.value.sql, v, table, pre + c.value.params + post) == Ok(if q.And? then a && b else a || b)
  {
    hide Compile, Eval;
    var params := pre + (left + right) + post;
    assert pre + left + (right + post) == params && (pre + left) + right + post == params;
    assert |pre + left| == |pre| + |left|;
    PairCompiles(q, l, r, |pre|);
    PairOfSql(Compile(q, |pre|).value.sql, Compile(l, |pre|).value.sql, Compile(r, |pre + left|).value.sql, v, table, params);
  }

  /** A prefix of a system attribute anywhere in the query. */
  predicate HasSystemPrefix(q: Query) {
    match q
    case StartsWith(ref, _) => ref.System?
    case And(l, r) => HasSystemPrefix(l) || HasSystemPrefix(r)
    case Or(l, r) => HasSystemPrefix(l) || HasSystemPrefix(r)
    case Not(inner) => HasSystemPrefix(inner)
    case _ => false
  }

  /** Compilation throws on exactly the queries the parser never produces. */
  lemma {:induction false} CompileFaultsExactly(q: Query, used: nat)
    ensures Compile(q, used).Fault? <==> HasSystemPrefix(q)
    decreases q
  {
    match q
    case And(l, r) =>
      CompileFaultsExactly(l, used);
      if Compile(l, used).Ok? { CompileFaultsExactly(r, used + |Compile(l, used).value.params|); }
      else if !HasSystemPrefix(r) { CompileFaultsExactly(r, used); }
    case Or(l, r) =>
      CompileFaultsExactly(l, used);
      if Compile(l, used).Ok? { CompileFaultsExactly(r, used + |Compile(l, used).value.params|); }
    case Not(inner) => CompileFaultsExactly(inner, used);
    case _ =>
  }

  // ---------------------------------------------------------------------
  // The compiler as the source writes it

  class Params {
    const offset: nat
    var values: seq<Param>

    constructor (offset: nat)
      ensures this.offset == offset && values == []
    {
      this.offset, values := offset, [];
    }

    method Add(value: Param) returns (ref: nat)
      modifies this
      ensures values == old(values) + [value] && ref == offset + |values|
    {
      values := values + [value];
      ref := offset + |values|;
    }
  }

  /** `compileNode`: the text, its parameters appended as they are met. */
  method CompileNode(q: Query, params: Params) returns (sql: Outcome<Sql>)
    modifies params
    ensures var c := Compile(q, params.offset + |old(params.values)|);
            if c.Fault? then sql == Fault
            else sql == Ok(c.value.sql) && params.values == old(params.values) + c.value.params
    decreases q
  {
    match q
    case All => return Ok(TrueSql);
    case And(l, r) =>
      var left :- CompileNode(l, params);
      var right :- CompileNode(r, params);
      return Ok(AndSql(left, right));
    case Or(l, r) =>
      var left :- CompileNode(l, params);
      var right :- CompileNode(r, params);
      return Ok(OrSql(left, right));
    case Not(inner) =>
      var c :- CompileNode(inner, params);
      return Ok(NotSql(c));
    case Compare(op, System(field), value) =>
      if AboveColumn(System(field), value) { return Ok(if op == Lt || op == Lte then TrueSql else FalseSql); }
      var n := params.Add(TextParam(QueryValueOperand(value)));
      return Ok(ColumnIs(field, op, n, CastOf(field)));
    case Compare(op, User(key), value) =>
      var name := params.Add(TextParam(key));
      var typeId := params.Add(SmallParam(TypeId(value)));
      if IsOrdered(value) {
        var n := params.Add(TextParam(QueryValueOperand(value)));
        return Ok(ExistsAttribute(name, typeId, NumberIs(op, n)));
      }
      var n := params.Add(BytesParam(QueryValueOperand(value)));
      return Ok(ExistsAttribute(name, typeId, BytesAre(op, n)));
    case StartsWith(System(_), _) => return Fault;
    case StartsWith(User(key), prefix) =>
      var name := params.Add(TextParam(key));
      var typeId := params.Add(SmallParam(TYPE_STR));
      var from := params.Add(BytesParam(prefix));
      var bytes := new Byte[|prefix|](i requires 0 <= i < |prefix| => prefix[i]);
      assert bytes[..] == prefix;
      var next := NextBytePrefix(bytes);
      if next == null { return Ok(ExistsAttribute(name, typeId, BytesFrom(from, None))); }
      var below := params.Add(BytesParam(next[..]));
      return Ok(ExistsAttribute(name, typeId, BytesFrom(from, Some(below))));
  }

  method CompileEntityQuery(q: Query, paramOffset: nat) returns (r: Outcome<Compiled>)
    ensures r == Compile(q, paramOffset)
  {
    var params := new Params(paramOffset);
    var sql :- CompileNode(q, params);
    assert forall added: seq<Param> :: [] + added == added;
    return Ok(Compiled(sql, params.values));
  }
}
