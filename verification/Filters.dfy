/** A `$where` tree, what it means, and what is read off it before any SQL is written. */
module Filters {
  import opened Options
  import opened Ternary
  import opened Values
  import opened LikePatterns

  /** What a field is compared with: a value, or another column of the row. */
  datatype Operand = Given(value: Value) | Ref(column: string)

  datatype LikeKind = Pattern | StartsWith | EndsWith | Includes

  /** What a field is asked; `Malformed` stands for a key an untyped client sent that is no operator at all. */
  datatype FieldOp =
    | Comparison(op: CompareOp, operand: Operand)
    | Between(min: Operand, max: Operand)
    | In(operands: seq<Operand>, negate: bool)
    | NullCheck(isNull: bool)
    | Like(kind: LikeKind, insensitive: bool, text: string)
    | Regex(text: string)
    | NotOp(val: FieldVal)
    | Malformed

  /** A field's condition as written: one value, a list of them, or a map of operators. */
  datatype FieldVal = One(operand: Operand) | Many(operands: seq<Operand>) | OpMap(ops: seq<FieldOp>)

  /** SQL a query holds verbatim, with the values it binds. */
  datatype RawSql = RawSql(sql: string, args: seq<Value>)

  predicate IsBlank(raw: RawSql) {
    raw.sql == "" && raw.args == []
  }

  datatype GroupOp = AndGroup | OrGroup | NotGroup | NorGroup

  function JoinsWithAnd(op: GroupOp): bool {
    op.AndGroup? || op.NotGroup?
  }

  function Negates(op: GroupOp): bool {
    op.NotGroup? || op.NorGroup?
  }

  /** A relation: its table, and the pairs of columns, its own and the parent's, that join the two. */
  datatype RelationMeta = RelationMeta(table: string, references: seq<(string, string)>)

  type Relation = r: RelationMeta | r.references != [] witness RelationMeta("", [("", "")])

  datatype Where = Where(clauses: seq<Clause>)

  datatype Item = RawItem(raw: RawSql) | Nested(where: Where)

  /** One key of a `$where`. */
  datatype Clause =
    | Group(op: GroupOp, items: seq<Item>)
    | Exists(negate: bool, raw: RawSql)
    | TextSearch(raw: RawSql)
    | Field(name: string, val: FieldVal)
    | Json(name: string, path: string, val: FieldVal)
    | Related(key: string, relation: Relation, where: Where)

  // ----- meaning -----

  function OperandValue(w: World, row: Row, x: Operand): Value {
    match x
    case Given(v) => Normalize(w.dialect, v)
    case Ref(c) => ColumnOf(row, c)
  }

  function OperandValues(w: World, row: Row, xs: seq<Operand>): seq<Value> {
    seq(|xs|, i requires 0 <= i < |xs| => OperandValue(w, row, xs[i]))
  }

  function EqualTo(w: World, v: Value, xs: seq<Value>): seq<Tri> {
    seq(|xs|, i requires 0 <= i < |xs| => Compared(w, Eq, v, xs[i]))
  }

  /** What a text asks of a string. */
  predicate LikeHolds(kind: LikeKind, v: string, s: string) {
    match kind
    case Pattern => Matches(v, s)
    case StartsWith => v <= s
    case EndsWith => IsSuffix(v, s)
    case Includes => IsSubstring(v, s)
  }

  function LikeMeaning(w: World, v: Value, kind: LikeKind, insensitive: bool, text: string): Tri {
    if v.Null? then Unknown
    else if !v.Str? then False
    else if insensitive then Of(LikeHolds(kind, w.dialect.fold(text), w.dialect.fold(v.s)))
    else Of(LikeHolds(kind, text, v.s))
  }

  function OpMeaning(w: World, row: Row, v: Value, op: FieldOp): Tri
    decreases op, 1
  {
    match op
    case Comparison(c, x) =>
      if x == Given(Null) && c == Eq then Of(v.Null?)
      else if x == Given(Null) && c == Ne then Of(!v.Null?)
      else Compared(w, c, v, OperandValue(w, row, x))
    case Between(min, max) =>
      And(Compared(w, Gte, v, OperandValue(w, row, min)), Compared(w, Lte, v, OperandValue(w, row, max)))
    case In(xs, negate) =>
      var any := AnyOf(EqualTo(w, v, OperandValues(w, row, xs)));
      if negate then Not(any) else any
    case NullCheck(isNull) => Of(v.Null? == isNull)
    case Like(kind, insensitive, text) => LikeMeaning(w, v, kind, insensitive, text)
    case Regex(text) => RegexMatched(w, v, Str(text))
    case NotOp(val) => Not(AllOf(ValMeanings(w, row, v, val)))
    case Malformed => Unknown
  }

  /** Each operator a field's condition applies, all of which are to hold. */
  function ValMeanings(w: World, row: Row, v: Value, val: FieldVal): seq<Tri>
    decreases val, 0
  {
    match val
    case One(x) => [if x == Given(Null) then Of(v.Null?) else Compared(w, Eq, v, OperandValue(w, row, x))]
    case Many(xs) => [AnyOf(EqualTo(w, v, OperandValues(w, row, xs)))]
    case OpMap(ops) => OpMeanings(w, row, v, ops)
  }

  function OpMeanings(w: World, row: Row, v: Value, ops: seq<FieldOp>): seq<Tri>
    decreases ops, 0
  {
    if ops == [] then [] else [OpMeaning(w, row, v, ops[0])] + OpMeanings(w, row, v, ops[1..])
  }

  /** A condition, where there is one: `NoCondition` narrows nothing. */
  datatype Meaning = NoCondition | Condition(truth: Tri)

  function AllMeaning(ts: seq<Tri>): Meaning {
    if ts == [] then NoCondition else Condition(AllOf(ts))
  }

  function GroupMeaning(op: GroupOp, ts: seq<Tri>): Meaning {
    if ts == [] then NoCondition
    else
      var joined := if JoinsWithAnd(op) then AllOf(ts) else AnyOf(ts);
      Condition(if Negates(op) then Not(joined) else joined)
  }

  function TermsOf(m: Meaning): seq<Tri> {
    if m.NoCondition? then [] else [m.truth]
  }

  /** Whether `row`'s relation reads `other`: each reference equal. */
  function Correlation(w: World, references: seq<(string, string)>, row: Row, other: Row): seq<Tri> {
    seq(|references|, i requires 0 <= i < |references| =>
      Compared(w, Eq, ColumnOf(other, references[i].0), ColumnOf(row, references[i].1)))
  }

  ghost function ClauseMeaning(w: World, row: Row, c: Clause): Meaning
    decreases c, 1
  {
    match c
    case Group(op, items) => GroupMeaning(op, ItemTerms(w, row, items))
    case Exists(negate, raw) =>
      var found := Of(w.subquery(raw.sql, row, ArgValues(w, raw)));
      Condition(if negate then Not(found) else found)
    case TextSearch(raw) => Condition(w.raw(raw.sql, row, ArgValues(w, raw)))
    case Field(name, val) => AllMeaning(ValMeanings(w, row, ColumnOf(row, name), val))
    case Json(name, path, val) => AllMeaning(ValMeanings(w, row, w.path(ColumnOf(row, name), path), val))
    case Related(_, relation, where) => Condition(Of(HasRelated(w, row, relation, where)))
  }

  function ArgValues(w: World, raw: RawSql): seq<Value> {
    seq(|raw.args|, i requires 0 <= i < |raw.args| => Normalize(w.dialect, raw.args[i]))
  }

  /** Whether a row of `row`'s relation meets `where`. */
  ghost predicate HasRelated(w: World, row: Row, relation: Relation, where: Where)
    decreases where, 2
  {
    exists other :: other in w.rows(relation.table) &&
      AllOf(Correlation(w, relation.references, row, other) + ClauseTerms(w, other, where.clauses)) == True
  }

  ghost function WhereMeaning(w: World, row: Row, where: Where): Meaning
    decreases where, 1
  {
    AllMeaning(ClauseTerms(w, row, where.clauses))
  }

  /** The truth of each clause that names a condition. */
  ghost function ClauseTerms(w: World, row: Row, cs: seq<Clause>): seq<Tri>
    decreases cs, 0
  {
    if cs == [] then [] else TermsOf(ClauseMeaning(w, row, cs[0])) + ClauseTerms(w, row, cs[1..])
  }

  ghost function ItemTerms(w: World, row: Row, items: seq<Item>): seq<Tri>
    decreases items, 0
  {
    if items == [] then [] else TermsOf(ItemMeaning(w, row, items[0])) + ItemTerms(w, row, items[1..])
  }

  ghost function ItemMeaning(w: World, row: Row, item: Item): Meaning
    decreases item, 0
  {
    match item
    case RawItem(raw) => if IsBlank(raw) then NoCondition else Condition(w.raw(raw.sql, row, ArgValues(w, raw)))
    case Nested(where) => WhereMeaning(w, row, where)
  }

  // ----- what is refused -----

  function WrittenLike(d: Dialect, kind: LikeKind, insensitive: bool, text: string): Option<string> {
    var v := if insensitive then d.fold(text) else text;
    match kind
    case Pattern => LikePattern(v)
    case StartsWith => Some(LikeLiteral(v) + "%")
    case EndsWith => Some("%" + LikeLiteral(v))
    case Includes => Some("%" + LikeLiteral(v) + "%")
  }

  /** An operator the renderer throws at: no operator at all, or a pattern ending in a bare backslash. */
  predicate OpRefused(d: Dialect, op: FieldOp)
    decreases op, 1
  {
    match op
    case Malformed => true
    case Like(kind, insensitive, text) => WrittenLike(d, kind, insensitive, text).None?
    case NotOp(val) => ValRefused(d, val)
    case _ => false
  }

  predicate ValRefused(d: Dialect, val: FieldVal)
    decreases val, 0
  {
    val.OpMap? && OpsRefused(d, val.ops)
  }

  predicate OpsRefused(d: Dialect, ops: seq<FieldOp>)
    decreases ops, 0
  {
    ops != [] && (OpRefused(d, ops[0]) || OpsRefused(d, ops[1..]))
  }

  predicate ClauseRefused(d: Dialect, c: Clause)
    decreases c, 1
  {
    match c
    case Group(_, items) => ItemsRefused(d, items)
    case Field(_, val) => ValRefused(d, val)
    case Json(_, _, val) => ValRefused(d, val)
    case Related(_, _, where) => ClausesRefused(d, where.clauses)
    case _ => false
  }

  predicate ClausesRefused(d: Dialect, cs: seq<Clause>)
    decreases cs, 0
  {
    cs != [] && (ClauseRefused(d, cs[0]) || ClausesRefused(d, cs[1..]))
  }

  predicate ItemsRefused(d: Dialect, items: seq<Item>)
    decreases items, 0
  {
    items != [] && (ItemRefused(d, items[0]) || ItemsRefused(d, items[1..]))
  }

  predicate ItemRefused(d: Dialect, item: Item)
    decreases item, 0
  {
    item.Nested? && ClausesRefused(d, item.where.clauses)
  }

  // ----- a `$not` of nothing -----

  /** Whether a field's `$not` anywhere in the condition holds an empty map. */
  predicate ValNegatesNothing(val: FieldVal)
    decreases val, 0
  {
    val.OpMap? && OpsNegateNothing(val.ops)
  }

  predicate OpsNegateNothing(ops: seq<FieldOp>)
    decreases ops, 0
  {
    ops != [] && (OpNegatesNothing(ops[0]) || OpsNegateNothing(ops[1..]))
  }

  predicate OpNegatesNothing(op: FieldOp)
    decreases op, 1
  {
    op.NotOp? && (op.val == OpMap([]) || ValNegatesNothing(op.val))
  }

  predicate ClauseNegatesNothing(c: Clause)
    decreases c, 1
  {
    match c
    case Group(_, items) => ItemsNegateNothing(items)
    case Field(_, val) => ValNegatesNothing(val)
    case Json(_, _, val) => ValNegatesNothing(val)
    case Related(_, _, where) => ClausesNegateNothing(where.clauses)
    case _ => false
  }

  predicate ClausesNegateNothing(cs: seq<Clause>)
    decreases cs, 0
  {
    cs != [] && (ClauseNegatesNothing(cs[0]) || ClausesNegateNothing(cs[1..]))
  }

  predicate ItemsNegateNothing(items: seq<Item>)
    decreases items, 0
  {
    items != [] && (ItemNegatesNothing(items[0]) || ItemsNegateNothing(items[1..]))
  }

  predicate ItemNegatesNothing(item: Item)
    decreases item, 0
  {
    item.Nested? && ClausesNegateNothing(item.where.clauses)
  }

  // ----- which rows are named -----

  /** `namesRows`, decided on the tree before any text is rendered. */
  predicate NamesRows(cs: seq<Clause>)
    decreases cs, 0
  {
    cs != [] && (ClauseNames(cs[0]) || NamesRows(cs[1..]))
  }

  predicate ClauseNames(c: Clause)
    decreases c, 1
  {
    match c
    case Group(_, items) => ItemsName(items)
    case Field(_, val) => val != OpMap([])
    case Json(_, _, val) => val != OpMap([])
    case Related(_, _, where) => where.clauses != []
    case _ => true
  }

  predicate ItemsName(items: seq<Item>)
    decreases items, 0
  {
    items != [] && (ItemNames(items[0]) || ItemsName(items[1..]))
  }

  predicate ItemNames(item: Item)
    decreases item, 0
  {
    item.RawItem? || NamesRows(item.where.clauses)
  }
}
