/**
 * The SQL text of a `$where`, and the values it binds, as a function of what the statement has bound and named so far.
 */
module WhereText {
  import opened Options
  import opened Values
  import opened SqlText
  import opened SqlShapes
  import opened Filters
  import opened Aliases
  import opened LikePatterns

  /** How values are written: as a dialect takes them, bound or inlined. */
  datatype Mode = Mode(dialect: Dialect, inlined: bool)

  /** A stretch of SQL, with what its own placeholders bind. */
  datatype Piece = Piece(text: Tokens, values: seq<Value>)

  /** Texts to be joined, and the values they bind from first to last. */
  datatype Pieces = Pieces(parts: seq<Tokens>, values: seq<Value>)

  /** A piece, and the statement's aliases once it is written. */
  datatype Fragment = Fragment(text: Tokens, values: seq<Value>, taken: set<string>)

  datatype Fragments = Fragments(parts: seq<Tokens>, values: seq<Value>, taken: set<string>)

  // ----- values -----

  /** A value bound as the statement's next, or written where it stands; a column named where it stands. */
  function ValueText(m: Mode, alias: string, x: Operand, n: nat): Piece {
    match x
    case Given(v) =>
      if m.inlined then Piece([Literal(Normalize(m.dialect, v))], [])
      else Piece([Placeholder(n + 1)], [Normalize(m.dialect, v)])
    case Ref(c) => Piece([Column(alias, c)], [])
  }

  function ValueTexts(m: Mode, alias: string, xs: seq<Operand>, n: nat): Pieces {
    if xs == [] then Pieces([], [])
    else
      var first := ValueText(m, alias, xs[0], n);
      var rest := ValueTexts(m, alias, xs[1..], n + |first.values|);
      Pieces([first.text] + rest.parts, first.values + rest.values)
  }

  function Flat(parts: seq<Tokens>): Tokens {
    if parts == [] then [] else parts[0] + Flat(parts[1..])
  }

  function GivenAll(vs: seq<Value>): seq<Operand> {
    seq(|vs|, i requires 0 <= i < |vs| => Given(vs[i]))
  }

  function RawText(m: Mode, alias: string, raw: RawSql, n: nat): Piece {
    var args := ValueTexts(m, alias, GivenAll(raw.args), n);
    Piece([SqlText.Raw(raw.sql, alias, |raw.args|)] + Flat(args.parts), args.values)
  }

  // ----- one operator -----

  predicate AllBooleans(xs: seq<Operand>) {
    xs != [] && forall x :: x in xs ==> x.Given? && x.value.Bool?
  }

  /** Each of `parts` compared with the target. */
  function EachCompared(target: Token, op: CompareOp, parts: seq<Tokens>): seq<Tokens> {
    seq(|parts|, i requires 0 <= i < |parts| => [target, Symbol(op)] + parts[i])
  }

  function InText(m: Mode, alias: string, target: Token, json: bool, xs: seq<Operand>, negate: bool, n: nat): Piece {
    var listed := ValueTexts(m, alias, xs, n);
    if xs == [] then Piece([Literal(Num(1)), Symbol(Eq), Literal(Num(if negate then 1 else 0))], [])
    else if json && AllBooleans(xs) then
      // Booleans compare as JSON values, which an IN takes none of: each comparison is spelled out.
      var each := EachCompared(target, if negate then Ne else Eq, listed.parts);
      Piece(Parens(Join(each, if negate then KwAnd else KwOr)), listed.values)
    else
      Piece([target] + (if negate then [KwNot] else []) + [KwIn] + Parens(Join(listed.parts, Comma)), listed.values)
  }

  function LeafText(m: Mode, alias: string, target: Token, json: bool, op: FieldOp, n: nat): Piece
    requires !op.NotOp?
  {
    match op
    case Comparison(c, x) =>
      if x == Given(Null) && c == Eq then Piece([target, KwIs, KwNull], [])
      else if x == Given(Null) && c == Ne then Piece([target, KwIs, KwNot, KwNull], [])
      else
        var v := ValueText(m, alias, x, n);
        Piece([target, Symbol(c)] + v.text, v.values)
    case Between(min, max) =>
      var lo := ValueText(m, alias, min, n);
      var hi := ValueText(m, alias, max, n + |lo.values|);
      Piece([target, KwBetween] + lo.text + [KwAnd] + hi.text, lo.values + hi.values)
    case In(xs, negate) => InText(m, alias, target, json, xs, negate, n)
    case NullCheck(isNull) => Piece([target, KwIs] + (if isNull then [] else [KwNot]) + [KwNull], [])
    case Like(kind, insensitive, text) =>
      var pattern := WrittenLike(m.dialect, kind, insensitive, text);
      var v := ValueText(m, alias, Given(Str(if pattern.Some? then pattern.value else "")), n);
      var left := if insensitive then [KwLower, LParen, target, RParen] else [target];
      Piece(left + [KwLike] + v.text + [KwEscape, Literal(Str("\\"))], v.values)
    case Regex(text) =>
      var v := ValueText(m, alias, Given(Str(text)), n);
      Piece([target, KwRegexp] + v.text, v.values)
    case Malformed => Piece([], [])
  }

  /**
   * `parts` as one operand: the only one bare, and several chained in parentheses so that no `OR` outside splits them.
   */
  function Conjunction(parts: seq<Tokens>): Tokens {
    if |parts| > 1 then Parens(Chain(parts, KwAnd)) else Flat(parts)
  }

  function OpText(m: Mode, alias: string, target: Token, json: bool, op: FieldOp, n: nat): Piece
    decreases op, 2
  {
    if op.NotOp? then
      var inner := ValText(m, alias, target, json, op.val, n);
      Piece([KwNot] + Parens(inner.text), inner.values)
    else LeafText(m, alias, target, json, op, n)
  }

  function ValText(m: Mode, alias: string, target: Token, json: bool, val: FieldVal, n: nat): Piece
    decreases val, 1
  {
    var ps := ValParts(m, alias, target, json, val, n);
    Piece(Conjunction(ps.parts), ps.values)
  }

  /**
   * What a field is asked, part by part: a list reads as `$in` of it, a lone value as `$eq`, a map as each of its keys.
   */
  function ValParts(m: Mode, alias: string, target: Token, json: bool, val: FieldVal, n: nat): Pieces
    decreases val, 0
  {
    match val
    case One(x) =>
      var p := LeafText(m, alias, target, json, Comparison(Eq, x), n);
      Pieces([p.text], p.values)
    case Many(xs) =>
      var p := LeafText(m, alias, target, json, In(xs, false), n);
      Pieces([p.text], p.values)
    case OpMap(ops) => OpParts(m, alias, target, json, ops, n)
  }

  function OpParts(m: Mode, alias: string, target: Token, json: bool, ops: seq<FieldOp>, n: nat): Pieces
    decreases ops, 0
  {
    if ops == [] then Pieces([], [])
    else
      var first := OpText(m, alias, target, json, ops[0], n);
      var rest := OpParts(m, alias, target, json, ops[1..], n + |first.values|);
      Pieces([first.text] + rest.parts, first.values + rest.values)
  }

  // ----- clauses -----

  /** What a rendered `$where` opens with: `WHERE`, the `AND` after a condition already written, or nothing. */
  datatype Lead = LeadWhere | LeadAnd | Bare

  function LeadText(lead: Lead): Tokens {
    match lead
    case LeadWhere => [KwWhere]
    case LeadAnd => [KwAnd]
    case Bare => []
  }

  /** `part` kept where it emitted any text. */
  function Kept(part: Tokens): seq<Tokens> {
    if part == [] then [] else [part]
  }

  function ReferenceTexts(parent: string, alias: string, references: seq<(string, string)>): seq<Tokens> {
    seq(|references|, i requires 0 <= i < |references| =>
      [Column(alias, references[i].0), Symbol(Eq), Column(parent, references[i].1)])
  }

  /**
   * A group's clauses joined, negated where it is a negation, and parenthesized where its position or the negation
   * asks.
   */
  function Grouped(op: GroupOp, operand: bool, parts: seq<Tokens>): Tokens {
    if parts == [] then []
    else
      var body := Chain(parts, if JoinsWithAnd(op) then KwAnd else KwOr);
      (if Negates(op) then [KwNot] else [])
      + (if |parts| > 1 && (operand || Negates(op)) then Parens(body) else body)
  }

  function ItemOperand(op: GroupOp, items: seq<Item>, operand: bool): bool {
    |items| > 1 || Negates(op) || operand
  }

  function ClauseText(m: Mode, alias: string, operand: bool, c: Clause, n: nat, taken: set<string>): Fragment
    decreases c, 2
  {
    match c
    case Group(op, items) =>
      var ps := ItemParts(m, alias, ItemOperand(op, items, operand), items, n, taken);
      Fragment(Grouped(op, operand, ps.parts), ps.values, ps.taken)
    case Exists(negate, raw) =>
      var sub := RawText(m, alias, raw, n);
      Fragment((if negate then [KwNot] else []) + [KwExists] + Parens(sub.text), sub.values, taken)
    case TextSearch(raw) =>
      var p := RawText(m, alias, raw, n);
      Fragment(p.text, p.values, taken)
    case Field(name, val) =>
      var p := ValText(m, alias, Column(alias, name), false, val, n);
      Fragment(p.text, p.values, taken)
    case Json(name, path, val) =>
      var p := ValText(m, alias, JsonPath(alias, name, path), true, val, n);
      Fragment(p.text, p.values, taken)
    case Related(key, relation, where) =>
      var inner := Claimed(key, Some(alias), taken);
      var w := WhereFragment(m, inner, false, LeadAnd, where, n, taken + {CaseFolded(inner)});
      var on := Join(ReferenceTexts(alias, inner, relation.references), KwAnd);
      Fragment([KwExists] + Parens([SelectOne(relation.table, inner)] + on + w.text), w.values, w.taken)
  }

  function WhereFragment(
    m: Mode, alias: string, operand: bool, lead: Lead, where: Where, n: nat, taken: set<string>): Fragment
    decreases where, 1
  {
    var ps := ClauseParts(m, alias, ClauseOperand(where.clauses, operand, lead), where.clauses, n, taken);
    Fragment(WhereBody(operand, lead, ps.parts), ps.values, ps.taken)
  }

  function ClauseOperand(cs: seq<Clause>, operand: bool, lead: Lead): bool {
    |cs| > 1 || operand || lead == LeadAnd
  }

  function WhereBody(operand: bool, lead: Lead, parts: seq<Tokens>): Tokens {
    if parts == [] then []
    else
      var body := Join(parts, KwAnd);
      LeadText(lead) + if |parts| > 1 && operand then Parens(body) else body
  }

  /** Each clause's text, one that emits none left out. */
  function ClauseParts(m: Mode, alias: string, operand: bool, cs: seq<Clause>, n: nat, taken: set<string>): Fragments
    decreases cs, 0
  {
    if cs == [] then Fragments([], [], taken)
    else
      var first := ClauseText(m, alias, operand, cs[0], n, taken);
      var rest := ClauseParts(m, alias, operand, cs[1..], n + |first.values|, first.taken);
      Fragments(Kept(first.text) + rest.parts, first.values + rest.values, rest.taken)
  }

  function ItemText(m: Mode, alias: string, operand: bool, item: Item, n: nat, taken: set<string>): Fragment
    decreases item, 0
  {
    match item
    case RawItem(raw) =>
      var p := if IsBlank(raw) then Piece([], []) else RawText(m, alias, raw, n);
      Fragment(p.text, p.values, taken)
    case Nested(where) => WhereFragment(m, alias, operand, Bare, where, n, taken)
  }

  function ItemParts(m: Mode, alias: string, operand: bool, items: seq<Item>, n: nat, taken: set<string>): Fragments
    decreases items, 0
  {
    if items == [] then Fragments([], [], taken)
    else
      var first := ItemText(m, alias, operand, items[0], n, taken);
      var rest := ItemParts(m, alias, operand, items[1..], n + |first.values|, first.taken);
      Fragments(Kept(first.text) + rest.parts, first.values + rest.values, rest.taken)
  }
}
