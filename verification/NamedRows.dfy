/** Which `$where`s `namesRows` says name rows, against which render any text. */
module NamedRows {
  import opened Values
  import opened SqlText
  import opened Filters
  import opened WhereText
  import opened LikePatterns
  import SqlShapes

  /** What a tree holds at its leaves: a condition, SQL with no text, or a relation narrowed by nothing. */
  datatype Leaf = Predicate | BlankSql | BareRelation

  function Leaves(cs: seq<Clause>): set<Leaf>
    decreases cs, 0
  {
    if cs == [] then {} else ClauseLeaves(cs[0]) + Leaves(cs[1..])
  }

  function ClauseLeaves(c: Clause): set<Leaf>
    decreases c, 1
  {
    match c
    case Group(_, items) => ItemsLeaves(items)
    case Field(_, val) => if val == OpMap([]) then {} else {Predicate}
    case Json(_, _, val) => if val == OpMap([]) then {} else {Predicate}
    case Related(_, _, where) => if where.clauses == [] then {BareRelation} else {Predicate}
    case _ => {Predicate}
  }

  function ItemsLeaves(items: seq<Item>): set<Leaf>
    decreases items, 0
  {
    if items == [] then {} else ItemLeaves(items[0]) + ItemsLeaves(items[1..])
  }

  function ItemLeaves(item: Item): set<Leaf>
    decreases item, 0
  {
    match item
    case RawItem(raw) => if IsBlank(raw) then {BlankSql} else {Predicate}
    case Nested(where) => Leaves(where.clauses)
  }

  lemma {:induction false} NamesByLeaf(cs: seq<Clause>)
    ensures NamesRows(cs) <==> Predicate in Leaves(cs) || BlankSql in Leaves(cs)
    decreases cs, 0
  {
    if cs != [] {
      match cs[0] {
        case Group(_, items) => ItemsNameByLeaf(items);
        case _ =>
      }
      NamesByLeaf(cs[1..]);
    }
  }

  lemma {:induction false} ItemsNameByLeaf(items: seq<Item>)
    ensures ItemsName(items) <==> Predicate in ItemsLeaves(items) || BlankSql in ItemsLeaves(items)
    decreases items, 0
  {
    if items != [] {
      ItemNamesByLeaf(items[0]);
      ItemsNameByLeaf(items[1..]);
    }
  }

  lemma {:induction false} ItemNamesByLeaf(item: Item)
    ensures ItemNames(item) <==> Predicate in ItemLeaves(item) || BlankSql in ItemLeaves(item)
    decreases item, 0
  {
    if item.Nested? {
      NamesByLeaf(item.where.clauses);
    }
  }

  predicate Emitting(leaves: set<Leaf>) {
    Predicate in leaves || BareRelation in leaves
  }

  lemma OpEmits(m: Mode, alias: string, target: Token, json: bool, op: FieldOp, n: nat)
    requires !OpRefused(m.dialect, op)
    ensures OpText(m, alias, target, json, op, n).text != []
  {
    if !op.NotOp? {
      match op
      case Comparison(c, x) =>
      case Between(min, max) =>
      case In(xs, negate) =>
      case NullCheck(isNull) =>
      case Like(kind, insensitive, text) =>
      case Regex(text) =>
    }
  }

  lemma {:induction false} ValEmits(m: Mode, alias: string, target: Token, json: bool, val: FieldVal, n: nat)
    requires !ValRefused(m.dialect, val)
    ensures ValText(m, alias, target, json, val, n).text != [] <==> val != OpMap([])
  {
    if val.OpMap? && val.ops != [] {
      var ops := val.ops;
      var first := OpText(m, alias, target, json, ops[0], n);
      OpEmits(m, alias, target, json, ops[0], n);
      var rest := OpParts(m, alias, target, json, ops[1..], n + |first.values|);
      assert ValParts(m, alias, target, json, val, n).parts == [first.text] + rest.parts;
    }
  }

  lemma {:induction false} ChainEmits(parts: seq<Tokens>, op: Token)
    requires parts != [] && parts[0] != []
    ensures SqlShapes.Chain(parts, op) != []
  {
  }

  lemma EmitsThen(first: Fragment, rest: Fragments, all: Fragments, a: set<Leaf>, b: set<Leaf>)
    requires all == Fragments(Kept(first.text) + rest.parts, first.values + rest.values, rest.taken)
    requires first.text != [] <==> Emitting(a)
    requires rest.parts != [] <==> Emitting(b)
    requires forall p :: p in rest.parts ==> p != []
    ensures all.parts != [] <==> Emitting(a + b)
    ensures forall p :: p in all.parts ==> p != []
  {
  }

  lemma {:induction false} ClauseEmits(
    m: Mode, alias: string, operand: bool, c: Clause, n: nat, taken: set<string>)
    requires !ClauseRefused(m.dialect, c)
    ensures ClauseText(m, alias, operand, c, n, taken).text != [] <==> Emitting(ClauseLeaves(c))
    decreases c, 2
  {
    match c
    case Group(op, items) =>
      var child := ItemOperand(op, items, operand);
      var ps := ItemParts(m, alias, child, items, n, taken);
      ItemsEmit(m, alias, child, items, n, taken);
      if ps.parts != [] {
        assert ps.parts[0] in ps.parts;
        ChainEmits(ps.parts, if JoinsWithAnd(op) then KwAnd else KwOr);
      }
    case Field(name, val) => ValEmits(m, alias, Column(alias, name), false, val, n);
    case Json(name, path, val) => ValEmits(m, alias, JsonPath(alias, name, path), true, val, n);
    case _ =>
  }

  lemma {:induction false} ClausesEmit(
    m: Mode, alias: string, operand: bool, cs: seq<Clause>, n: nat, taken: set<string>)
    requires !ClausesRefused(m.dialect, cs)
    ensures ClauseParts(m, alias, operand, cs, n, taken).parts != [] <==> Emitting(Leaves(cs))
    ensures forall p :: p in ClauseParts(m, alias, operand, cs, n, taken).parts ==> p != []
    decreases cs, 0
  {
    hide ClauseText, ClauseLeaves;
    if cs != [] {
      var first := ClauseText(m, alias, operand, cs[0], n, taken);
      ClauseEmits(m, alias, operand, cs[0], n, taken);
      var rest := ClauseParts(m, alias, operand, cs[1..], n + |first.values|, first.taken);
      ClausesEmit(m, alias, operand, cs[1..], n + |first.values|, first.taken);
      EmitsThen(first, rest, ClauseParts(m, alias, operand, cs, n, taken), ClauseLeaves(cs[0]), Leaves(cs[1..]));
    }
  }

  lemma {:induction false} ItemsEmit(
    m: Mode, alias: string, operand: bool, items: seq<Item>, n: nat, taken: set<string>)
    requires !ItemsRefused(m.dialect, items)
    ensures ItemParts(m, alias, operand, items, n, taken).parts != [] <==> Emitting(ItemsLeaves(items))
    ensures forall p :: p in ItemParts(m, alias, operand, items, n, taken).parts ==> p != []
    decreases items, 0
  {
    hide ItemText, ItemLeaves;
    if items != [] {
      var first := ItemText(m, alias, operand, items[0], n, taken);
      ItemEmits(m, alias, operand, items[0], n, taken);
      var rest := ItemParts(m, alias, operand, items[1..], n + |first.values|, first.taken);
      ItemsEmit(m, alias, operand, items[1..], n + |first.values|, first.taken);
      EmitsThen(first, rest, ItemParts(m, alias, operand, items, n, taken), ItemLeaves(items[0]),
                ItemsLeaves(items[1..]));
    }
  }

  lemma {:induction false} ItemEmits(
    m: Mode, alias: string, operand: bool, item: Item, n: nat, taken: set<string>)
    requires !ItemRefused(m.dialect, item)
    ensures ItemText(m, alias, operand, item, n, taken).text != [] <==> Emitting(ItemLeaves(item))
    decreases item, 0
  {
    if item.Nested? {
      WhereEmits(m, alias, operand, Bare, item.where, n, taken);
    }
  }

  /** A `$where` renders text just where it holds a condition, or a relation narrowed by nothing. */
  lemma {:induction false} WhereEmits(
    m: Mode, alias: string, operand: bool, lead: Lead, where: Where, n: nat, taken: set<string>)
    requires !ClausesRefused(m.dialect, where.clauses)
    ensures WhereFragment(m, alias, operand, lead, where, n, taken).text != [] <==> Emitting(Leaves(where.clauses))
    decreases where, 1
  {
    var child := ClauseOperand(where.clauses, operand, lead);
    ClausesEmit(m, alias, child, where.clauses, n, taken);
    var parts := ClauseParts(m, alias, child, where.clauses, n, taken).parts;
    if parts != [] {
      assert parts[0] in parts;
      assert Join(parts, KwAnd) != [];
    }
  }

  /**
   * `namesRows` agrees with the text exactly where the tree holds a condition, or SQL with no text and a relation
   * narrowed by nothing together, or neither: SQL with no text it counts and the text does not, and a relation
   * narrowed by nothing the text counts, an `EXISTS`, and it does not.
   */
  lemma NamesRowsExactlyWhere(
    m: Mode, alias: string, operand: bool, lead: Lead, where: Where, n: nat, taken: set<string>)
    requires !ClausesRefused(m.dialect, where.clauses)
    ensures var leaves := Leaves(where.clauses);
            (NamesRows(where.clauses) <==> WhereFragment(m, alias, operand, lead, where, n, taken).text != [])
            <==> (Predicate in leaves || (BlankSql in leaves <==> BareRelation in leaves))
  {
    NamesByLeaf(where.clauses);
    WhereEmits(m, alias, operand, lead, where, n, taken);
  }

  /** A relation filter of `{}` counts as naming nothing, and is still written, as an `EXISTS`. */
  lemma BareRelationNamesNone(m: Mode, alias: string, key: string, relation: Relation, n: nat, taken: set<string>)
    ensures var where := Where([Related(key, relation, Where([]))]);
            !NamesRows(where.clauses) && WhereFragment(m, alias, false, LeadWhere, where, n, taken).text != []
  {
    var where := Where([Related(key, relation, Where([]))]);
    assert where.clauses[1..] == [];
    assert Leaves(where.clauses) == {BareRelation};
    NamesByLeaf(where.clauses);
    assert !ClauseRefused(m.dialect, where.clauses[0]);
    WhereEmits(m, alias, false, LeadWhere, where, n, taken);
  }
}
