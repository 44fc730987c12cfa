/**
 * The renderer as it runs: it appends to a context, and pushes into the list every fragment of the statement shares.
 */
module WhereWriter {
  import opened Options
  import opened Sequences
  import opened Values
  import opened SqlText
  import opened SqlShapes
  import opened Aliases
  import opened Filters
  import opened LikePatterns
  import opened WhereText
  import opened QueryContexts

  // ----- fields -----

  /** Each value rendered in turn. */
  method AddValues(ctx: SqlQueryContext, alias: string, xs: seq<Operand>) returns (parts: seq<Tokens>)
    modifies ctx.params
    ensures parts == ValueTexts(ctx.TheMode(), alias, xs, |old(ctx.params.values)|).parts
    ensures ctx.params.values
         == old(ctx.params.values) + ValueTexts(ctx.TheMode(), alias, xs, |old(ctx.params.values)|).values
  {
    parts := [];
    ghost var m, before := ctx.TheMode(), ctx.params.values;
    ghost var all := ValueTexts(m, alias, xs, |before|);
    ghost var left := all;
    for i := 0 to |xs|
      invariant left == ValueTexts(m, alias, xs[i..], |ctx.params.values|)
      invariant all.parts == parts + left.parts && before + all.values == ctx.params.values + left.values
    {
      assert xs[i..][0] == xs[i] && xs[i..][1..] == xs[i + 1..];
      ghost var first := ValueText(m, alias, xs[i], |ctx.params.values|);
      ghost var rest := ValueTexts(m, alias, xs[i + 1..], |ctx.params.values| + |first.values|);
      TakesPiece(all, parts, first, rest, before, ctx.params.values);
      var part := ctx.AddValue(alias, xs[i]);
      parts := parts + [part];
      left := rest;
    }
  }

  method RawCondition(ctx: SqlQueryContext, alias: string, raw: RawSql) returns (text: Tokens)
    modifies ctx.params
    ensures text == RawText(ctx.TheMode(), alias, raw, |old(ctx.params.values)|).text
    ensures ctx.params.values
         == old(ctx.params.values) + RawText(ctx.TheMode(), alias, raw, |old(ctx.params.values)|).values
  {
    var args := AddValues(ctx, alias, GivenAll(raw.args));
    text := [SqlText.Raw(raw.sql, alias, |raw.args|)] + Flat(args);
  }

  method FormatIn(ctx: SqlQueryContext, alias: string, target: Token, json: bool, xs: seq<Operand>, negate: bool)
    returns (text: Tokens)
    modifies ctx.params
    ensures var p := InText(ctx.TheMode(), alias, target, json, xs, negate, |old(ctx.params.values)|);
            text == p.text && ctx.params.values == old(ctx.params.values) + p.values
  {
    if xs == [] {
      text := [Literal(Num(1)), Symbol(Eq), Literal(Num(if negate then 1 else 0))];
      return;
    }
    var listed := AddValues(ctx, alias, xs);
    if json && AllBooleans(xs) {
      var each := EachCompared(target, if negate then Ne else Eq, listed);
      text := Parens(Join(each, if negate then KwAnd else KwOr));
    } else {
      text := [target] + (if negate then [KwNot] else []) + [KwIn] + Parens(Join(listed, Comma));
    }
  }

  /** `<operand> <op> <value>`, or not `ok` for an operator refused. */
  method OperatorCondition(ctx: SqlQueryContext, alias: string, target: Token, json: bool, op: FieldOp)
    returns (ok: bool, text: Tokens)
    requires !op.NotOp?
    modifies ctx.params
    ensures ok == !OpRefused(ctx.dialect, op)
    ensures var p := LeafText(ctx.TheMode(), alias, target, json, op, |old(ctx.params.values)|);
            ok ==> text == p.text && ctx.params.values == old(ctx.params.values) + p.values
  {
    ok := true;
    text := [];
    match op
    case Malformed => ok := false;
    case Comparison(c, x) =>
      if x == Given(Null) && c == Eq {
        text := [target, KwIs, KwNull];
      } else if x == Given(Null) && c == Ne {
        text := [target, KwIs, KwNot, KwNull];
      } else {
        var v := ctx.AddValue(alias, x);
        text := [target, Symbol(c)] + v;
      }
    case Between(min, max) =>
      var lo := ctx.AddValue(alias, min);
      var hi := ctx.AddValue(alias, max);
      text := [target, KwBetween] + lo + [KwAnd] + hi;
    case In(xs, negate) => text := FormatIn(ctx, alias, target, json, xs, negate);
    case NullCheck(isNull) => text := [target, KwIs] + (if isNull then [] else [KwNot]) + [KwNull];
    case Like(kind, insensitive, asked) =>
      var pattern := WrittenLike(ctx.dialect, kind, insensitive, asked);
      if pattern.None? {
        ok := false;
        return;
      }
      var v := ctx.AddValue(alias, Given(Str(pattern.value)));
      var left := if insensitive then [KwLower, LParen, target, RParen] else [target];
      text := left + [KwLike] + v + [KwEscape, Literal(Str("\\"))];
    case Regex(asked) =>
      var v := ctx.AddValue(alias, Given(Str(asked)));
      text := [target, KwRegexp] + v;
  }

  method FieldCondition(ctx: SqlQueryContext, alias: string, target: Token, json: bool, op: FieldOp)
    returns (ok: bool, text: Tokens)
    modifies ctx.params
    ensures ok == !OpRefused(ctx.dialect, op)
    ensures var p := OpText(ctx.TheMode(), alias, target, json, op, |old(ctx.params.values)|);
            ok ==> text == p.text && ctx.params.values == old(ctx.params.values) + p.values
    decreases op, 2
  {
    if op.NotOp? {
      var inner;
      ok, inner := ValCondition(ctx, alias, target, json, op.val);
      text := [KwNot] + Parens(inner);
    } else {
      ok, text := OperatorCondition(ctx, alias, target, json, op);
    }
  }

  /** All that a field is asked, written as one operand. */
  method ValCondition(ctx: SqlQueryContext, alias: string, target: Token, json: bool, val: FieldVal)
    returns (ok: bool, text: Tokens)
    modifies ctx.params
    ensures ok == !ValRefused(ctx.dialect, val)
    ensures var p := ValText(ctx.TheMode(), alias, target, json, val, |old(ctx.params.values)|);
            ok ==> text == p.text && ctx.params.values == old(ctx.params.values) + p.values
    decreases val, 1
  {
    var parts: seq<Tokens>;
    match val {
      case One(x) =>
        var t;
        ok, t := OperatorCondition(ctx, alias, target, json, Comparison(Eq, x));
        parts := [t];
      case Many(xs) =>
        var t;
        ok, t := OperatorCondition(ctx, alias, target, json, In(xs, false));
        parts := [t];
      case OpMap(ops) =>
        ok, parts := FieldConditions(ctx, alias, target, json, ops);
    }
    text := Conjunction(parts);
  }

  method FieldConditions(ctx: SqlQueryContext, alias: string, target: Token, json: bool, ops: seq<FieldOp>)
    returns (ok: bool, parts: seq<Tokens>)
    modifies ctx.params
    ensures ok == !OpsRefused(ctx.dialect, ops)
    ensures var ps := OpParts(ctx.TheMode(), alias, target, json, ops, |old(ctx.params.values)|);
            ok ==> parts == ps.parts && ctx.params.values == old(ctx.params.values) + ps.values
    decreases ops, 0
  {
    hide OpText, OpRefused;
    ok := true;
    parts := [];
    ghost var m, before := ctx.TheMode(), ctx.params.values;
    ghost var all := OpParts(m, alias, target, json, ops, |before|);
    ghost var left := all;
    for i := 0 to |ops|
      invariant ok && OpsRefused(ctx.dialect, ops) == OpsRefused(ctx.dialect, ops[i..])
      invariant left == OpParts(m, alias, target, json, ops[i..], |ctx.params.values|)
      invariant IsWritten(all, parts, before, ctx.params.values, left)
    {
      FieldConditionsUnfold(m, alias, target, json, ops, i, |ctx.params.values|);
      ghost var first := OpText(m, alias, target, json, ops[i], |ctx.params.values|);
      ghost var rest := OpParts(m, alias, target, json, ops[i + 1..], |ctx.params.values| + |first.values|);
      TakesPiece(all, parts, first, rest, before, ctx.params.values);
      var part;
      ok, part := FieldCondition(ctx, alias, target, json, ops[i]);
      if !ok {
        return;
      }
      parts := parts + [part];
      left := rest;
    }
  }

  lemma FieldConditionsUnfold(
    m: Mode, alias: string, target: Token, json: bool, ops: seq<FieldOp>, i: nat, n: nat)
    requires i < |ops|
    ensures var first := OpText(m, alias, target, json, ops[i], n);
            var rest := OpParts(m, alias, target, json, ops[i + 1..], n + |first.values|);
            OpParts(m, alias, target, json, ops[i..], n)
              == Pieces([first.text] + rest.parts, first.values + rest.values)
    ensures OpsRefused(m.dialect, ops[i..]) <==> OpRefused(m.dialect, ops[i]) || OpsRefused(m.dialect, ops[i + 1..])
  {
    assert ops[i..][0] == ops[i] && ops[i..][1..] == ops[i + 1..];
  }

  /** What is written and bound of the pieces so far, and what is left of them. */
  ghost predicate IsWritten(all: Pieces, done: seq<Tokens>, before: seq<Value>, now: seq<Value>, left: Pieces) {
    all.parts == done + left.parts && before + all.values == now + left.values
  }

  lemma TakesPiece(
    all: Pieces, done: seq<Tokens>, first: Piece, rest: Pieces, before: seq<Value>, now: seq<Value>)
    requires IsWritten(all, done, before, now, Pieces([first.text] + rest.parts, first.values + rest.values))
    ensures IsWritten(all, done + [first.text], before, now + first.values, rest)
  {
    Regroup(done, [first.text], rest.parts);
    Regroup(now, first.values, rest.values);
  }

  // ----- clauses -----

  /** What is written, bound and claimed of the fragments so far, and what is left of them. */
  ghost predicate IsTaken(all: Fragments, done: seq<Tokens>, before: seq<Value>, now: seq<Value>, left: Fragments) {
    all.parts == done + left.parts && before + all.values == now + left.values && all.taken == left.taken
  }

  lemma AllTaken(all: Fragments, done: seq<Tokens>, left: Fragments, before: seq<Value>, now: seq<Value>)
    requires left.parts == [] && left.values == [] && IsTaken(all, done, before, now, left)
    ensures all.parts == done && before + all.values == now && all.taken == left.taken
  {
  }

  lemma TakesFirst(
    all: Fragments, done: seq<Tokens>, first: Fragment, rest: Fragments, before: seq<Value>, now: seq<Value>)
    requires IsTaken(all, done, before, now,
                     Fragments(Kept(first.text) + rest.parts, first.values + rest.values, rest.taken))
    ensures IsTaken(all, done + Kept(first.text), before, now + first.values, rest)
  {
    Regroup(done, Kept(first.text), rest.parts);
    Regroup(now, first.values, rest.values);
  }

  /** One key of a `$where`, appended; not `ok` where it is refused. */
  method Compare(ctx: SqlQueryContext, alias: string, operand: bool, c: Clause) returns (ok: bool)
    requires ctx.Valid()
    modifies ctx`sqlChunks, ctx.params, ctx.Root()`tableAliases
    ensures ok == !ClauseRefused(ctx.dialect, c)
    ensures var f := ClauseText(ctx.TheMode(), alias, operand, c, |old(ctx.params.values)|,
                                old(ctx.Root().tableAliases));
            ok ==>
              && ctx.Sql() == old(ctx.Sql()) + f.text
              && ctx.params.values == old(ctx.params.values) + f.values
              && ctx.Root().tableAliases == f.taken
    decreases c, 2
  {
    ok := true;
    match c
    case Exists(negate, raw) =>
      var sub := RawCondition(ctx, alias, raw);
      ctx.Append((if negate then [KwNot] else []) + [KwExists] + Parens(sub));
    case TextSearch(raw) =>
      var text := RawCondition(ctx, alias, raw);
      ctx.Append(text);
    case Group(op, items) =>
      ok := CompareLogicalOperator(ctx, alias, operand, op, items);
    case Field(name, val) =>
      var text;
      ok, text := ValCondition(ctx, alias, Column(alias, name), false, val);
      if ok {
        ctx.Append(text);
      }
    case Json(name, path, val) =>
      var text;
      ok, text := ValCondition(ctx, alias, JsonPath(alias, name, path), true, val);
      if ok {
        ctx.Append(text);
      }
    case Related(key, relation, where) =>
      ok := CompareRelation(ctx, alias, operand, key, relation, where);
  }

  /** A relation's filter: an `EXISTS` of its rows, read through an alias no table of the statement has. */
  method CompareRelation(
    ctx: SqlQueryContext, alias: string, operand: bool, key: string, relation: Relation,
    where: Where) returns (ok: bool)
    requires ctx.Valid()
    modifies ctx`sqlChunks, ctx.params, ctx.Root()`tableAliases
    ensures ok == !ClausesRefused(ctx.dialect, where.clauses)
    ensures var f := ClauseText(ctx.TheMode(), alias, operand, Related(key, relation, where),
                                |old(ctx.params.values)|, old(ctx.Root().tableAliases));
            ok ==>
              && ctx.Sql() == old(ctx.Sql()) + f.text
              && ctx.params.values == old(ctx.params.values) + f.values
              && ctx.Root().tableAliases == f.taken
    decreases where, 3
  {
    RelatedUnfold(ctx.TheMode(), alias, operand, key, relation, where, |ctx.params.values|, ctx.Root().tableAliases);
    var inner := ctx.ClaimAlias(key, Some(alias));
    var sub := ctx.CreateFragment();
    ok := RenderWhere(sub, inner, false, LeadAnd, where);
    if ok {
      var on := Join(ReferenceTexts(alias, inner, relation.references), KwAnd);
      ctx.Append([KwExists] + Parens([SelectOne(relation.table, inner)] + on + sub.Sql()));
    }
  }

  lemma RelatedUnfold(
    m: Mode, alias: string, operand: bool, key: string, relation: Relation, where: Where, n: nat, taken: set<string>)
    ensures var inner := Claimed(key, Some(alias), taken);
            var w := WhereFragment(m, inner, false, LeadAnd, where, n, taken + {CaseFolded(inner)});
            var on := Join(ReferenceTexts(alias, inner, relation.references), KwAnd);
            ClauseText(m, alias, operand, Related(key, relation, where), n, taken)
              == Fragment([KwExists] + Parens([SelectOne(relation.table, inner)] + on + ([] + w.text)), w.values,
                          w.taken)
  {
    var inner := Claimed(key, Some(alias), taken);
    NothingBefore(WhereFragment(m, inner, false, LeadAnd, where, n, taken + {CaseFolded(inner)}).text);
  }

  method CompareLogicalOperator(ctx: SqlQueryContext, alias: string, operand: bool, op: GroupOp, items: seq<Item>)
    returns (ok: bool)
    requires ctx.Valid()
    modifies ctx`sqlChunks, ctx.params, ctx.Root()`tableAliases
    ensures ok == !ItemsRefused(ctx.dialect, items)
    ensures var ps := ItemParts(ctx.TheMode(), alias, ItemOperand(op, items, operand), items,
                                |old(ctx.params.values)|, old(ctx.Root().tableAliases));
            ok ==>
              && ctx.Sql() == old(ctx.Sql()) + Grouped(op, operand, ps.parts)
              && ctx.params.values == old(ctx.params.values) + ps.values
              && ctx.Root().tableAliases == ps.taken
    decreases items, 1
  {
    var parts;
    ok, parts := ItemOperands(ctx, alias, ItemOperand(op, items, operand), items);
    if !ok || parts == [] {
      assert ctx.Sql() == ctx.Sql() + [];
      return;
    }
    var body := Chain(parts, if JoinsWithAnd(op) then KwAnd else KwOr);
    var parenthesize := |parts| > 1 && (operand || Negates(op));
    ctx.Append((if Negates(op) then [KwNot] else []) + (if parenthesize then Parens(body) else body));
  }

  /** The operands of a group, one fragment for each item, without those that came out empty. */
  method ItemOperands(ctx: SqlQueryContext, alias: string, operand: bool, items: seq<Item>)
    returns (ok: bool, parts: seq<Tokens>)
    requires ctx.Valid()
    modifies ctx.params, ctx.Root()`tableAliases
    ensures ok == !ItemsRefused(ctx.dialect, items)
    ensures var ps := ItemParts(ctx.TheMode(), alias, operand, items, |old(ctx.params.values)|,
                                old(ctx.Root().tableAliases));
            ok ==>
              && parts == ps.parts
              && ctx.params.values == old(ctx.params.values) + ps.values
              && ctx.Root().tableAliases == ps.taken
    decreases items, 0
  {
    hide ItemText, ItemRefused;
    ok := true;
    parts := [];
    ghost var m, before := ctx.TheMode(), ctx.params.values;
    ghost var all := ItemParts(m, alias, operand, items, |before|, ctx.Root().tableAliases);
    ghost var left := all;
    assert items[0..] == items && before + all.values == before + left.values;
    NothingBefore(all.parts);
    for i := 0 to |items|
      invariant ok && ItemsRefused(ctx.dialect, items) == ItemsRefused(ctx.dialect, items[i..])
      invariant left == ItemParts(m, alias, operand, items[i..], |ctx.params.values|, ctx.Root().tableAliases)
      invariant IsTaken(all, parts, before, ctx.params.values, left)
    {
      ItemOperandsUnfold(m, alias, operand, items, i, |ctx.params.values|, ctx.Root().tableAliases);
      ghost var first := ItemText(m, alias, operand, items[i], |ctx.params.values|, ctx.Root().tableAliases);
      ghost var rest := ItemParts(m, alias, operand, items[i + 1..], |ctx.params.values| + |first.values|, first.taken);
      TakesFirst(all, parts, first, rest, before, ctx.params.values);
      var fragment := ctx.CreateFragment();
      ok := RenderItem(fragment, alias, operand, items[i]);
      if !ok {
        return;
      }
      NothingBefore(first.text);
      parts := parts + Kept(fragment.Sql());
      left := rest;
    }
    AllTaken(all, parts, left, before, ctx.params.values);
  }

  lemma ItemOperandsUnfold(
    m: Mode, alias: string, operand: bool, items: seq<Item>, i: nat, n: nat, taken: set<string>)
    requires i < |items|
    ensures var first := ItemText(m, alias, operand, items[i], n, taken);
            var rest := ItemParts(m, alias, operand, items[i + 1..], n + |first.values|, first.taken);
            ItemParts(m, alias, operand, items[i..], n, taken)
              == Fragments(Kept(first.text) + rest.parts, first.values + rest.values, rest.taken)
    ensures ItemsRefused(m.dialect, items[i..]) <==>
            ItemRefused(m.dialect, items[i]) || ItemsRefused(m.dialect, items[i + 1..])
  {
    assert items[i..][0] == items[i] && items[i..][1..] == items[i + 1..];
  }

  method RenderItem(ctx: SqlQueryContext, alias: string, operand: bool, item: Item) returns (ok: bool)
    requires ctx.Valid()
    modifies ctx`sqlChunks, ctx.params, ctx.Root()`tableAliases
    ensures ok == !ItemRefused(ctx.dialect, item)
    ensures var f := ItemText(ctx.TheMode(), alias, operand, item, |old(ctx.params.values)|,
                              old(ctx.Root().tableAliases));
            ok ==>
              && ctx.Sql() == old(ctx.Sql()) + f.text
              && ctx.params.values == old(ctx.params.values) + f.values
              && ctx.Root().tableAliases == f.taken
    decreases item, 0
  {
    ok := true;
    match item
    case RawItem(raw) =>
      if !IsBlank(raw) {
        var text := RawCondition(ctx, alias, raw);
        ctx.Append(text);
      }
    case Nested(where) =>
      ok := RenderWhere(ctx, alias, operand, Bare, where);
  }

  /** A `$where` tree, appended after its lead, or nothing where no clause of it emits any text. */
  method RenderWhere(ctx: SqlQueryContext, alias: string, operand: bool, lead: Lead, where: Where) returns (ok: bool)
    requires ctx.Valid()
    modifies ctx`sqlChunks, ctx.params, ctx.Root()`tableAliases
    ensures ok == !ClausesRefused(ctx.dialect, where.clauses)
    ensures var f := WhereFragment(ctx.TheMode(), alias, operand, lead, where,
                                   |old(ctx.params.values)|, old(ctx.Root().tableAliases));
            ok ==>
              && ctx.Sql() == old(ctx.Sql()) + f.text
              && ctx.params.values == old(ctx.params.values) + f.values
              && ctx.Root().tableAliases == f.taken
    decreases where, 1
  {
    var parts;
    ok, parts := ClauseOperands(ctx, alias, ClauseOperand(where.clauses, operand, lead), where.clauses);
    if !ok || parts == [] {
      assert ctx.Sql() == ctx.Sql() + [];
      return;
    }
    var body := Join(parts, KwAnd);
    ctx.Append(LeadText(lead) + if |parts| > 1 && operand then Parens(body) else body);
  }

  /** One key of a `$where`, rendered in a fragment of the statement. */
  method RenderClause(ctx: SqlQueryContext, alias: string, operand: bool, c: Clause) returns (ok: bool, text: Tokens)
    requires ctx.Valid()
    modifies ctx.params, ctx.Root()`tableAliases
    ensures ok == !ClauseRefused(ctx.dialect, c)
    ensures var f := ClauseText(ctx.TheMode(), alias, operand, c, |old(ctx.params.values)|,
                                old(ctx.Root().tableAliases));
            ok ==>
              && text == f.text
              && ctx.params.values == old(ctx.params.values) + f.values
              && ctx.Root().tableAliases == f.taken
    decreases c, 3
  {
    ghost var f := ClauseText(ctx.TheMode(), alias, operand, c, |ctx.params.values|, ctx.Root().tableAliases);
    var fragment := ctx.CreateFragment();
    ok := Compare(fragment, alias, operand, c);
    NothingBefore(f.text);
    text := fragment.Sql();
  }

  /** The operands of a `$where`, one fragment for each key, without those that came out empty. */
  method ClauseOperands(ctx: SqlQueryContext, alias: string, operand: bool, clauses: seq<Clause>)
    returns (ok: bool, parts: seq<Tokens>)
    requires ctx.Valid()
    modifies ctx.params, ctx.Root()`tableAliases
    ensures ok == !ClausesRefused(ctx.dialect, clauses)
    ensures var ps := ClauseParts(ctx.TheMode(), alias, operand, clauses, |old(ctx.params.values)|,
                                  old(ctx.Root().tableAliases));
            ok ==>
              && parts == ps.parts
              && ctx.params.values == old(ctx.params.values) + ps.values
              && ctx.Root().tableAliases == ps.taken
    decreases clauses, 0
  {
    hide ClauseText, ClauseRefused;
    ok := true;
    parts := [];
    ghost var m, before := ctx.TheMode(), ctx.params.values;
    ghost var all := ClauseParts(m, alias, operand, clauses, |before|, ctx.Root().tableAliases);
    ghost var left := all;
    assert clauses[0..] == clauses && before + all.values == before + left.values;
    NothingBefore(all.parts);
    for i := 0 to |clauses|
      invariant ok && ClausesRefused(ctx.dialect, clauses) == ClausesRefused(ctx.dialect, clauses[i..])
      invariant left == ClauseParts(m, alias, operand, clauses[i..], |ctx.params.values|, ctx.Root().tableAliases)
      invariant IsTaken(all, parts, before, ctx.params.values, left)
    {
      ClauseOperandsUnfold(m, alias, operand, clauses, i, |ctx.params.values|, ctx.Root().tableAliases);
      ghost var first := ClauseText(m, alias, operand, clauses[i], |ctx.params.values|, ctx.Root().tableAliases);
      ghost var rest := ClauseParts(m, alias, operand, clauses[i + 1..], |ctx.params.values| + |first.values|,
                                    first.taken);
      TakesFirst(all, parts, first, rest, before, ctx.params.values);
      ghost var n := |ctx.params.values|;
      var part;
      ok, part := RenderClause(ctx, alias, operand, clauses[i]);
      if !ok {
        return;
      }
      assert part == first.text && |ctx.params.values| == n + |first.values|;
      parts := parts + Kept(part);
      left := rest;
    }
    AllTaken(all, parts, left, before, ctx.params.values);
  }

  lemma ClauseOperandsUnfold(
    m: Mode, alias: string, operand: bool, clauses: seq<Clause>, i: nat, n: nat, taken: set<string>)
    requires i < |clauses|
    ensures var first := ClauseText(m, alias, operand, clauses[i], n, taken);
            var rest := ClauseParts(m, alias, operand, clauses[i + 1..], n + |first.values|, first.taken);
            ClauseParts(m, alias, operand, clauses[i..], n, taken)
              == Fragments(Kept(first.text) + rest.parts, first.values + rest.values, rest.taken)
    ensures ClausesRefused(m.dialect, clauses[i..])
            <==> ClauseRefused(m.dialect, clauses[i]) || ClausesRefused(m.dialect, clauses[i + 1..])
  {
    assert clauses[i..][0] == clauses[i] && clauses[i..][1..] == clauses[i + 1..];
  }
}
