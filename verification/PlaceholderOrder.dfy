/** The placeholders of a rendered `$where`, in the order of its text, are those of the values it bound. */
module PlaceholderOrder {
  import opened Options
  import opened Values
  import opened SqlText
  import opened SqlShapes
  import opened Aliases
  import opened Filters
  import opened WhereText
  import opened LikePatterns
  import opened Sequences

  /** The number of each placeholder, left to right. */
  function Indices(t: Tokens): seq<nat> {
    if t == [] then [] else (if t[0].Placeholder? then [t[0].index] else []) + Indices(t[1..])
  }

  function IndicesOf(parts: seq<Tokens>): seq<nat> {
    if parts == [] then [] else Indices(parts[0]) + IndicesOf(parts[1..])
  }

  /** The numbers after `n`, `k` of them. */
  function After(n: nat, k: nat): seq<nat> {
    seq(k, i requires 0 <= i < k => n + 1 + i)
  }

  lemma {:induction false} IndicesAppend(a: Tokens, b: Tokens)
    ensures Indices(a + b) == Indices(a) + Indices(b)
  {
    if a == [] {
      NothingBefore(b);
      NothingBefore(Indices(b));
    } else {
      IndicesAppend(a[1..], b);
      HeadAndTail(a, b);
      Regroup(if a[0].Placeholder? then [a[0].index] else [], Indices(a[1..]), Indices(b));
    }
  }

  lemma {:induction false} IndicesOfAppend(a: seq<Tokens>, b: seq<Tokens>)
    ensures IndicesOf(a + b) == IndicesOf(a) + IndicesOf(b)
  {
    if a == [] {
      NothingBefore(b);
      NothingBefore(IndicesOf(b));
    } else {
      IndicesOfAppend(a[1..], b);
      HeadAndTail(a, b);
      Regroup(Indices(a[0]), IndicesOf(a[1..]), IndicesOf(b));
    }
  }

  lemma {:induction false} NoIndices(t: Tokens)
    requires forall k :: k in t ==> !k.Placeholder?
    ensures Indices(t) == []
  {
    if t != [] {
      assert t[0] in t;
      NoIndices(t[1..]);
    }
  }

  /** Text around `t` that binds nothing changes no placeholder. */
  lemma Around(a: Tokens, t: Tokens, b: Tokens)
    requires (forall k :: k in a ==> !k.Placeholder?) && (forall k :: k in b ==> !k.Placeholder?)
    ensures Indices(a + t + b) == Indices(t)
    ensures Indices(a + t) == Indices(t)
  {
    NoIndices(a);
    NoIndices(b);
    IndicesAppend(a, t);
    IndicesAppend(a + t, b);
  }

  lemma ParensKeep(t: Tokens)
    ensures Indices(Parens(t)) == Indices(t)
  {
    Around([LParen], t, [RParen]);
  }

  lemma {:induction false} JoinKeeps(parts: seq<Tokens>, op: Token)
    requires !op.Placeholder?
    ensures Indices(Join(parts, op)) == IndicesOf(parts)
    decreases |parts|
  {
    if |parts| > 1 {
      JoinKeeps(parts[1..], op);
      IndicesAppend(parts[0] + [op], Join(parts[1..], op));
      IndicesAppend(parts[0], [op]);
      NoIndices([op]);
    } else if |parts| == 1 {
      assert IndicesOf(parts[1..]) == [];
    }
  }

  lemma {:induction false} FlatKeeps(parts: seq<Tokens>)
    ensures Indices(Flat(parts)) == IndicesOf(parts)
  {
    if parts != [] {
      FlatKeeps(parts[1..]);
      IndicesAppend(parts[0], Flat(parts[1..]));
    }
  }

  lemma {:induction false} ChainKeeps(parts: seq<Tokens>, op: Token)
    requires !op.Placeholder?
    ensures Indices(Chain(parts, op)) == IndicesOf(parts)
    decreases |parts|
  {
    if |parts| <= CHAIN_WIDTH {
      JoinKeeps(parts, op);
    } else {
      var half := (|parts| + 1) / 2;
      ChainKeeps(parts[..half], op);
      ChainKeeps(parts[half..], op);
      HalvesKeep(Chain(parts[..half], op), op, Chain(parts[half..], op));
      IndicesOfAppend(parts[..half], parts[half..]);
      assert parts == parts[..half] + parts[half..];
    }
  }

  lemma HalvesKeep(l: Tokens, op: Token, r: Tokens)
    requires !op.Placeholder?
    ensures Indices(Parens(l) + [op] + Parens(r)) == Indices(l) + Indices(r)
  {
    ParensKeep(l);
    ParensKeep(r);
    BothKeep(Parens(l), op, Parens(r));
  }

  lemma BothKeep(a: Tokens, op: Token, b: Tokens)
    requires !op.Placeholder?
    ensures Indices(a + [op] + b) == Indices(a) + Indices(b)
  {
    IndicesAppend(a + [op], b);
    IndicesAppend(a, [op]);
    NoIndices([op]);
    NothingAfter(Indices(a));
  }

  lemma AfterAppends(n: nat, j: nat, k: nat)
    ensures After(n, j + k) == After(n, j) + After(n + j, k)
  {
  }

  // ----- fields -----

  lemma PieceThen(first: Piece, rest: Pieces, all: Pieces, n: nat)
    requires all == Pieces([first.text] + rest.parts, first.values + rest.values)
    requires Indices(first.text) == After(n, |first.values|)
    requires IndicesOf(rest.parts) == After(n + |first.values|, |rest.values|)
    ensures IndicesOf(all.parts) == After(n, |all.values|)
  {
    AfterAppends(n, |first.values|, |rest.values|);
    assert all.parts[1..] == rest.parts;
  }

  lemma ValueOrdered(m: Mode, alias: string, x: Operand, n: nat)
    ensures Indices(ValueText(m, alias, x, n).text) == After(n, |ValueText(m, alias, x, n).values|)
  {
  }

  lemma {:induction false} ValuesOrdered(m: Mode, alias: string, xs: seq<Operand>, n: nat)
    ensures IndicesOf(ValueTexts(m, alias, xs, n).parts) == After(n, |ValueTexts(m, alias, xs, n).values|)
    decreases |xs|
  {
    if xs != [] {
      var first := ValueText(m, alias, xs[0], n);
      var rest := ValueTexts(m, alias, xs[1..], n + |first.values|);
      ValueOrdered(m, alias, xs[0], n);
      ValuesOrdered(m, alias, xs[1..], n + |first.values|);
      PieceThen(first, rest, ValueTexts(m, alias, xs, n), n);
    }
  }

  lemma RawOrdered(m: Mode, alias: string, raw: RawSql, n: nat)
    ensures Indices(RawText(m, alias, raw, n).text) == After(n, |RawText(m, alias, raw, n).values|)
  {
    var args := ValueTexts(m, alias, GivenAll(raw.args), n);
    ValuesOrdered(m, alias, GivenAll(raw.args), n);
    FlatKeeps(args.parts);
    Around([Raw(raw.sql, alias, |raw.args|)], Flat(args.parts), []);
  }

  lemma {:induction false} EachKeeps(target: Token, op: CompareOp, parts: seq<Tokens>)
    requires !target.Placeholder?
    ensures IndicesOf(EachCompared(target, op, parts)) == IndicesOf(parts)
  {
    if parts != [] {
      EachKeeps(target, op, parts[1..]);
      assert EachCompared(target, op, parts)[1..] == EachCompared(target, op, parts[1..]);
      Around([target, Symbol(op)], parts[0], []);
    }
  }

  lemma InOrdered(m: Mode, alias: string, target: Token, json: bool, xs: seq<Operand>, negate: bool, n: nat)
    requires !target.Placeholder?
    ensures var p := InText(m, alias, target, json, xs, negate, n); Indices(p.text) == After(n, |p.values|)
  {
    var p := InText(m, alias, target, json, xs, negate, n);
    var listed := ValueTexts(m, alias, xs, n);
    ValuesOrdered(m, alias, xs, n);
    if xs == [] {
      NoIndices(p.text);
    } else if json && AllBooleans(xs) {
      var each := EachCompared(target, if negate then Ne else Eq, listed.parts);
      EachKeeps(target, if negate then Ne else Eq, listed.parts);
      JoinKeeps(each, if negate then KwAnd else KwOr);
      ParensKeep(Join(each, if negate then KwAnd else KwOr));
    } else {
      JoinKeeps(listed.parts, Comma);
      ParensKeep(Join(listed.parts, Comma));
      Around([target] + (if negate then [KwNot] else []) + [KwIn], Parens(Join(listed.parts, Comma)), []);
    }
  }

  lemma LeafOrdered(m: Mode, alias: string, target: Token, json: bool, op: FieldOp, n: nat)
    requires !target.Placeholder? && !op.NotOp?
    ensures var p := LeafText(m, alias, target, json, op, n); Indices(p.text) == After(n, |p.values|)
  {
    match op
    case Comparison(c, x) => ComparisonOrdered(m, alias, target, c, x, n);
    case Between(min, max) => BetweenOrdered(m, alias, target, min, max, n);
    case In(xs, negate) => InOrdered(m, alias, target, json, xs, negate, n);
    case NullCheck(isNull) => NoIndices([target, KwIs] + (if isNull then [] else [KwNot]) + [KwNull]);
    case Like(kind, insensitive, text) => LikeOrdered(m, alias, target, kind, insensitive, text, n);
    case Regex(text) => RegexOrdered(m, alias, target, text, n);
    case Malformed =>
  }

  lemma ComparisonOrdered(m: Mode, alias: string, target: Token, c: CompareOp, x: Operand, n: nat)
    requires !target.Placeholder?
    ensures var p := LeafText(m, alias, target, false, Comparison(c, x), n); Indices(p.text) == After(n, |p.values|)
  {
    if x == Given(Null) && (c == Eq || c == Ne) {
      NoIndices(LeafText(m, alias, target, false, Comparison(c, x), n).text);
    } else {
      ValueOrdered(m, alias, x, n);
      Around([target, Symbol(c)], ValueText(m, alias, x, n).text, []);
    }
  }

  lemma RegexOrdered(m: Mode, alias: string, target: Token, text: string, n: nat)
    requires !target.Placeholder?
    ensures var p := LeafText(m, alias, target, false, Regex(text), n); Indices(p.text) == After(n, |p.values|)
  {
    ValueOrdered(m, alias, Given(Str(text)), n);
    Around([target, KwRegexp], ValueText(m, alias, Given(Str(text)), n).text, []);
  }

  lemma BetweenOrdered(m: Mode, alias: string, target: Token, min: Operand, max: Operand, n: nat)
    requires !target.Placeholder?
    ensures var p := LeafText(m, alias, target, false, Between(min, max), n); Indices(p.text) == After(n, |p.values|)
  {
    var lo := ValueText(m, alias, min, n);
    var hi := ValueText(m, alias, max, n + |lo.values|);
    ValueOrdered(m, alias, min, n);
    ValueOrdered(m, alias, max, n + |lo.values|);
    Around([target, KwBetween], lo.text, [KwAnd]);
    IndicesAppend([target, KwBetween] + lo.text + [KwAnd], hi.text);
    AfterAppends(n, |lo.values|, |hi.values|);
  }

  lemma LikeOrdered(m: Mode, alias: string, target: Token, kind: LikeKind, insensitive: bool, text: string, n: nat)
    requires !target.Placeholder?
    ensures var p := LeafText(m, alias, target, false, Like(kind, insensitive, text), n);
            Indices(p.text) == After(n, |p.values|)
  {
    var pattern := WrittenLike(m.dialect, kind, insensitive, text);
    var x := Given(Str(if pattern.Some? then pattern.value else ""));
    var v := ValueText(m, alias, x, n);
    ValueOrdered(m, alias, x, n);
    var left := if insensitive then [KwLower, LParen, target, RParen] else [target];
    Around(left + [KwLike], v.text, [KwEscape, Literal(Str("\\"))]);
  }

  lemma {:induction false} ValOrdered(
    m: Mode, alias: string, target: Token, json: bool, val: FieldVal, n: nat)
    requires !target.Placeholder?
    ensures var p := ValText(m, alias, target, json, val, n); Indices(p.text) == After(n, |p.values|)
    decreases val, 1
  {
    var ps := ValParts(m, alias, target, json, val, n);
    match val {
      case One(x) => LeafOrdered(m, alias, target, json, Comparison(Eq, x), n);
      case Many(xs) => LeafOrdered(m, alias, target, json, In(xs, false), n);
      case OpMap(ops) => OpsOrdered(m, alias, target, json, ops, n);
    }
    assert IndicesOf(ps.parts) == After(n, |ps.values|);
    if |ps.parts| > 1 {
      ChainKeeps(ps.parts, KwAnd);
      ParensKeep(Chain(ps.parts, KwAnd));
    } else {
      FlatKeeps(ps.parts);
    }
  }

  lemma {:induction false} OpsOrdered(
    m: Mode, alias: string, target: Token, json: bool, ops: seq<FieldOp>, n: nat)
    requires !target.Placeholder?
    ensures var ps := OpParts(m, alias, target, json, ops, n); IndicesOf(ps.parts) == After(n, |ps.values|)
    decreases ops, 0
  {
    if ops != [] {
      var first := OpText(m, alias, target, json, ops[0], n);
      var rest := OpParts(m, alias, target, json, ops[1..], n + |first.values|);
      OpOrdered(m, alias, target, json, ops[0], n);
      OpsOrdered(m, alias, target, json, ops[1..], n + |first.values|);
      PieceThen(first, rest, OpParts(m, alias, target, json, ops, n), n);
    }
  }

  lemma {:induction false} OpOrdered(
    m: Mode, alias: string, target: Token, json: bool, op: FieldOp, n: nat)
    requires !target.Placeholder?
    ensures var p := OpText(m, alias, target, json, op, n); Indices(p.text) == After(n, |p.values|)
    decreases op, 2
  {
    if op.NotOp? {
      var inner := ValText(m, alias, target, json, op.val, n);
      ValOrdered(m, alias, target, json, op.val, n);
      ParensKeep(inner.text);
      Around([KwNot], Parens(inner.text), []);
    } else {
      LeafOrdered(m, alias, target, json, op, n);
    }
  }

  // ----- clauses -----

  lemma KeptKeeps(t: Tokens)
    ensures IndicesOf(Kept(t)) == Indices(t)
  {
    if t != [] {
      assert Kept(t)[1..] == [];
    }
  }

  lemma KeptThen(first: Fragment, rest: Fragments, all: Fragments, n: nat)
    requires all == Fragments(Kept(first.text) + rest.parts, first.values + rest.values, rest.taken)
    requires Indices(first.text) == After(n, |first.values|)
    requires IndicesOf(rest.parts) == After(n + |first.values|, |rest.values|)
    ensures IndicesOf(all.parts) == After(n, |all.values|)
  {
    AfterAppends(n, |first.values|, |rest.values|);
    KeptKeeps(first.text);
    IndicesOfAppend(Kept(first.text), rest.parts);
  }

  lemma GroupedKeeps(op: GroupOp, operand: bool, parts: seq<Tokens>)
    ensures Indices(Grouped(op, operand, parts)) == IndicesOf(parts)
  {
    if parts != [] {
      var body := Chain(parts, if JoinsWithAnd(op) then KwAnd else KwOr);
      ChainKeeps(parts, if JoinsWithAnd(op) then KwAnd else KwOr);
      ParensKeep(body);
      var shown := if |parts| > 1 && (operand || Negates(op)) then Parens(body) else body;
      Around(if Negates(op) then [KwNot] else [], shown, []);
    }
  }

  lemma BodyKeeps(operand: bool, lead: Lead, parts: seq<Tokens>)
    ensures Indices(WhereBody(operand, lead, parts)) == IndicesOf(parts)
  {
    if parts != [] {
      var body := Join(parts, KwAnd);
      JoinKeeps(parts, KwAnd);
      ParensKeep(body);
      Around(LeadText(lead), if |parts| > 1 && operand then Parens(body) else body, []);
    }
  }

  lemma {:induction false} ReferencesBindNothing(parent: string, alias: string, references: seq<(string, string)>)
    ensures IndicesOf(ReferenceTexts(parent, alias, references)) == []
  {
    if references != [] {
      ReferencesBindNothing(parent, alias, references[1..]);
      var texts := ReferenceTexts(parent, alias, references);
      assert texts[1..] == ReferenceTexts(parent, alias, references[1..]);
      NoIndices(texts[0]);
    }
  }

  lemma {:induction false} ClauseOrdered(
    m: Mode, alias: string, operand: bool, c: Clause, n: nat, taken: set<string>)
    ensures var f := ClauseText(m, alias, operand, c, n, taken); Indices(f.text) == After(n, |f.values|)
    decreases c, 2
  {
    match c
    case Group(op, items) =>
      var ps := ItemParts(m, alias, ItemOperand(op, items, operand), items, n, taken);
      ItemsOrdered(m, alias, ItemOperand(op, items, operand), items, n, taken);
      GroupedKeeps(op, operand, ps.parts);
    case Exists(negate, raw) =>
      var sub := RawText(m, alias, raw, n);
      RawOrdered(m, alias, raw, n);
      ParensKeep(sub.text);
      Around((if negate then [KwNot] else []) + [KwExists], Parens(sub.text), []);
    case TextSearch(raw) => RawOrdered(m, alias, raw, n);
    case Field(name, val) => ValOrdered(m, alias, Column(alias, name), false, val, n);
    case Json(name, path, val) => ValOrdered(m, alias, JsonPath(alias, name, path), true, val, n);
    case Related(key, relation, where) =>
      var inner := Claimed(key, Some(alias), taken);
      var w := WhereFragment(m, inner, false, LeadAnd, where, n, taken + {CaseFolded(inner)});
      WhereOrdered(m, inner, false, LeadAnd, where, n, taken + {CaseFolded(inner)});
      ReferencesBindNothing(alias, inner, relation.references);
      JoinKeeps(ReferenceTexts(alias, inner, relation.references), KwAnd);
      var on := Join(ReferenceTexts(alias, inner, relation.references), KwAnd);
      IndicesAppend([SelectOne(relation.table, inner)] + on, w.text);
      IndicesAppend([SelectOne(relation.table, inner)], on);
      ParensKeep([SelectOne(relation.table, inner)] + on + w.text);
      Around([KwExists], Parens([SelectOne(relation.table, inner)] + on + w.text), []);
  }

  /**
   * A rendered `$where` carries one placeholder for each value it bound, numbered in order from the first free: the
   * one at a place in the text is the value's at that place in the list, operands that emitted nothing included.
   */
  lemma {:induction false} WhereOrdered(
    m: Mode, alias: string, operand: bool, lead: Lead, where: Where, n: nat, taken: set<string>)
    ensures var f := WhereFragment(m, alias, operand, lead, where, n, taken); Indices(f.text) == After(n, |f.values|)
    decreases where, 1
  {
    var child := ClauseOperand(where.clauses, operand, lead);
    ClausesOrdered(m, alias, child, where.clauses, n, taken);
    BodyKeeps(operand, lead, ClauseParts(m, alias, child, where.clauses, n, taken).parts);
  }

  lemma {:induction false} ClausesOrdered(
    m: Mode, alias: string, operand: bool, cs: seq<Clause>, n: nat, taken: set<string>)
    ensures var ps := ClauseParts(m, alias, operand, cs, n, taken); IndicesOf(ps.parts) == After(n, |ps.values|)
    decreases cs, 0
  {
    hide Indices, ClauseText;
    if cs != [] {
      var first := ClauseText(m, alias, operand, cs[0], n, taken);
      var rest := ClauseParts(m, alias, operand, cs[1..], n + |first.values|, first.taken);
      ClauseOrdered(m, alias, operand, cs[0], n, taken);
      ClausesOrdered(m, alias, operand, cs[1..], n + |first.values|, first.taken);
      ClausesThen(m, alias, operand, cs, n, taken, first, rest);
    }
  }

  lemma ClausesThen(
    m: Mode, alias: string, operand: bool, cs: seq<Clause>, n: nat, taken: set<string>, first: Fragment,
    rest: Fragments)
    requires cs != [] && first == ClauseText(m, alias, operand, cs[0], n, taken)
    requires rest == ClauseParts(m, alias, operand, cs[1..], n + |first.values|, first.taken)
    requires Indices(first.text) == After(n, |first.values|)
    requires IndicesOf(rest.parts) == After(n + |first.values|, |rest.values|)
    ensures var ps := ClauseParts(m, alias, operand, cs, n, taken); IndicesOf(ps.parts) == After(n, |ps.values|)
  {
    ClausesUnfold(m, alias, operand, cs, n, taken, first, rest);
    KeptThen(first, rest, ClauseParts(m, alias, operand, cs, n, taken), n);
  }

  lemma ClausesUnfold(
    m: Mode, alias: string, operand: bool, cs: seq<Clause>, n: nat, taken: set<string>, first: Fragment,
    rest: Fragments)
    requires cs != [] && first == ClauseText(m, alias, operand, cs[0], n, taken)
    requires rest == ClauseParts(m, alias, operand, cs[1..], n + |first.values|, first.taken)
    ensures ClauseParts(m, alias, operand, cs, n, taken)
         == Fragments(Kept(first.text) + rest.parts, first.values + rest.values, rest.taken)
  {
  }

  lemma ItemsUnfold(
    m: Mode, alias: string, operand: bool, items: seq<Item>, n: nat, taken: set<string>, first: Fragment,
    rest: Fragments)
    requires items != [] && first == ItemText(m, alias, operand, items[0], n, taken)
    requires rest == ItemParts(m, alias, operand, items[1..], n + |first.values|, first.taken)
    ensures ItemParts(m, alias, operand, items, n, taken)
         == Fragments(Kept(first.text) + rest.parts, first.values + rest.values, rest.taken)
  {
  }

  lemma ItemsThen(
    m: Mode, alias: string, operand: bool, items: seq<Item>, n: nat, taken: set<string>, first: Fragment,
    rest: Fragments)
    requires items != [] && first == ItemText(m, alias, operand, items[0], n, taken)
    requires rest == ItemParts(m, alias, operand, items[1..], n + |first.values|, first.taken)
    requires Indices(first.text) == After(n, |first.values|)
    requires IndicesOf(rest.parts) == After(n + |first.values|, |rest.values|)
    ensures var ps := ItemParts(m, alias, operand, items, n, taken); IndicesOf(ps.parts) == After(n, |ps.values|)
  {
    ItemsUnfold(m, alias, operand, items, n, taken, first, rest);
    KeptThen(first, rest, ItemParts(m, alias, operand, items, n, taken), n);
  }

  lemma {:induction false} ItemsOrdered(
    m: Mode, alias: string, operand: bool, items: seq<Item>, n: nat, taken: set<string>)
    ensures var ps := ItemParts(m, alias, operand, items, n, taken); IndicesOf(ps.parts) == After(n, |ps.values|)
    decreases items, 0
  {
    hide Indices, ItemText;
    if items != [] {
      var first := ItemText(m, alias, operand, items[0], n, taken);
      var rest := ItemParts(m, alias, operand, items[1..], n + |first.values|, first.taken);
      ItemOrdered(m, alias, operand, items[0], n, taken);
      ItemsOrdered(m, alias, operand, items[1..], n + |first.values|, first.taken);
      ItemsThen(m, alias, operand, items, n, taken, first, rest);
    }
  }

  lemma {:induction false} ItemOrdered(
    m: Mode, alias: string, operand: bool, item: Item, n: nat, taken: set<string>)
    ensures var f := ItemText(m, alias, operand, item, n, taken); Indices(f.text) == After(n, |f.values|)
    decreases item, 0
  {
    match item
    case RawItem(raw) =>
      if !IsBlank(raw) {
        RawOrdered(m, alias, raw, n);
      }
    case Nested(where) => WhereOrdered(m, alias, operand, Bare, where, n, taken);
  }

  /** A fragment that renders no text bound no value. */
  lemma NoTextBindsNothing(m: Mode, alias: string, operand: bool, lead: Lead, where: Where, n: nat, taken: set<string>)
    requires WhereFragment(m, alias, operand, lead, where, n, taken).text == []
    ensures WhereFragment(m, alias, operand, lead, where, n, taken).values == []
  {
    WhereOrdered(m, alias, operand, lead, where, n, taken);
  }

  // ----- an engine whose placeholders carry no number -----

  /** `t` as an engine reads it that numbers each `?` by its place in the text. */
  function Positional(t: Tokens, n: nat): Tokens {
    if t == [] then []
    else if t[0].Placeholder? then [Placeholder(n + 1)] + Positional(t[1..], n + 1)
    else [t[0]] + Positional(t[1..], n)
  }

  lemma {:induction false} OrderedIsPositional(t: Tokens, n: nat, k: nat)
    requires Indices(t) == After(n, k)
    ensures Positional(t, n) == t
    decreases |t|
  {
    if t != [] {
      if t[0].Placeholder? {
        assert Indices(t)[0] == t[0].index && k > 0 && After(n, k)[0] == n + 1;
        assert Indices(t[1..]) == Indices(t)[1..] == After(n + 1, k - 1);
        OrderedIsPositional(t[1..], n + 1, k - 1);
      } else {
        OrderedIsPositional(t[1..], n, k);
      }
      assert t == [t[0]] + t[1..];
    }
  }

  /** A `?` bound by its place and a `$n` bound by its number read the same values. */
  lemma PositionalReadsTheSame(
    m: Mode, alias: string, operand: bool, lead: Lead, where: Where, n: nat, taken: set<string>)
    ensures var t := WhereFragment(m, alias, operand, lead, where, n, taken).text; Positional(t, n) == t
  {
    var f := WhereFragment(m, alias, operand, lead, where, n, taken);
    WhereOrdered(m, alias, operand, lead, where, n, taken);
    OrderedIsPositional(f.text, n, |f.values|);
  }
}
