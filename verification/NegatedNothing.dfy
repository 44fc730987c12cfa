/** A field's `$not` of an empty map is written `NOT ()`, which is no condition, however many `NOT`s a grammar takes. */
module NegatedNothing {
  import opened Options
  import opened Values
  import opened SqlText
  import opened SqlShapes
  import opened Aliases
  import opened Filters
  import opened WhereText
  import opened PredicateReading
  import opened WhereTheorem
  import opened LikePatterns

  /** A pair of parentheses with nothing between. */
  ghost predicate HasHole(t: Tokens) {
    exists i :: 0 <= i < |t| - 1 && t[i] == LParen && t[i + 1] == RParen
  }

  /** Text that opens with no `)`, closes with no `(` and holds no hole. */
  ghost predicate IsSound(t: Tokens) {
    t != [] && t[0] != RParen && t[|t| - 1] != LParen && !HasHole(t)
  }

  lemma SoundAppends(a: Tokens, b: Tokens)
    requires IsSound(a) && IsSound(b)
    ensures IsSound(a + b)
  {
  }

  lemma SoundParens(t: Tokens)
    requires IsSound(t)
    ensures IsSound(Parens(t))
  {
  }

  // ----- what a parse consumes -----

  /** A parse of `ts` left `rest`, and what it took is sound. */
  ghost predicate Took(ts: Tokens, rest: Tokens) {
    |rest| < |ts| && ts[|ts| - |rest|..] == rest && IsSound(ts[..|ts| - |rest|])
  }

  lemma TookThen(ts: Tokens, mid: Tokens, rest: Tokens)
    requires Took(ts, mid) && (mid == rest || Took(mid, rest))
    ensures Took(ts, rest)
  {
    if mid != rest {
      var a, b := ts[..|ts| - |mid|], mid[..|mid| - |rest|];
      SoundAppends(a, b);
      assert ts == a + mid && mid == b + rest;
      assert ts == (a + b) + rest;
      assert ts[..|ts| - |rest|] == a + b;
    }
  }

  lemma TookToken(ts: Tokens)
    requires ts != [] && ts[0] != LParen && ts[0] != RParen
    ensures Took(ts, ts[1..])
  {
    assert ts[..1] == [ts[0]];
  }

  lemma TookParens(ts: Tokens, rest: Tokens)
    requires ts != [] && ts[0] == LParen && Took(ts[1..], rest) && rest != [] && rest[0] == RParen
    ensures Took(ts, rest[1..])
  {
    var inner := ts[1..][..|ts| - 1 - |rest|];
    SoundParens(inner);
    assert ts[1..] == inner + rest;
    assert ts == Parens(inner) + rest[1..];
    assert ts[..|ts| - |rest[1..]|] == Parens(inner);
  }

  lemma {:induction false} TermTook(ts: Tokens)
    requires ParseTerm(ts).Read?
    ensures Took(ts, ParseTerm(ts).rest)
    decreases |ts|
  {
    TookToken(ts);
    if ts[0] == KwLower {
      TermTook(ts[2..]);
      assert ts[1..][1..] == ts[2..];
      TookParens(ts[1..], ParseTerm(ts[2..]).rest);
      TookThen(ts, ts[1..], ParseTerm(ts).rest);
    }
  }

  lemma {:induction false} TermsTook(ts: Tokens)
    requires ParseTerms(ts).Read?
    ensures Took(ts, ParseTerms(ts).rest)
    decreases |ts|
  {
    TermTook(ts);
    var rest := ParseTerm(ts).rest;
    if rest != [] && rest[0] == Comma {
      TookToken(rest);
      TermsTook(rest[1..]);
      TookThen(rest, rest[1..], ParseTerms(ts).rest);
      TookThen(ts, rest, ParseTerms(ts).rest);
    }
  }

  lemma {:induction false} ArgsTook(n: nat, ts: Tokens)
    requires ParseArgs(n, ts).Read?
    ensures ParseArgs(n, ts).rest == ts || Took(ts, ParseArgs(n, ts).rest)
    decreases n
  {
    if n > 0 {
      TermTook(ts);
      ArgsTook(n - 1, ParseTerm(ts).rest);
      TookThen(ts, ParseTerm(ts).rest, ParseArgs(n, ts).rest);
    }
  }

  lemma OptionsTook(a: Term, ts: Tokens, negate: bool)
    requires ParseOptions(a, ts, negate).Read?
    ensures Took(ts, ParseOptions(a, ts, negate).rest)
  {
    TermsTook(ts[1..]);
    TookParens(ts, ParseTerms(ts[1..]).rest);
  }

  lemma TailTook(a: Term, ts: Tokens)
    requires ParseTail(a, ts).Read?
    ensures Took(ts, ParseTail(a, ts).rest)
  {
    var end := ParseTail(a, ts).rest;
    TookToken(ts);
    if ts[0] == KwIs {
      TookToken(ts[1..]);
      assert ts[1..][1..] == ts[2..];
      TookThen(ts, ts[1..], ts[2..]);
      if ts[1] == KwNot {
        TookToken(ts[2..]);
        assert ts[2..][1..] == ts[3..];
        TookThen(ts, ts[2..], ts[3..]);
      }
    } else if ts[0] == KwIn {
      OptionsTook(a, ts[1..], false);
      TookThen(ts, ts[1..], end);
    } else if ts[0] == KwNot {
      TookToken(ts[1..]);
      assert ts[1..][1..] == ts[2..];
      TookThen(ts, ts[1..], ts[2..]);
      OptionsTook(a, ts[2..], true);
      TookThen(ts, ts[2..], end);
    } else {
      TermTook(ts[1..]);
      var rest := ParseTerm(ts[1..]).rest;
      TookThen(ts, ts[1..], rest);
      if ts[0] == KwBetween {
        TookToken(rest);
        TookThen(ts, rest, rest[1..]);
        TermTook(rest[1..]);
        TookThen(ts, rest[1..], end);
      } else if ts[0] == KwLike {
        TookToken(rest);
        TookThen(ts, rest, rest[1..]);
        TookToken(rest[1..]);
        assert rest[1..][1..] == rest[2..];
        TookThen(ts, rest[1..], end);
      }
    }
  }

  lemma {:induction false} PrimaryTook(ts: Tokens)
    requires ParsePrimary(ts).Read?
    ensures Took(ts, ParsePrimary(ts).rest)
    decreases |ts|, 0
  {
    var end := ParsePrimary(ts).rest;
    if ts[0] == LParen {
      OrTook(ts[1..]);
      TookParens(ts, ParseOr(ts[1..]).rest);
    } else if ts[0].Raw? {
      TookToken(ts);
      ArgsTook(ts[0].arity, ts[1..]);
      TookThen(ts, ts[1..], end);
    } else if ts[0] == KwExists {
      TookToken(ts);
      TookToken(ts[2..]);
      assert ts[2..][1..] == ts[3..] && ts[1..][1..] == ts[2..];
      var inner := if ts[2].SelectOne? then ParseOr(ts[3..]).rest else ParseArgs(ts[2].arity, ts[3..]).rest;
      if ts[2].SelectOne? {
        OrTook(ts[3..]);
      } else {
        ArgsTook(ts[2].arity, ts[3..]);
      }
      TookThen(ts[2..], ts[3..], inner);
      TookParens(ts[1..], inner);
      TookThen(ts, ts[1..], end);
    } else {
      TermTook(ts);
      TailTook(ParseTerm(ts).value, ParseTerm(ts).rest);
      TookThen(ts, ParseTerm(ts).rest, end);
    }
  }

  lemma {:induction false} NotTook(ts: Tokens)
    requires ParseNot(ts).Read?
    ensures Took(ts, ParseNot(ts).rest)
    decreases |ts|, 1
  {
    if ts != [] && ts[0] == KwNot {
      TookToken(ts);
      NotTook(ts[1..]);
      TookThen(ts, ts[1..], ParseNot(ts).rest);
    } else {
      PrimaryTook(ts);
    }
  }

  lemma {:induction false} AndTook(ts: Tokens)
    requires ParseAnd(ts).Read?
    ensures Took(ts, ParseAnd(ts).rest)
    decreases |ts|, 2
  {
    NotTook(ts);
    var r := ParseNot(ts);
    AndTailTook(r.value, r.rest);
    TookThen(ts, r.rest, ParseAnd(ts).rest);
  }

  lemma {:induction false} AndTailTook(left: Cond, ts: Tokens)
    requires AndTail(left, ts).Read?
    ensures AndTail(left, ts).rest == ts || Took(ts, AndTail(left, ts).rest)
    decreases |ts|, 3
  {
    if ts != [] && ts[0] == KwAnd {
      TookToken(ts);
      NotTook(ts[1..]);
      var r := ParseNot(ts[1..]);
      TookThen(ts, ts[1..], r.rest);
      AndTailTook(Both(left, r.value), r.rest);
      TookThen(ts, r.rest, AndTail(left, ts).rest);
    }
  }

  lemma {:induction false} OrTook(ts: Tokens)
    requires ParseOr(ts).Read?
    ensures Took(ts, ParseOr(ts).rest)
    decreases |ts|, 4
  {
    AndTook(ts);
    var r := ParseAnd(ts);
    OrTailTook(r.value, r.rest);
    TookThen(ts, r.rest, ParseOr(ts).rest);
  }

  lemma {:induction false} OrTailTook(left: Cond, ts: Tokens)
    requires OrTail(left, ts).Read?
    ensures OrTail(left, ts).rest == ts || Took(ts, OrTail(left, ts).rest)
    decreases |ts|, 5
  {
    if ts != [] && ts[0] == KwOr {
      TookToken(ts);
      AndTook(ts[1..]);
      var r := ParseAnd(ts[1..]);
      TookThen(ts, ts[1..], r.rest);
      OrTailTook(Either(left, r.value), r.rest);
      TookThen(ts, r.rest, OrTail(left, ts).rest);
    }
  }

  /** A text with a hole anywhere in it is no condition. */
  lemma HoleNeverReads(t: Tokens)
    requires HasHole(t)
    ensures !(ParseOr(t).Read? && ParseOr(t).rest == [])
  {
    assert t[..|t|] == t;
    if ParseOr(t).Read? && ParseOr(t).rest == [] {
      OrTook(t);
      assert false;
    }
  }

  // ----- where the hole is written -----

  lemma HoleAround(a: Tokens, t: Tokens, b: Tokens)
    requires HasHole(t)
    ensures HasHole(a + t + b) && HasHole(a + t) && HasHole(t + b)
  {
    var i :| 0 <= i < |t| - 1 && t[i] == LParen && t[i + 1] == RParen;
    assert (a + t + b)[|a| + i] == LParen && (a + t + b)[|a| + i + 1] == RParen;
    assert (a + t)[|a| + i] == LParen && (a + t)[|a| + i + 1] == RParen;
    assert (t + b)[i] == LParen && (t + b)[i + 1] == RParen;
  }

  ghost predicate SomeHole(parts: seq<Tokens>) {
    exists i :: 0 <= i < |parts| && HasHole(parts[i])
  }

  lemma {:induction false} JoinKeepsHole(parts: seq<Tokens>, op: Token)
    requires SomeHole(parts)
    ensures HasHole(Join(parts, op))
    decreases |parts|
  {
    var i :| 0 <= i < |parts| && HasHole(parts[i]);
    if |parts| > 1 {
      if i == 0 {
        HoleAround([], parts[0], [op] + Join(parts[1..], op));
        assert parts[0] + ([op] + Join(parts[1..], op)) == Join(parts, op);
      } else {
        assert HasHole(parts[1..][i - 1]);
        JoinKeepsHole(parts[1..], op);
        HoleAround(parts[0] + [op], Join(parts[1..], op), []);
      }
    }
  }

  lemma {:induction false} ChainKeepsHole(parts: seq<Tokens>, op: Token)
    requires SomeHole(parts)
    ensures HasHole(Chain(parts, op))
    decreases |parts|
  {
    if |parts| <= CHAIN_WIDTH {
      JoinKeepsHole(parts, op);
    } else {
      var i :| 0 <= i < |parts| && HasHole(parts[i]);
      var half := (|parts| + 1) / 2;
      if i < half {
        assert HasHole(parts[..half][i]);
        ChainKeepsHole(parts[..half], op);
      } else {
        assert HasHole(parts[half..][i - half]);
        ChainKeepsHole(parts[half..], op);
      }
      HalvesKeepHole(Chain(parts[..half], op), Chain(parts[half..], op), op);
    }
  }

  lemma HalvesKeepHole(l: Tokens, r: Tokens, op: Token)
    requires HasHole(l) || HasHole(r)
    ensures HasHole(Parens(l) + [op] + Parens(r))
  {
    if HasHole(l) {
      HoleAround([LParen], l, [RParen]);
      HoleAround([], Parens(l), [op] + Parens(r));
      assert Parens(l) + ([op] + Parens(r)) == Parens(l) + [op] + Parens(r);
    } else {
      HoleAround([LParen], r, [RParen]);
      HoleAround(Parens(l) + [op], Parens(r), []);
    }
  }

  lemma ConjunctionKeepsHole(parts: seq<Tokens>)
    requires SomeHole(parts)
    ensures HasHole(Conjunction(parts))
  {
    if |parts| > 1 {
      ChainKeepsHole(parts, KwAnd);
      HoleAround([LParen], Chain(parts, KwAnd), [RParen]);
    } else {
      assert Flat(parts) == parts[0];
    }
  }

  lemma {:induction false} OpHole(m: Mode, alias: string, target: Token, json: bool, op: FieldOp, n: nat)
    requires OpNegatesNothing(op)
    ensures HasHole(OpText(m, alias, target, json, op, n).text)
    decreases op, 2
  {
    if op.val == OpMap([]) {
      NothingIsAHole();
    } else {
      ValHole(m, alias, target, json, op.val, n);
    }
    NegationKeepsHole(ValText(m, alias, target, json, op.val, n).text);
  }

  lemma NothingIsAHole()
    ensures HasHole(Parens([]))
  {
    assert Parens([])[0] == LParen && Parens([])[1] == RParen;
  }

  lemma NegationKeepsHole(t: Tokens)
    requires HasHole(t) || t == []
    ensures HasHole([KwNot] + Parens(t))
  {
    if t == [] {
      NothingIsAHole();
    } else {
      HoleAround([LParen], t, [RParen]);
    }
    HoleAround([KwNot], Parens(t), []);
  }

  lemma {:induction false} ValHole(m: Mode, alias: string, target: Token, json: bool, val: FieldVal, n: nat)
    requires ValNegatesNothing(val)
    ensures HasHole(ValText(m, alias, target, json, val, n).text)
    decreases val, 1
  {
    OpsHole(m, alias, target, json, val.ops, n);
    assert ValParts(m, alias, target, json, val, n) == OpParts(m, alias, target, json, val.ops, n);
    ConjunctionKeepsHole(OpParts(m, alias, target, json, val.ops, n).parts);
  }

  lemma {:induction false} OpsHole(m: Mode, alias: string, target: Token, json: bool, ops: seq<FieldOp>, n: nat)
    requires OpsNegateNothing(ops)
    ensures SomeHole(OpParts(m, alias, target, json, ops, n).parts)
    decreases ops, 0
  {
    var first := OpText(m, alias, target, json, ops[0], n);
    var rest := OpParts(m, alias, target, json, ops[1..], n + |first.values|).parts;
    var parts := OpParts(m, alias, target, json, ops, n).parts;
    assert parts == [first.text] + rest;
    if OpNegatesNothing(ops[0]) {
      OpHole(m, alias, target, json, ops[0], n);
      assert HasHole(parts[0]);
    } else {
      OpsHole(m, alias, target, json, ops[1..], n + |first.values|);
      var i :| 0 <= i < |rest| && HasHole(rest[i]);
      assert HasHole(parts[i + 1]);
    }
  }

  /** A part with a hole is text, and is kept among the parts joined. */
  lemma KeptHole(first: Fragment, rest: Fragments)
    requires HasHole(first.text) || SomeHole(rest.parts)
    ensures SomeHole(Kept(first.text) + rest.parts)
  {
    var parts := Kept(first.text) + rest.parts;
    if HasHole(first.text) {
      assert HasHole(parts[0]);
    } else {
      var i :| 0 <= i < |rest.parts| && HasHole(rest.parts[i]);
      assert parts[i + |Kept(first.text)|] == rest.parts[i];
    }
  }

  lemma GroupedKeepsHole(op: GroupOp, operand: bool, parts: seq<Tokens>)
    requires SomeHole(parts)
    ensures HasHole(Grouped(op, operand, parts))
  {
    var body := Chain(parts, if JoinsWithAnd(op) then KwAnd else KwOr);
    ChainKeepsHole(parts, if JoinsWithAnd(op) then KwAnd else KwOr);
    HoleAround([LParen], body, [RParen]);
    var shown := if |parts| > 1 && (operand || Negates(op)) then Parens(body) else body;
    HoleAround(if Negates(op) then [KwNot] else [], shown, []);
  }

  lemma BodyKeepsHole(operand: bool, lead: Lead, parts: seq<Tokens>)
    requires SomeHole(parts)
    ensures HasHole(WhereBody(operand, lead, parts))
  {
    var body := Join(parts, KwAnd);
    JoinKeepsHole(parts, KwAnd);
    HoleAround([LParen], body, [RParen]);
    HoleAround(LeadText(lead), if |parts| > 1 && operand then Parens(body) else body, []);
  }

  lemma {:induction false} ClauseHole(
    m: Mode, alias: string, operand: bool, c: Clause, n: nat, taken: set<string>)
    requires ClauseNegatesNothing(c)
    ensures HasHole(ClauseText(m, alias, operand, c, n, taken).text)
    decreases c, 2
  {
    match c
    case Group(op, items) =>
      var child := ItemOperand(op, items, operand);
      ItemsHole(m, alias, child, items, n, taken);
      GroupedKeepsHole(op, operand, ItemParts(m, alias, child, items, n, taken).parts);
    case Field(name, val) => ValHole(m, alias, Column(alias, name), false, val, n);
    case Json(name, path, val) => ValHole(m, alias, JsonPath(alias, name, path), true, val, n);
    case Related(key, relation, where) =>
      RelatedHole(m, alias, operand, key, relation, where, n, taken);
  }

  lemma {:induction false} RelatedHole(
    m: Mode, alias: string, operand: bool, key: string, relation: Relation, where: Where, n: nat, taken: set<string>)
    requires ClausesNegateNothing(where.clauses)
    ensures HasHole(ClauseText(m, alias, operand, Related(key, relation, where), n, taken).text)
    decreases where, 3
  {
    var inner := Claimed(key, Some(alias), taken);
    RelatedText(m, alias, operand, key, relation, where, n, taken);
    ClausesHole(m, inner, true, where.clauses, n, taken + {CaseFolded(inner)});
    var on := ReferenceTexts(alias, inner, relation.references);
    var parts := ClauseParts(m, inner, true, where.clauses, n, taken + {CaseFolded(inner)}).parts;
    var i :| 0 <= i < |parts| && HasHole(parts[i]);
    assert (on + parts)[|on| + i] == parts[i];
    JoinKeepsHole(on + parts, KwAnd);
    HoleAround([SelectOne(relation.table, inner)], Join(on + parts, KwAnd), []);
    HoleAround([LParen], [SelectOne(relation.table, inner)] + Join(on + parts, KwAnd), [RParen]);
    HoleAround([KwExists], Parens([SelectOne(relation.table, inner)] + Join(on + parts, KwAnd)), []);
  }

  lemma {:induction false} WhereHole(
    m: Mode, alias: string, operand: bool, lead: Lead, where: Where, n: nat, taken: set<string>)
    requires ClausesNegateNothing(where.clauses)
    ensures HasHole(WhereFragment(m, alias, operand, lead, where, n, taken).text)
    decreases where, 1
  {
    var child := ClauseOperand(where.clauses, operand, lead);
    ClausesHole(m, alias, child, where.clauses, n, taken);
    BodyKeepsHole(operand, lead, ClauseParts(m, alias, child, where.clauses, n, taken).parts);
  }

  lemma {:induction false} ClausesHole(
    m: Mode, alias: string, operand: bool, cs: seq<Clause>, n: nat, taken: set<string>)
    requires ClausesNegateNothing(cs)
    ensures SomeHole(ClauseParts(m, alias, operand, cs, n, taken).parts)
    decreases cs, 0
  {
    hide ClauseText, HasHole, ClauseNegatesNothing;
    var first := ClauseText(m, alias, operand, cs[0], n, taken);
    var rest := ClauseParts(m, alias, operand, cs[1..], n + |first.values|, first.taken);
    if ClauseNegatesNothing(cs[0]) {
      ClauseHole(m, alias, operand, cs[0], n, taken);
    } else {
      ClausesHole(m, alias, operand, cs[1..], n + |first.values|, first.taken);
    }
    KeptHole(first, rest);
  }

  lemma {:induction false} ItemsHole(
    m: Mode, alias: string, operand: bool, items: seq<Item>, n: nat, taken: set<string>)
    requires ItemsNegateNothing(items)
    ensures SomeHole(ItemParts(m, alias, operand, items, n, taken).parts)
    decreases items, 0
  {
    hide ItemText, HasHole, ItemNegatesNothing;
    var first := ItemText(m, alias, operand, items[0], n, taken);
    var rest := ItemParts(m, alias, operand, items[1..], n + |first.values|, first.taken);
    if ItemNegatesNothing(items[0]) {
      ItemHole(m, alias, operand, items[0], n, taken);
    } else {
      ItemsHole(m, alias, operand, items[1..], n + |first.values|, first.taken);
    }
    KeptHole(first, rest);
  }

  lemma {:induction false} ItemHole(
    m: Mode, alias: string, operand: bool, item: Item, n: nat, taken: set<string>)
    requires ItemNegatesNothing(item)
    ensures HasHole(ItemText(m, alias, operand, item, n, taken).text)
    decreases item, 0
  {
    WhereHole(m, alias, operand, Bare, item.where, n, taken);
  }

  /**
   * The condition a `$where` is written as reads as one exactly where no field's `$not`, at any depth, is of an empty
   * map; where one is, the text is there and is no condition. A `NOT` may be repeated here: the same by a grammar that
   * takes one is `RepeatedNot.StandardExactlyWhere`.
   */
  lemma ReadsExactlyWhere(
    m: Mode, w: World, alias: string, where: Where, n: nat, taken: set<string>, bound: seq<Value>)
    requires m.dialect == w.dialect && !ClausesRefused(m.dialect, where.clauses)
    requires Holds(bound, n, WhereFragment(m, alias, false, Bare, where, n, taken).values)
    ensures var text := WhereFragment(m, alias, false, Bare, where, n, taken).text;
            && ((text == [] || (ParseOr(text).Read? && ParseOr(text).rest == []))
                <==> !ClausesNegateNothing(where.clauses))
            && (ClausesNegateNothing(where.clauses) ==> HasHole(text))
  {
    var text := WhereFragment(m, alias, false, Bare, where, n, taken).text;
    if ClausesNegateNothing(where.clauses) {
      WhereHole(m, alias, false, Bare, where, n, taken);
      HoleNeverReads(text);
    } else {
      var cs := WhereReads(m, w, alias, false, where, n, taken, bound);
      if text != [] {
        assert Fits(false, Kept(text)[0], cs[0]);
        DisjunctionParses(text, cs[0]);
      }
    }
  }
}
