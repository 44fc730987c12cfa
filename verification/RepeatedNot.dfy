/** Which `$where`s are written with one `NOT` right after another, which section 8.12 of SQL-92 does not read. */
module RepeatedNot {
  import opened Options
  import opened Values
  import opened SqlText
  import opened Sequences
  import opened SqlShapes
  import opened Aliases
  import opened Filters
  import opened LikePatterns
  import opened WhereText
  import opened PredicateReading
  import opened WhereTheorem
  import opened NamedRows
  import opened StandardGrammar
  import NegatedNothing

  // ----- read off the tree -----

  /** A field's condition that is one `$not`. */
  predicate ValLeads(val: FieldVal) {
    val.OpMap? && |val.ops| == 1 && val.ops[0].NotOp?
  }

  /** A clause that is written, as an operand, with a `NOT` first. */
  predicate ClauseLeads(c: Clause)
    decreases c, 1
  {
    match c
    case Group(op, items) => Emitting(ItemsLeaves(items)) && (Negates(op) || SoleItemLeads(items))
    case Exists(negate, _) => negate
    case Field(_, val) => ValLeads(val)
    case Json(_, _, val) => ValLeads(val)
    case _ => false
  }

  /** One clause alone is written, with a `NOT` first. */
  predicate SoleLeads(cs: seq<Clause>)
    decreases cs, 0
  {
    cs != [] &&
    if Emitting(ClauseLeaves(cs[0])) then ClauseLeads(cs[0]) && !Emitting(Leaves(cs[1..])) else SoleLeads(cs[1..])
  }

  predicate SoleItemLeads(items: seq<Item>)
    decreases items, 0
  {
    items != [] &&
    if Emitting(ItemLeaves(items[0])) then ItemLeads(items[0]) && !Emitting(ItemsLeaves(items[1..]))
    else SoleItemLeads(items[1..])
  }

  predicate ItemLeads(item: Item)
    decreases item, 0
  {
    item.Nested? && SoleLeads(item.where.clauses)
  }

  /** A `$not` or `$nor` anywhere in the condition negates one operand alone, which is written with a `NOT` itself. */
  predicate ClauseDoubles(c: Clause)
    decreases c, 1
  {
    match c
    case Group(op, items) => ItemsDouble(items) || (Negates(op) && SoleItemLeads(items))
    case Related(_, _, where) => ClausesDouble(where.clauses)
    case _ => false
  }

  predicate ClausesDouble(cs: seq<Clause>)
    decreases cs, 0
  {
    cs != [] && (ClauseDoubles(cs[0]) || ClausesDouble(cs[1..]))
  }

  predicate ItemsDouble(items: seq<Item>)
    decreases items, 0
  {
    items != [] && (ItemDoubles(items[0]) || ItemsDouble(items[1..]))
  }

  predicate ItemDoubles(item: Item)
    decreases item, 0
  {
    item.Nested? && ClausesDouble(item.where.clauses)
  }

  // ----- texts and their ends -----

  /** A text with no `NOT` at all. */
  predicate IsPlain(t: Tokens) {
    KwNot !in t
  }

  lemma PlainShape(t: Tokens)
    requires IsPlain(t)
    ensures !HasDouble(t) && EndsPlain(t) && !Leads(t)
  {
    assert forall i :: DoubleAt(t, i) ==> t[i] in t;
    assert t != [] ==> t[0] in t && t[|t| - 1] in t;
  }

  lemma ParensDouble(t: Tokens)
    requires EndsPlain(t)
    ensures HasDouble(Parens(t)) <==> HasDouble(t)
    ensures EndsPlain(Parens(t)) && !Leads(Parens(t))
  {
    PlainShape([LParen]);
    PlainShape([RParen]);
    DoubleAppends([LParen], t);
    DoubleAppends([LParen] + t, [RParen]);
  }

  ghost predicate SomeDouble(parts: seq<Tokens>) {
    parts != [] && (HasDouble(parts[0]) || SomeDouble(parts[1..]))
  }

  /** Texts that end with no `NOT`. */
  predicate AllEndPlain(parts: seq<Tokens>) {
    parts == [] || (parts[0] != [] && EndsPlain(parts[0]) && AllEndPlain(parts[1..]))
  }

  lemma {:induction false} EndPlainOf(a: seq<Tokens>, b: seq<Tokens>)
    ensures AllEndPlain(a + b) <==> AllEndPlain(a) && AllEndPlain(b)
    ensures SomeDouble(a + b) <==> SomeDouble(a) || SomeDouble(b)
  {
    if a == [] {
      NothingBefore(b);
    } else {
      HeadAndTail(a, b);
      EndPlainOf(a[1..], b);
    }
  }

  lemma {:induction false} JoinDouble(parts: seq<Tokens>, op: Token)
    requires op != KwNot && AllEndPlain(parts)
    ensures HasDouble(Join(parts, op)) <==> SomeDouble(parts)
    ensures EndsPlain(Join(parts, op)) && (parts != [] ==> Join(parts, op) != [])
    ensures |parts| == 1 ==> Join(parts, op) == parts[0]
    decreases |parts|
  {
    if parts != [] {
      JoinDouble(parts[1..], op);
      if |parts| > 1 {
        PlainShape([op]);
        DoubleAppends(parts[0], [op]);
        DoubleAppends(parts[0] + [op], Join(parts[1..], op));
      }
    }
  }

  lemma {:induction false} ChainDouble(parts: seq<Tokens>, op: Token)
    requires op != KwNot && AllEndPlain(parts)
    ensures HasDouble(Chain(parts, op)) <==> SomeDouble(parts)
    ensures EndsPlain(Chain(parts, op)) && (parts != [] ==> Chain(parts, op) != [])
    ensures |parts| == 1 ==> Chain(parts, op) == parts[0]
    decreases |parts|
  {
    if |parts| <= CHAIN_WIDTH {
      JoinDouble(parts, op);
    } else {
      var half := (|parts| + 1) / 2;
      var l, r := Chain(parts[..half], op), Chain(parts[half..], op);
      assert parts == parts[..half] + parts[half..];
      EndPlainOf(parts[..half], parts[half..]);
      ChainDouble(parts[..half], op);
      ChainDouble(parts[half..], op);
      HalvesDouble(l, r, op);
    }
  }

  lemma HalvesDouble(l: Tokens, r: Tokens, op: Token)
    requires op != KwNot && EndsPlain(l) && EndsPlain(r)
    ensures HasDouble(Parens(l) + [op] + Parens(r)) <==> HasDouble(l) || HasDouble(r)
    ensures EndsPlain(Parens(l) + [op] + Parens(r))
  {
    ParensDouble(l);
    ParensDouble(r);
    PlainShape([op]);
    DoubleAppends(Parens(l), [op]);
    DoubleAppends(Parens(l) + [op], Parens(r));
  }

  function ParensIf(wrapped: bool, t: Tokens): Tokens {
    if wrapped then Parens(t) else t
  }

  lemma ParensIfDouble(wrapped: bool, t: Tokens)
    requires t != [] && EndsPlain(t)
    ensures var shown := ParensIf(wrapped, t);
            shown != [] && EndsPlain(shown) && (HasDouble(shown) <==> HasDouble(t))
              && (Leads(shown) <==> !wrapped && Leads(t))
  {
    ParensDouble(t);
  }

  lemma NegatedDouble(t: Tokens)
    requires t != [] && EndsPlain(t)
    ensures HasDouble([KwNot] + t) <==> HasDouble(t) || Leads(t)
    ensures EndsPlain([KwNot] + t) && Leads([KwNot] + t)
  {
    DoubleAppends([KwNot], t);
    NoneIsSingle(KwNot);
  }

  // ----- a field -----

  predicate AllPlain(parts: seq<Tokens>) {
    parts == [] || (IsPlain(parts[0]) && AllPlain(parts[1..]))
  }

  lemma {:induction false} PlainValues(m: Mode, alias: string, xs: seq<Operand>, n: nat)
    ensures AllPlain(ValueTexts(m, alias, xs, n).parts)
  {
    if xs != [] {
      var first := ValueText(m, alias, xs[0], n);
      PlainValues(m, alias, xs[1..], n + |first.values|);
      HeadOf(first.text, ValueTexts(m, alias, xs[1..], n + |first.values|).parts);
    }
  }

  lemma {:induction false} PlainCompared(target: Token, op: CompareOp, parts: seq<Tokens>)
    requires target != KwNot && AllPlain(parts)
    ensures AllPlain(EachCompared(target, op, parts))
  {
    if parts != [] {
      PlainCompared(target, op, parts[1..]);
      assert EachCompared(target, op, parts)[1..] == EachCompared(target, op, parts[1..]);
      assert EachCompared(target, op, parts)[0] == [target, Symbol(op)] + parts[0];
    }
  }

  lemma {:induction false} PlainJoin(parts: seq<Tokens>, op: Token)
    requires op != KwNot && AllPlain(parts)
    ensures IsPlain(Join(parts, op))
    decreases |parts|
  {
    if |parts| > 1 {
      PlainJoin(parts[1..], op);
    }
  }

  lemma {:induction false} PlainFlat(parts: seq<Tokens>)
    requires AllPlain(parts)
    ensures IsPlain(Flat(parts))
  {
    if parts != [] {
      PlainFlat(parts[1..]);
    }
  }

  /** A text that repeats no `NOT`, ends with none, and opens with one just where `leads`. */
  ghost predicate IsOperand(t: Tokens, leads: bool) {
    t != [] && !HasDouble(t) && EndsPlain(t) && (Leads(t) <==> leads)
  }

  lemma PlainOperand(t: Tokens)
    requires t != [] && IsPlain(t)
    ensures IsOperand(t, false)
  {
    PlainShape(t);
  }

  /** A `NOT` between two plain texts. */
  lemma NotBetween(a: Tokens, b: Tokens)
    requires a != [] && b != [] && IsPlain(a) && IsPlain(b)
    ensures IsOperand(a + [KwNot] + b, false)
  {
    PlainShape(a);
    PlainShape(b);
    DoubleAppends(a, [KwNot]);
    DoubleAppends(a + [KwNot], b);
    NoneIsSingle(KwNot);
  }

  lemma InOperand(m: Mode, alias: string, target: Token, json: bool, xs: seq<Operand>, negate: bool, n: nat)
    requires IsTarget(target)
    ensures IsOperand(InText(m, alias, target, json, xs, negate, n).text, false)
  {
    var listed := ValueTexts(m, alias, xs, n);
    var t := InText(m, alias, target, json, xs, negate, n).text;
    PlainValues(m, alias, xs, n);
    if xs == [] {
      PlainOperand(t);
    } else if json && AllBooleans(xs) {
      PlainCompared(target, if negate then Ne else Eq, listed.parts);
      PlainJoin(EachCompared(target, if negate then Ne else Eq, listed.parts), if negate then KwAnd else KwOr);
      PlainOperand(t);
    } else {
      PlainJoin(listed.parts, Comma);
      var options := [KwIn] + Parens(Join(listed.parts, Comma));
      if negate {
        NotBetween([target], options);
        assert t == [target] + [KwNot] + options;
      } else {
        PlainOperand(t);
      }
    }
  }

  lemma ComparisonOperand(m: Mode, alias: string, target: Token, json: bool, c: CompareOp, x: Operand, n: nat)
    requires IsTarget(target)
    ensures IsOperand(LeafText(m, alias, target, json, Comparison(c, x), n).text, false)
  {
    if x == Given(Null) && c == Eq {
      PlainOperand([target, KwIs, KwNull]);
    } else if x == Given(Null) && c == Ne {
      NotBetween([target, KwIs], [KwNull]);
      assert [target, KwIs, KwNot, KwNull] == [target, KwIs] + [KwNot] + [KwNull];
    } else {
      PlainOperand([target, Symbol(c)] + ValueText(m, alias, x, n).text);
    }
  }

  lemma LikeOperand(
    m: Mode, alias: string, target: Token, json: bool, kind: LikeKind, folded: bool, text: string, n: nat)
    requires IsTarget(target)
    ensures IsOperand(LeafText(m, alias, target, json, Like(kind, folded, text), n).text, false)
  {
    var pattern := WrittenLike(m.dialect, kind, folded, text);
    var v := ValueText(m, alias, Given(Str(if pattern.Some? then pattern.value else "")), n).text;
    var left := if folded then [KwLower, LParen, target, RParen] else [target];
    assert IsPlain(v) && IsPlain(left);
    PlainOperand(left + [KwLike] + v + [KwEscape, Literal(Str("\\"))]);
  }

  lemma BetweenOperand(m: Mode, alias: string, target: Token, json: bool, min: Operand, max: Operand, n: nat)
    requires IsTarget(target)
    ensures IsOperand(LeafText(m, alias, target, json, Between(min, max), n).text, false)
  {
    var lo := ValueText(m, alias, min, n);
    var hi := ValueText(m, alias, max, n + |lo.values|);
    assert IsPlain(lo.text) && IsPlain(hi.text);
    PlainOperand([target, KwBetween] + lo.text + [KwAnd] + hi.text);
  }

  lemma NullCheckOperand(m: Mode, alias: string, target: Token, json: bool, isNull: bool, n: nat)
    requires IsTarget(target)
    ensures IsOperand(LeafText(m, alias, target, json, NullCheck(isNull), n).text, false)
  {
    if isNull {
      PlainOperand([target, KwIs] + [] + [KwNull]);
    } else {
      NotBetween([target, KwIs], [KwNull]);
    }
  }

  lemma LeafOperand(m: Mode, alias: string, target: Token, json: bool, op: FieldOp, n: nat)
    requires IsTarget(target) && !op.NotOp? && !op.Malformed?
    ensures IsOperand(LeafText(m, alias, target, json, op, n).text, false)
  {
    match op
    case Comparison(c, x) => ComparisonOperand(m, alias, target, json, c, x, n);
    case Between(min, max) => BetweenOperand(m, alias, target, json, min, max, n);
    case In(xs, negate) => InOperand(m, alias, target, json, xs, negate, n);
    case NullCheck(isNull) => NullCheckOperand(m, alias, target, json, isNull, n);
    case Like(kind, folded, text) => LikeOperand(m, alias, target, json, kind, folded, text, n);
    case Regex(text) => PlainOperand([target, KwRegexp] + ValueText(m, alias, Given(Str(text)), n).text);
  }

  lemma {:induction false} OpOperand(m: Mode, alias: string, target: Token, json: bool, op: FieldOp, n: nat)
    requires IsTarget(target) && !OpRefused(m.dialect, op)
    ensures IsOperand(OpText(m, alias, target, json, op, n).text, op.NotOp?)
    decreases op, 2
  {
    if op.NotOp? {
      var inner := ValText(m, alias, target, json, op.val, n).text;
      ValOperand(m, alias, target, json, op.val, n);
      PlainShape([]);
      ParensDouble(inner);
      DoubleAppends([KwNot], Parens(inner));
      NoneIsSingle(KwNot);
    } else {
      LeafOperand(m, alias, target, json, op, n);
    }
  }

  lemma {:induction false} ValOperand(m: Mode, alias: string, target: Token, json: bool, val: FieldVal, n: nat)
    requires IsTarget(target) && !ValRefused(m.dialect, val)
    ensures var t := ValText(m, alias, target, json, val, n).text;
            if val == OpMap([]) then t == [] else IsOperand(t, ValLeads(val))
    decreases val, 1
  {
    match val
    case One(x) =>
      LeafOperand(m, alias, target, json, Comparison(Eq, x), n);
      SoleConjunction(LeafText(m, alias, target, json, Comparison(Eq, x), n).text);
    case Many(xs) =>
      LeafOperand(m, alias, target, json, In(xs, false), n);
      SoleConjunction(LeafText(m, alias, target, json, In(xs, false), n).text);
    case OpMap(ops) =>
      OpsOperands(m, alias, target, json, ops, n);
      var parts := OpParts(m, alias, target, json, ops, n).parts;
      if |parts| == 1 {
        SoleConjunction(parts[0]);
        assert parts == [parts[0]];
      } else if |parts| > 1 {
        ChainDouble(parts, KwAnd);
        ParensDouble(Chain(parts, KwAnd));
      }
  }

  lemma SoleConjunction(t: Tokens)
    ensures Conjunction([t]) == t
  {
    assert [t][1..] == [] && Flat([t]) == t + Flat([]) == t;
  }

  lemma {:induction false} OpsOperands(m: Mode, alias: string, target: Token, json: bool, ops: seq<FieldOp>, n: nat)
    requires IsTarget(target) && !OpsRefused(m.dialect, ops)
    ensures var parts := OpParts(m, alias, target, json, ops, n).parts;
            |parts| == |ops| && AllEndPlain(parts) && !SomeDouble(parts)
            && (|ops| == 1 ==> IsOperand(parts[0], ops[0].NotOp?))
    decreases ops, 0
  {
    if ops != [] {
      var first := OpText(m, alias, target, json, ops[0], n);
      OpOperand(m, alias, target, json, ops[0], n);
      OpsOperands(m, alias, target, json, ops[1..], n + |first.values|);
      HeadOf(first.text, OpParts(m, alias, target, json, ops[1..], n + |first.values|).parts);
    }
  }

  // ----- clauses -----

  /**
   * A text that ends with no `NOT`, doubles one just where `doubles`, and as an operand opens with one where `leads`.
   */
  ghost predicate IsShaped(t: Tokens, operand: bool, doubles: bool, leads: bool) {
    EndsPlain(t) && (HasDouble(t) <==> doubles) && (operand ==> (Leads(t) <==> leads))
  }

  /** Texts to be joined, of which one alone opens with a `NOT` where `leads`. */
  ghost predicate AreShaped(parts: seq<Tokens>, operand: bool, doubles: bool, leads: bool) {
    && AllEndPlain(parts)
    && (SomeDouble(parts) <==> doubles)
    && (operand ==> (|parts| == 1 && Leads(parts[0]) <==> leads))
  }

  lemma ShapedThen(
    first: Tokens, rest: seq<Tokens>, operand: bool, d1: bool, l1: bool, d2: bool, l2: bool)
    requires IsShaped(first, operand, d1, l1) && AreShaped(rest, operand, d2, l2)
    ensures AreShaped(Kept(first) + rest, operand, d1 || d2, if first != [] then l1 && rest == [] else l2)
  {
    var parts := Kept(first) + rest;
    if first == [] {
      NothingBefore(rest);
      assert !HasDouble(first);
    } else {
      HeadOf(first, rest);
    }
  }

  lemma GroupShaped(op: GroupOp, operand: bool, child: bool, parts: seq<Tokens>, doubles: bool, leads: bool)
    requires AreShaped(parts, child, doubles, leads) && (operand || Negates(op) ==> child)
    ensures IsShaped(Grouped(op, operand, parts), operand, doubles || (Negates(op) && leads),
                     parts != [] && (Negates(op) || leads))
  {
    if parts != [] {
      var joint, wrapped := if JoinsWithAnd(op) then KwAnd else KwOr, |parts| > 1 && (operand || Negates(op));
      var body := Chain(parts, joint);
      var shown := ParensIf(wrapped, body);
      ChainDouble(parts, joint);
      ParensIfDouble(wrapped, body);
      NegationShaped(Negates(op), shown);
      assert Grouped(op, operand, parts) == (if Negates(op) then [KwNot] else []) + shown;
    }
  }

  lemma NegationShaped(negated: bool, shown: Tokens)
    requires shown != [] && EndsPlain(shown)
    ensures IsShaped((if negated then [KwNot] else []) + shown, true, HasDouble(shown) || (negated && Leads(shown)),
                     negated || Leads(shown))
  {
    NegatedDouble(shown);
    NothingBefore(shown);
  }

  lemma BodyShaped(operand: bool, lead: Lead, child: bool, parts: seq<Tokens>, doubles: bool, leads: bool)
    requires AreShaped(parts, child, doubles, leads) && (operand ==> child)
    ensures IsShaped(WhereBody(operand, lead, parts), operand && lead == Bare, doubles, leads)
  {
    if parts != [] {
      var body, wrapped := Join(parts, KwAnd), |parts| > 1 && operand;
      JoinDouble(parts, KwAnd);
      ParensIfDouble(wrapped, body);
      LeadShaped(lead, ParensIf(wrapped, body));
      assert WhereBody(operand, lead, parts) == LeadText(lead) + ParensIf(wrapped, body);
    }
  }

  lemma LeadShaped(lead: Lead, shown: Tokens)
    requires shown != [] && EndsPlain(shown)
    ensures IsShaped(LeadText(lead) + shown, lead == Bare, HasDouble(shown), Leads(shown))
  {
    if lead == Bare {
      NothingBefore(shown);
    } else {
      PlainShape(LeadText(lead));
      DoubleAppends(LeadText(lead), shown);
    }
  }

  lemma RawShaped(m: Mode, alias: string, raw: RawSql, n: nat)
    ensures IsPlain(RawText(m, alias, raw, n).text) && RawText(m, alias, raw, n).text != []
  {
    var args := ValueTexts(m, alias, GivenAll(raw.args), n);
    PlainValues(m, alias, GivenAll(raw.args), n);
    PlainFlat(args.parts);
  }

  lemma {:induction false} ClauseShaped(m: Mode, alias: string, operand: bool, c: Clause, n: nat, taken: set<string>)
    requires !ClauseRefused(m.dialect, c)
    ensures IsShaped(ClauseText(m, alias, operand, c, n, taken).text, operand, ClauseDoubles(c), ClauseLeads(c))
    decreases c, 2
  {
    match c
    case Group(op, items) =>
      var child := ItemOperand(op, items, operand);
      var parts := ItemParts(m, alias, child, items, n, taken).parts;
      ItemsShaped(m, alias, child, items, n, taken);
      GroupShaped(op, operand, child, parts, ItemsDouble(items), SoleItemLeads(items));
    case Exists(negate, raw) => ExistsShaped(negate, RawText(m, alias, raw, n).text);
      RawShaped(m, alias, raw, n);
    case TextSearch(raw) =>
      RawShaped(m, alias, raw, n);
      PlainShape(RawText(m, alias, raw, n).text);
    case Field(name, val) =>
      ValOperand(m, alias, Column(alias, name), false, val, n);
      PlainShape([]);
    case Json(name, path, val) =>
      ValOperand(m, alias, JsonPath(alias, name, path), true, val, n);
      PlainShape([]);
    case Related(key, relation, where) =>
      RelatedShaped(m, alias, operand, key, relation, where, n, taken);
  }

  lemma ExistsShaped(negate: bool, sub: Tokens)
    ensures IsPlain(sub) ==>
              IsShaped((if negate then [KwNot] else []) + [KwExists] + Parens(sub), true, false, negate)
  {
    if IsPlain(sub) {
      var exists' := [KwExists] + Parens(sub);
      PlainShape(exists');
      DoubleAppends([KwNot], exists');
      NoneIsSingle(KwNot);
      assert [KwNot] + [KwExists] + Parens(sub) == [KwNot] + exists';
      assert [] + [KwExists] + Parens(sub) == exists';
    }
  }

  lemma {:induction false} RelatedShaped(
    m: Mode, alias: string, operand: bool, key: string, relation: Relation, where: Where, n: nat, taken: set<string>)
    requires !ClausesRefused(m.dialect, where.clauses)
    ensures IsShaped(ClauseText(m, alias, operand, Related(key, relation, where), n, taken).text, operand,
                     ClausesDouble(where.clauses), false)
    decreases where, 3
  {
    var inner := Claimed(key, Some(alias), taken);
    RelatedText(m, alias, operand, key, relation, where, n, taken);
    ClausesShaped(m, inner, true, where.clauses, n, taken + {CaseFolded(inner)});
    var on := ReferenceTexts(alias, inner, relation.references);
    var parts := ClauseParts(m, inner, true, where.clauses, n, taken + {CaseFolded(inner)}).parts;
    ReferencesShaped(alias, inner, relation.references);
    EndPlainOf(on, parts);
    JoinDouble(on + parts, KwAnd);
    SubqueryShaped(SelectOne(relation.table, inner), Join(on + parts, KwAnd));
  }

  lemma {:induction false} ReferencesShaped(parent: string, alias: string, references: seq<(string, string)>)
    ensures AllEndPlain(ReferenceTexts(parent, alias, references))
            && !SomeDouble(ReferenceTexts(parent, alias, references))
  {
    var on := ReferenceTexts(parent, alias, references);
    if references != [] {
      ReferencesShaped(parent, alias, references[1..]);
      assert on[1..] == ReferenceTexts(parent, alias, references[1..]);
      PlainShape(on[0]);
    }
  }

  lemma SubqueryShaped(select: Token, t: Tokens)
    requires select != KwNot && EndsPlain(t)
    ensures IsShaped([KwExists] + Parens([select] + t), true, HasDouble(t), false)
  {
    PlainShape([select]);
    PlainShape([KwExists]);
    DoubleAppends([select], t);
    ParensDouble([select] + t);
    DoubleAppends([KwExists], Parens([select] + t));
  }

  lemma {:induction false} WhereShaped(
    m: Mode, alias: string, operand: bool, lead: Lead, where: Where, n: nat, taken: set<string>)
    requires !ClausesRefused(m.dialect, where.clauses)
    ensures IsShaped(WhereFragment(m, alias, operand, lead, where, n, taken).text, operand && lead == Bare,
                     ClausesDouble(where.clauses), SoleLeads(where.clauses))
    decreases where, 1
  {
    var child := ClauseOperand(where.clauses, operand, lead);
    ClausesShaped(m, alias, child, where.clauses, n, taken);
    BodyShaped(operand, lead, child, ClauseParts(m, alias, child, where.clauses, n, taken).parts,
               ClausesDouble(where.clauses), SoleLeads(where.clauses));
  }

  lemma ClausesThen(cs: seq<Clause>, operand: bool, first: Tokens, rest: seq<Tokens>, all: seq<Tokens>)
    requires cs != [] && all == Kept(first) + rest
    requires IsShaped(first, operand, ClauseDoubles(cs[0]), ClauseLeads(cs[0]))
    requires AreShaped(rest, operand, ClausesDouble(cs[1..]), SoleLeads(cs[1..]))
    requires first != [] <==> Emitting(ClauseLeaves(cs[0]))
    requires rest != [] <==> Emitting(Leaves(cs[1..]))
    ensures AreShaped(all, operand, ClausesDouble(cs), SoleLeads(cs)) && (all != [] <==> Emitting(Leaves(cs)))
  {
    ShapedThen(first, rest, operand, ClauseDoubles(cs[0]), ClauseLeads(cs[0]), ClausesDouble(cs[1..]),
               SoleLeads(cs[1..]));
  }

  lemma {:induction false} FirstShaped(m: Mode, alias: string, operand: bool, c: Clause, n: nat, taken: set<string>)
    requires !ClauseRefused(m.dialect, c)
    ensures var t := ClauseText(m, alias, operand, c, n, taken).text;
            IsShaped(t, operand, ClauseDoubles(c), ClauseLeads(c)) && (t != [] <==> Emitting(ClauseLeaves(c)))
    decreases c, 3
  {
    ClauseShaped(m, alias, operand, c, n, taken);
    ClauseEmits(m, alias, operand, c, n, taken);
  }

  lemma {:induction false} ClausesShaped(
    m: Mode, alias: string, operand: bool, cs: seq<Clause>, n: nat, taken: set<string>)
    requires !ClausesRefused(m.dialect, cs)
    ensures AreShaped(ClauseParts(m, alias, operand, cs, n, taken).parts, operand, ClausesDouble(cs), SoleLeads(cs))
    ensures ClauseParts(m, alias, operand, cs, n, taken).parts != [] <==> Emitting(Leaves(cs))
    decreases cs, 0
  {
    hide ClauseText, Kept;
    if cs != [] {
      var first := ClauseText(m, alias, operand, cs[0], n, taken);
      var rest := ClauseParts(m, alias, operand, cs[1..], n + |first.values|, first.taken);
      FirstShaped(m, alias, operand, cs[0], n, taken);
      ClausesShaped(m, alias, operand, cs[1..], n + |first.values|, first.taken);
      ClausesThen(cs, operand, first.text, rest.parts, ClauseParts(m, alias, operand, cs, n, taken).parts);
    }
  }

  lemma ItemsThen(items: seq<Item>, operand: bool, first: Tokens, rest: seq<Tokens>, all: seq<Tokens>)
    requires items != [] && all == Kept(first) + rest
    requires IsShaped(first, operand, ItemDoubles(items[0]), ItemLeads(items[0]))
    requires AreShaped(rest, operand, ItemsDouble(items[1..]), SoleItemLeads(items[1..]))
    requires first != [] <==> Emitting(ItemLeaves(items[0]))
    requires rest != [] <==> Emitting(ItemsLeaves(items[1..]))
    ensures AreShaped(all, operand, ItemsDouble(items), SoleItemLeads(items))
    ensures all != [] <==> Emitting(ItemsLeaves(items))
  {
    ShapedThen(first, rest, operand, ItemDoubles(items[0]), ItemLeads(items[0]), ItemsDouble(items[1..]),
               SoleItemLeads(items[1..]));
  }

  lemma {:induction false} ItemsShaped(
    m: Mode, alias: string, operand: bool, items: seq<Item>, n: nat, taken: set<string>)
    requires !ItemsRefused(m.dialect, items)
    ensures AreShaped(ItemParts(m, alias, operand, items, n, taken).parts, operand, ItemsDouble(items),
                      SoleItemLeads(items))
    ensures ItemParts(m, alias, operand, items, n, taken).parts != [] <==> Emitting(ItemsLeaves(items))
    decreases items, 0
  {
    hide ItemText, Kept;
    if items != [] {
      var first := ItemText(m, alias, operand, items[0], n, taken);
      var rest := ItemParts(m, alias, operand, items[1..], n + |first.values|, first.taken);
      ItemShaped(m, alias, operand, items[0], n, taken);
      ItemEmits(m, alias, operand, items[0], n, taken);
      ItemsShaped(m, alias, operand, items[1..], n + |first.values|, first.taken);
      ItemsThen(items, operand, first.text, rest.parts, ItemParts(m, alias, operand, items, n, taken).parts);
    }
  }

  lemma {:induction false} ItemShaped(m: Mode, alias: string, operand: bool, item: Item, n: nat, taken: set<string>)
    requires !ItemRefused(m.dialect, item)
    ensures IsShaped(ItemText(m, alias, operand, item, n, taken).text, operand, ItemDoubles(item), ItemLeads(item))
    decreases item, 0
  {
    if item.Nested? {
      WhereShaped(m, alias, operand, Bare, item.where, n, taken);
    } else {
      RawShaped(m, alias, item.raw, n);
      PlainShape([]);
      PlainShape(RawText(m, alias, item.raw, n).text);
    }
  }

  // ----- the whole condition -----

  /** The text repeats a `NOT` exactly where a `$not` or `$nor` negates one operand alone that is written with one. */
  lemma DoublesExactlyWhere(m: Mode, alias: string, operand: bool, lead: Lead, where: Where, n: nat, taken: set<string>)
    requires !ClausesRefused(m.dialect, where.clauses)
    ensures HasDouble(WhereFragment(m, alias, operand, lead, where, n, taken).text) <==> ClausesDouble(where.clauses)
  {
    WhereShaped(m, alias, operand, lead, where, n, taken);
  }

  /**
   * The condition is one of section 8.12's grammar exactly where no field's `$not` is of an empty map, and no `$not` or
   * `$nor` negates one operand alone that is written with a `NOT` itself.
   */
  lemma StandardExactlyWhere(
    m: Mode, w: World, alias: string, where: Where, n: nat, taken: set<string>, bound: seq<Value>)
    requires m.dialect == w.dialect && !ClausesRefused(m.dialect, where.clauses)
    requires Holds(bound, n, WhereFragment(m, alias, false, Bare, where, n, taken).values)
    ensures var text := WhereFragment(m, alias, false, Bare, where, n, taken).text;
            (text == [] || (ReadCondition(text).Read? && ReadCondition(text).rest == []))
            <==> !ClausesNegateNothing(where.clauses) && !ClausesDouble(where.clauses)
  {
    var text := WhereFragment(m, alias, false, Bare, where, n, taken).text;
    NegatedNothing.ReadsExactlyWhere(m, w, alias, where, n, taken, bound);
    DoublesExactlyWhere(m, alias, false, Bare, where, n, taken);
    if ReadCondition(text).Read? {
      StandardReads(text, ReadCondition(text).value);
    }
    if ParseOr(text).Read? {
      StandardReads(text, ParseOr(text).value);
    }
  }

  /** Read by that grammar, it is as true of a row as the `$where` is. */
  lemma StandardCompiles(
    m: Mode, w: World, alias: string, where: Where, n: nat, taken: set<string>, bound: seq<Value>, scope: Scope)
    requires m.dialect == w.dialect && !ClausesRefused(m.dialect, where.clauses)
    requires !ClausesNegateNothing(where.clauses) && !ClausesDouble(where.clauses)
    requires Holds(bound, n, WhereFragment(m, alias, false, LeadWhere, where, n, taken).values)
    ensures var text := WhereFragment(m, alias, false, LeadWhere, where, n, taken).text;
            match WhereMeaning(w, RowAt(scope, alias), where)
            case NoCondition => text == []
            case Condition(truth) =>
              text != [] && text[0] == KwWhere && ReadCondition(text[1..]) == ParseOr(text[1..])
              && ReadsAs(w, bound, scope, text[1..], truth)
  {
    var text := WhereFragment(m, alias, false, LeadWhere, where, n, taken).text;
    WhereCompiles(m, w, alias, where, n, taken, bound, scope);
    DoublesExactlyWhere(m, alias, false, LeadWhere, where, n, taken);
    if text != [] {
      LeftUndoubled(text, text[1..]);
      ConditionAgrees(text[1..]);
    }
  }

  // ----- a NOT of a NOT -----

  function NotOf(where: Where): Where {
    Where([Group(NotGroup, [Nested(where)])])
  }

  /** One operand alone, written with one `NOT` before it. */
  lemma NotOfOne(m: Mode, alias: string, operand: bool, where: Where, n: nat, taken: set<string>)
    requires WhereFragment(m, alias, true, Bare, where, n, taken).text != []
    ensures WhereFragment(m, alias, operand, Bare, NotOf(where), n, taken).text
         == [KwNot] + WhereFragment(m, alias, true, Bare, where, n, taken).text
  {
    var items, t := [Nested(where)], WhereFragment(m, alias, true, Bare, where, n, taken);
    var c := Group(NotGroup, items);
    assert items[1..] == [];
    assert ItemParts(m, alias, true, items, n, taken).parts == Kept(t.text) + [] == [t.text];
    assert Chain([t.text], KwAnd) == t.text;
    assert ClauseText(m, alias, operand, c, n, taken).text == [KwNot] + t.text;
    assert [c][1..] == [];
    var child := ClauseOperand([c], operand, Bare);
    assert ClauseText(m, alias, child, c, n, taken).text == [KwNot] + t.text;
    assert ClauseParts(m, alias, child, [c], n, taken).parts == [[KwNot] + t.text];
    NothingBefore([KwNot] + t.text);
  }

  /** A field that is to be NULL. */
  function NullOf(name: string): Where {
    Where([Field(name, OpMap([NullCheck(true)]))])
  }

  lemma NullCheckText(m: Mode, alias: string, name: string, n: nat, taken: set<string>)
    ensures WhereFragment(m, alias, true, Bare, NullOf(name), n, taken).text == [Column(alias, name), KwIs, KwNull]
  {
    var ops, target := [NullCheck(true)], Column(alias, name);
    var t := [target, KwIs, KwNull];
    var c := Field(name, OpMap(ops));
    assert ops[1..] == [] && [c][1..] == [];
    assert OpText(m, alias, target, false, ops[0], n).text == [target, KwIs] + [] + [KwNull] == t;
    assert OpParts(m, alias, target, false, ops, n).parts == [t];
    SoleConjunction(t);
    assert ClauseText(m, alias, true, c, n, taken).text == t;
    assert ClauseParts(m, alias, true, [c], n, taken).parts == [t];
    NothingBefore(t);
  }

  lemma NullCheckReads(alias: string, name: string)
    ensures var leaf := [Column(alias, name), KwIs, KwNull];
            ParseNot([KwNot] + leaf) == Read(Negated(IsNull(Col(alias, name))), [])
  {
    var leaf := [Column(alias, name), KwIs, KwNull];
    assert leaf[1..] == [KwIs, KwNull] && leaf[1..][2..] == [];
    assert ParsePrimary(leaf) == Read(IsNull(Col(alias, name)), []);
    assert ([KwNot] + leaf)[1..] == leaf;
  }

  lemma RepeatedReads(alias: string, name: string)
    ensures var text := [KwNot, KwNot, Column(alias, name), KwIs, KwNull];
            ParseOr(text) == Read(Negated(Negated(IsNull(Col(alias, name)))), []) && ReadCondition(text) == Refused
  {
    var text := [KwNot, KwNot, Column(alias, name), KwIs, KwNull];
    var c := Negated(Negated(IsNull(Col(alias, name))));
    NullCheckReads(alias, name);
    var once := text[1..];
    assert once == [KwNot] + [Column(alias, name), KwIs, KwNull];
    assert ParseNot(text) == Read(c, []);
    assert AndTail(c, []) == Read(c, []) && OrTail(c, []) == Read(c, []);
    assert ReadPrimary(once) == Refused;
    assert ReadFactor(text) == Refused;
  }

  lemma NotOfNotText(m: Mode, alias: string, where: Where, n: nat, taken: set<string>)
    requires WhereFragment(m, alias, true, Bare, where, n, taken).text != []
    ensures WhereFragment(m, alias, false, Bare, NotOf(NotOf(where)), n, taken).text
         == [KwNot, KwNot] + WhereFragment(m, alias, true, Bare, where, n, taken).text
  {
    NotOfOne(m, alias, true, where, n, taken);
    NotOfOne(m, alias, false, NotOf(where), n, taken);
  }

  /**
   * `{$not: [{$not: [{a: null}]}]}` is written `NOT NOT a IS NULL`: read where `NOT` may be repeated, and not by
   * section 8.12.
   */
  lemma NotOfNotIsRepeated(m: Mode, alias: string, name: string, n: nat, taken: set<string>)
    ensures var text := WhereFragment(m, alias, false, Bare, NotOf(NotOf(NullOf(name))), n, taken).text;
            && text == [KwNot, KwNot, Column(alias, name), KwIs, KwNull]
            && ParseOr(text) == Read(Negated(Negated(IsNull(Col(alias, name)))), [])
            && ReadCondition(text) == Refused
  {
    NullCheckText(m, alias, name, n, taken);
    NotOfNotText(m, alias, NullOf(name), n, taken);
    assert [KwNot, KwNot] + [Column(alias, name), KwIs, KwNull] == [KwNot, KwNot, Column(alias, name), KwIs, KwNull];
    RepeatedReads(alias, name);
  }
}
