/** Clauses, groups and relations: the compiler's correctness, clause by clause and then whole. */
module WhereTheorem {
  import opened Options
  import opened Sequences
  import opened Ternary
  import opened Values
  import opened SqlText
  import opened SqlShapes
  import opened Aliases
  import opened Filters
  import opened LikePatterns
  import opened WhereText
  import opened PredicateReading
  import opened WhereCorrectness
  import JsonSql

  ghost predicate AllFit(operand: bool, parts: seq<Tokens>, cs: seq<Cond>) {
    |parts| == |cs| && forall i :: 0 <= i < |parts| ==> Fits(operand, parts[i], cs[i])
  }

  lemma FitAppends(operand: bool, a: seq<Tokens>, b: seq<Tokens>, ca: seq<Cond>, cb: seq<Cond>)
    requires AllFit(operand, a, ca) && AllFit(operand, b, cb)
    ensures AllFit(operand, a + b, ca + cb)
  {
  }

  lemma EvalsAppend(w: World, bound: seq<Value>, scope: Scope, a: seq<Cond>, b: seq<Cond>)
    ensures Evals(w, bound, scope, a + b) == Evals(w, bound, scope, a) + Evals(w, bound, scope, b)
  {
  }

  lemma {:induction false} ItemCount(
    m: Mode, alias: string, operand: bool, items: seq<Item>, n: nat, taken: set<string>)
    ensures |ItemParts(m, alias, operand, items, n, taken).parts| <= |items|
    decreases |items|
  {
    if items != [] {
      var first := ItemText(m, alias, operand, items[0], n, taken);
      ItemCount(m, alias, operand, items[1..], n + |first.values|, first.taken);
    }
  }

  lemma {:induction false} ClauseCount(
    m: Mode, alias: string, operand: bool, cs: seq<Clause>, n: nat, taken: set<string>)
    ensures |ClauseParts(m, alias, operand, cs, n, taken).parts| <= |cs|
    decreases |cs|
  {
    if cs != [] {
      var first := ClauseText(m, alias, operand, cs[0], n, taken);
      ClauseCount(m, alias, operand, cs[1..], n + |first.values|, first.taken);
    }
  }

  // ----- groups -----

  /** A group's parts, joined, negated and parenthesized, in the position they were rendered for. */
  lemma GroupedReads(
    op: GroupOp, operand: bool, childOperand: bool, parts: seq<Tokens>, cs: seq<Cond>) returns (c: Cond)
    requires parts != [] && AllFit(childOperand, parts, cs)
    requires |parts| > 1 || Negates(op) || operand ==> childOperand
    ensures Fits(operand, Grouped(op, operand, parts), c)
    ensures forall w: World, bound, scope ::
              Condition(Eval(w, bound, scope, c)) == GroupMeaning(op, Evals(w, bound, scope, cs))
  {
    var and := JoinsWithAnd(op);
    var body := Chain(parts, OpOf(and));
    var inner := ChainTree(cs, and);
    var paren := |parts| > 1 && (operand || Negates(op));
    assert Fits(childOperand, parts[0], cs[0]);
    if |parts| > 1 {
      ChainShape(parts, cs, and);
    } else {
      assert body == parts[0] && cs[1..] == [] && inner == cs[0];
      if childOperand {
        FactorFits(false, body, inner);
      }
    }
    assert IsDisjunction(body, inner);
    if paren {
      ParensAreFactor(body, inner);
    }
    var shown := if paren then Parens(body) else body;
    if Negates(op) {
      NotIsFactor(shown, inner);
      c := Negated(inner);
      FactorFits(operand, [KwNot] + shown, c);
    } else {
      c := inner;
      assert [] + shown == shown;
      if paren {
        FactorFits(operand, shown, c);
      }
    }
    forall w: World, bound, scope
      ensures Condition(Eval(w, bound, scope, c)) == GroupMeaning(op, Evals(w, bound, scope, cs))
    {
      ChainMeans(w, bound, scope, cs, and);
    }
  }

  // ----- relations -----

  function ReferenceConds(parent: string, alias: string, references: seq<(string, string)>): seq<Cond> {
    seq(|references|, i requires 0 <= i < |references| =>
      Compare(Eq, Col(alias, references[i].0), Col(parent, references[i].1)))
  }

  lemma ReferencesRead(parent: string, alias: string, references: seq<(string, string)>)
    ensures AllFactors(ReferenceTexts(parent, alias, references), ReferenceConds(parent, alias, references))
  {
    forall i | 0 <= i < |references|
      ensures IsFactor(ReferenceTexts(parent, alias, references)[i], ReferenceConds(parent, alias, references)[i])
    {
      var m := Mode(Dialect(true, s => s, JsonSql.Form(JsonSql.Mysql, None), v => ""), false);
      var x := Ref(references[i].1);
      ComparisonTail(m, parent, Col(alias, references[i].0), Eq, x, 0);
      TargetThenTail(Column(alias, references[i].0), [Symbol(Eq), Column(parent, references[i].1)],
                     Compare(Eq, Col(alias, references[i].0), Col(parent, references[i].1)));
      assert [Symbol(Eq)] + [Column(parent, references[i].1)] == [Symbol(Eq), Column(parent, references[i].1)];
      assert [Column(alias, references[i].0)] + [Symbol(Eq), Column(parent, references[i].1)]
          == ReferenceTexts(parent, alias, references)[i];
    }
  }

  /** An alias no parent shares reads the related row, and the parent's still reads the parent's. */
  lemma ReferencesMean(
    w: World, bound: seq<Value>, scope: Scope, parent: string, alias: string, references: seq<(string, string)>,
    other: Row)
    requires CaseFolded(parent) != CaseFolded(alias)
    ensures Evals(w, bound, scope[CaseFolded(alias) := other], ReferenceConds(parent, alias, references))
         == Correlation(w, references, RowAt(scope, parent), other)
  {
    var inner := scope[CaseFolded(alias) := other];
    assert RowAt(inner, alias) == other && RowAt(inner, parent) == RowAt(scope, parent);
  }

  lemma SubqueryReads(table: string, alias: string, t: Tokens, c: Cond)
    requires IsDisjunction(t, c)
    ensures IsFactor([KwExists] + Parens([SelectOne(table, alias)] + t), RowExists(table, alias, c))
  {
    var text := [KwExists] + Parens([SelectOne(table, alias)] + t);
    forall rest: Tokens ensures ParseNot(text + rest) == Read(RowExists(table, alias, c), rest) {
      var after := [RParen] + rest;
      assert text + rest == [KwExists, LParen, SelectOne(table, alias)] + (t + after);
      assert (text + rest)[3..] == t + after;
      assert after[1..] == rest;
    }
  }

  lemma {:induction false} JoinAppends(a: seq<Tokens>, b: seq<Tokens>, op: Token)
    requires a != [] && b != []
    ensures Join(a + b, op) == Join(a, op) + [op] + Join(b, op)
    decreases |a|
  {
    assert (a + b)[1..] == a[1..] + b;
    if |a| == 1 {
      assert a[1..] + b == b;
    } else {
      JoinAppends(a[1..], b, op);
      assert Join(a + b, op) == a[0] + [op] + (Join(a[1..], op) + [op] + Join(b, op));
    }
  }

  /** A relation's subquery joins its correlation and its filter's clauses alike. */
  lemma RelatedText(
    m: Mode, alias: string, operand: bool, key: string, relation: Relation, where: Where, n: nat, taken: set<string>)
    ensures var inner := Claimed(key, Some(alias), taken);
            var ps := ClauseParts(m, inner, true, where.clauses, n, taken + {CaseFolded(inner)});
            var c := ClauseText(m, alias, operand, Related(key, relation, where), n, taken);
            && c.values == ps.values && c.taken == ps.taken
            && c.text == [KwExists] + Parens([SelectOne(relation.table, inner)]
                           + Join(ReferenceTexts(alias, inner, relation.references) + ps.parts, KwAnd))
  {
    var inner := Claimed(key, Some(alias), taken);
    var ps := ClauseParts(m, inner, true, where.clauses, n, taken + {CaseFolded(inner)});
    LeadAndText(m, inner, where, n, taken + {CaseFolded(inner)});
    SubqueryText(SelectOne(relation.table, inner), ReferenceTexts(alias, inner, relation.references), ps.parts);
  }

  lemma LeadAndText(m: Mode, inner: string, where: Where, n: nat, taken: set<string>)
    ensures var ps := ClauseParts(m, inner, true, where.clauses, n, taken);
            WhereFragment(m, inner, false, LeadAnd, where, n, taken)
              == Fragment(WhereBody(false, LeadAnd, ps.parts), ps.values, ps.taken)
  {
  }

  lemma SubqueryText(select: Token, on: seq<Tokens>, parts: seq<Tokens>)
    requires on != []
    ensures [select] + Join(on, KwAnd) + WhereBody(false, LeadAnd, parts) == [select] + Join(on + parts, KwAnd)
  {
    if parts == [] {
      assert on + parts == on;
    } else {
      JoinAppends(on, parts, KwAnd);
    }
  }

  /** The subquery's condition, on a row of the related table, is the correlation and the filter. */
  lemma RelatedMeans(
    w: World, bound: seq<Value>, scope: Scope, alias: string, inner: string, relation: Relation, clauses: seq<Clause>,
    conds: seq<Cond>, other: Row)
    requires CaseFolded(alias) != CaseFolded(inner)
    requires Evals(w, bound, scope[CaseFolded(inner) := other], conds) == ClauseTerms(w, other, clauses)
    ensures var cs := ReferenceConds(alias, inner, relation.references) + conds;
            Eval(w, bound, scope[CaseFolded(inner) := other], FlatTree(cs[0], cs[1..], true)) ==
            AllOf(Correlation(w, relation.references, RowAt(scope, alias), other) + ClauseTerms(w, other, clauses))
  {
    var onConds := ReferenceConds(alias, inner, relation.references);
    var cs := onConds + conds;
    var within := scope[CaseFolded(inner) := other];
    FlatTreeMeans(w, bound, within, cs[0], cs[1..], true);
    assert cs == [cs[0]] + cs[1..];
    EvalsAppend(w, bound, within, [cs[0]], cs[1..]);
    EvalsAppend(w, bound, within, onConds, conds);
    ReferencesMean(w, bound, scope, alias, inner, relation.references, other);
  }

  lemma {:induction false} RelatedReads(
    m: Mode, w: World, alias: string, operand: bool, key: string, relation: Relation, where: Where, n: nat,
    taken: set<string>, bound: seq<Value>) returns (c: Cond)
    requires m.dialect == w.dialect
    requires !ClausesRefused(m.dialect, where.clauses) && !ClausesNegateNothing(where.clauses)
    requires Holds(bound, n, ClauseText(m, alias, operand, Related(key, relation, where), n, taken).values)
    ensures IsFactor(ClauseText(m, alias, operand, Related(key, relation, where), n, taken).text, c)
    ensures forall scope ::
              Eval(w, bound, scope, c) == Of(HasRelated(w, RowAt(scope, alias), relation, where))
    decreases where, 3
  {
    hide ParseNot, ParseOr, ClauseParts, WhereFragment, HasRelated, Join, ClauseTerms;
    var inner := Claimed(key, Some(alias), taken);
    var ps := ClauseParts(m, inner, true, where.clauses, n, taken + {CaseFolded(inner)});
    RelatedText(m, alias, operand, key, relation, where, n, taken);
    var conds := ClausesRead(m, w, inner, true, where.clauses, n, taken + {CaseFolded(inner)}, bound);
    ReferencesRead(alias, inner, relation.references);
    var parts := ReferenceTexts(alias, inner, relation.references) + ps.parts;
    var cs := ReferenceConds(alias, inner, relation.references) + conds;
    JoinShape(parts, cs, true);
    var all := FlatTree(cs[0], cs[1..], true);
    SubqueryReads(relation.table, inner, Join(parts, KwAnd), all);
    c := RowExists(relation.table, inner, all);
    forall scope ensures Eval(w, bound, scope, c) == Of(HasRelated(w, RowAt(scope, alias), relation, where)) {
      ExistsMeans(w, bound, scope, alias, inner, relation, where, conds);
    }
  }

  lemma ExistsMeans(
    w: World, bound: seq<Value>, scope: Scope, alias: string, inner: string, relation: Relation, where: Where,
    conds: seq<Cond>)
    requires CaseFolded(alias) != CaseFolded(inner)
    requires forall within ::
               Evals(w, bound, within, conds) == ClauseTerms(w, RowAt(within, inner), where.clauses)
    ensures var cs := ReferenceConds(alias, inner, relation.references) + conds;
            Eval(w, bound, scope, RowExists(relation.table, inner, FlatTree(cs[0], cs[1..], true)))
              == Of(HasRelated(w, RowAt(scope, alias), relation, where))
  {
    var cs := ReferenceConds(alias, inner, relation.references) + conds;
    forall other | other in w.rows(relation.table)
      ensures Eval(w, bound, scope[CaseFolded(inner) := other], FlatTree(cs[0], cs[1..], true))
           == AllOf(Correlation(w, relation.references, RowAt(scope, alias), other)
                    + ClauseTerms(w, other, where.clauses))
    {
      assert RowAt(scope[CaseFolded(inner) := other], inner) == other;
      assert Evals(w, bound, scope[CaseFolded(inner) := other], conds) == ClauseTerms(w, other, where.clauses);
      RelatedMeans(w, bound, scope, alias, inner, relation, where.clauses, conds, other);
    }
  }

  // ----- clauses -----

  function ExistsText(m: Mode, alias: string, negate: bool, raw: RawSql, n: nat): Tokens {
    (if negate then [KwNot] else []) + [KwExists] + Parens(RawText(m, alias, raw, n).text)
  }

  function ExistsCond(m: Mode, alias: string, negate: bool, raw: RawSql, n: nat): Cond {
    var c := RawExists(raw.sql, alias, ValueTerms(m, alias, GivenAll(raw.args), n));
    if negate then Negated(c) else c
  }

  /** `EXISTS (SQL)`, negated or not, is read as one operand. */
  lemma ExistsIsFactor(m: Mode, alias: string, negate: bool, raw: RawSql, n: nat)
    ensures IsFactor(ExistsText(m, alias, negate, raw, n), ExistsCond(m, alias, negate, raw, n))
  {
    var inner := Parens(RawText(m, alias, raw, n).text);
    RawExistsReads(m, alias, raw, n);
    if negate {
      NotIsFactor([KwExists] + inner, ExistsCond(m, alias, false, raw, n));
      Regroup([KwNot], [KwExists], inner);
    } else {
      NothingBefore([KwExists]);
    }
  }

  lemma ExistsReads(
    m: Mode, w: World, alias: string, operand: bool, negate: bool, raw: RawSql, n: nat, taken: set<string>,
    bound: seq<Value>)
    returns (cs: seq<Cond>)
    requires m.dialect == w.dialect
    requires Holds(bound, n, ClauseText(m, alias, operand, Exists(negate, raw), n, taken).values)
    ensures AllFit(operand, Kept(ClauseText(m, alias, operand, Exists(negate, raw), n, taken).text), cs)
    ensures forall scope ::
              Evals(w, bound, scope, cs) == TermsOf(ClauseMeaning(w, RowAt(scope, alias), Exists(negate, raw)))
  {
    var text := ClauseText(m, alias, operand, Exists(negate, raw), n, taken).text;
    cs := [ExistsCond(m, alias, negate, raw, n)];
    ExistsIsFactor(m, alias, negate, raw, n);
    assert text == ExistsText(m, alias, negate, raw, n);
    FactorFits(operand, text, cs[0]);
    forall scope
      ensures Evals(w, bound, scope, cs) == TermsOf(ClauseMeaning(w, RowAt(scope, alias), Exists(negate, raw)))
    {
      RawMeans(m, w, alias, raw, n, bound, scope);
      assert Evals(w, bound, scope, cs) == [Eval(w, bound, scope, cs[0])];
    }
  }

  lemma TextReads(
    m: Mode, w: World, alias: string, operand: bool, raw: RawSql, n: nat, taken: set<string>, bound: seq<Value>)
    returns (cs: seq<Cond>)
    requires m.dialect == w.dialect
    requires Holds(bound, n, ClauseText(m, alias, operand, TextSearch(raw), n, taken).values)
    ensures AllFit(operand, Kept(ClauseText(m, alias, operand, TextSearch(raw), n, taken).text), cs)
    ensures forall scope ::
              Evals(w, bound, scope, cs) == TermsOf(ClauseMeaning(w, RowAt(scope, alias), TextSearch(raw)))
  {
    RawReads(m, alias, raw, n);
    cs := [RawCond(raw.sql, alias, ValueTerms(m, alias, GivenAll(raw.args), n))];
    FactorFits(operand, RawText(m, alias, raw, n).text, cs[0]);
    forall scope ensures Evals(w, bound, scope, cs) == TermsOf(ClauseMeaning(w, RowAt(scope, alias), TextSearch(raw))) {
      RawMeans(m, w, alias, raw, n, bound, scope);
      assert Evals(w, bound, scope, cs) == [Eval(w, bound, scope, cs[0])];
    }
  }

  lemma {:induction false} ClauseReads(
    m: Mode, w: World, alias: string, operand: bool, clause: Clause, n: nat, taken: set<string>, bound: seq<Value>)
    returns (cs: seq<Cond>)
    requires m.dialect == w.dialect && !ClauseRefused(m.dialect, clause) && !ClauseNegatesNothing(clause)
    requires Holds(bound, n, ClauseText(m, alias, operand, clause, n, taken).values)
    ensures AllFit(operand, Kept(ClauseText(m, alias, operand, clause, n, taken).text), cs)
    ensures forall scope ::
              Evals(w, bound, scope, cs) == TermsOf(ClauseMeaning(w, RowAt(scope, alias), clause))
    decreases clause, 2
  {
    hide ItemParts, WhereFragment, HasRelated, ItemTerms, Grouped;
    var text := ClauseText(m, alias, operand, clause, n, taken).text;
    match clause {
      case Group(op, items) =>
        cs := GroupReads(m, w, alias, operand, op, items, n, taken, bound);
      case Exists(negate, raw) =>
        cs := ExistsReads(m, w, alias, operand, negate, raw, n, taken, bound);
      case TextSearch(raw) =>
        cs := TextReads(m, w, alias, operand, raw, n, taken, bound);
      case Field(name, val) =>
        cs := FieldReads(m, w, alias, operand, Column(alias, name), false, val, n, bound);
      case Json(name, path, val) =>
        cs := FieldReads(m, w, alias, operand, JsonPath(alias, name, path), true, val, n, bound);
      case Related(key, relation, where) =>
        var c := RelatedReads(m, w, alias, operand, key, relation, where, n, taken, bound);
        cs := [c];
        FactorFits(operand, text, c);
    }
  }

  lemma {:induction false} FieldReads(
    m: Mode, w: World, alias: string, operand: bool, target: Token, json: bool, val: FieldVal, n: nat,
    bound: seq<Value>)
    returns (cs: seq<Cond>)
    requires m.dialect == w.dialect && IsTarget(target)
    requires !ValRefused(m.dialect, val) && !ValNegatesNothing(val)
    requires Holds(bound, n, ValText(m, alias, target, json, val, n).values)
    ensures AllFit(operand, Kept(ValText(m, alias, target, json, val, n).text), cs)
    ensures forall scope ::
              Evals(w, bound, scope, cs) ==
              TermsOf(AllMeaning(ValMeanings(w, RowAt(scope, alias), EvalTerm(w, bound, scope, TargetTerm(target)),
                                             val)))
  {
    if val == OpMap([]) {
      cs := [];
    } else {
      var c := ValReads(m, w, alias, target, json, val, n, bound);
      cs := [c];
      FactorFits(operand, ValText(m, alias, target, json, val, n).text, c);
    }
  }

  lemma {:induction false} GroupReads(
    m: Mode, w: World, alias: string, operand: bool, op: GroupOp, items: seq<Item>, n: nat, taken: set<string>,
    bound: seq<Value>) returns (cs: seq<Cond>)
    requires m.dialect == w.dialect && !ItemsRefused(m.dialect, items) && !ItemsNegateNothing(items)
    requires Holds(bound, n, ClauseText(m, alias, operand, Group(op, items), n, taken).values)
    ensures AllFit(operand, Kept(ClauseText(m, alias, operand, Group(op, items), n, taken).text), cs)
    ensures forall scope ::
              Evals(w, bound, scope, cs) == TermsOf(ClauseMeaning(w, RowAt(scope, alias), Group(op, items)))
    decreases items, 1
  {
    var child := ItemOperand(op, items, operand);
    var parts := ItemParts(m, alias, child, items, n, taken).parts;
    ItemCount(m, alias, child, items, n, taken);
    var inner := ItemsRead(m, w, alias, child, items, n, taken, bound);
    if parts == [] {
      cs := [];
      assert inner == [];
      forall scope ensures ItemTerms(w, RowAt(scope, alias), items) == [] {
        assert Evals(w, bound, scope, inner) == [];
      }
    } else {
      var c := GroupedReads(op, operand, child, parts, inner);
      cs := [c];
      forall scope
        ensures Evals(w, bound, scope, cs) == TermsOf(ClauseMeaning(w, RowAt(scope, alias), Group(op, items)))
      {
        assert Condition(Eval(w, bound, scope, c)) == GroupMeaning(op, Evals(w, bound, scope, inner));
        assert Evals(w, bound, scope, cs) == [Eval(w, bound, scope, c)];
      }
    }
  }

  lemma {:induction false} ClausesRead(
    m: Mode, w: World, alias: string, operand: bool, clauses: seq<Clause>, n: nat, taken: set<string>,
    bound: seq<Value>)
    returns (cs: seq<Cond>)
    requires m.dialect == w.dialect && !ClausesRefused(m.dialect, clauses) && !ClausesNegateNothing(clauses)
    requires Holds(bound, n, ClauseParts(m, alias, operand, clauses, n, taken).values)
    ensures AllFit(operand, ClauseParts(m, alias, operand, clauses, n, taken).parts, cs)
    ensures forall scope ::
              Evals(w, bound, scope, cs) == ClauseTerms(w, RowAt(scope, alias), clauses)
    decreases clauses, 0
  {
    hide ClauseText, ClauseMeaning, Eval, ClauseNegatesNothing, ClauseRefused;
    if clauses == [] {
      cs := [];
    } else {
      var first := ClauseText(m, alias, operand, clauses[0], n, taken);
      var n' := n + |first.values|;
      var rest := ClauseParts(m, alias, operand, clauses[1..], n', first.taken);
      HoldsSplits(bound, n, first.values, rest.values);
      var c := ClauseReads(m, w, alias, operand, clauses[0], n, taken, bound);
      var more := ClausesRead(m, w, alias, operand, clauses[1..], n', first.taken, bound);
      cs := c + more;
      FitAppends(operand, Kept(first.text), rest.parts, c, more);
      forall scope ensures Evals(w, bound, scope, cs) == ClauseTerms(w, RowAt(scope, alias), clauses) {
        EvalsAppend(w, bound, scope, c, more);
      }
    }
  }

  lemma {:induction false} ItemsRead(
    m: Mode, w: World, alias: string, operand: bool, items: seq<Item>, n: nat, taken: set<string>, bound: seq<Value>)
    returns (cs: seq<Cond>)
    requires m.dialect == w.dialect && !ItemsRefused(m.dialect, items) && !ItemsNegateNothing(items)
    requires Holds(bound, n, ItemParts(m, alias, operand, items, n, taken).values)
    ensures AllFit(operand, ItemParts(m, alias, operand, items, n, taken).parts, cs)
    ensures forall scope ::
              Evals(w, bound, scope, cs) == ItemTerms(w, RowAt(scope, alias), items)
    decreases items, 0
  {
    hide ItemText, ItemMeaning, Eval, ItemNegatesNothing, ItemRefused;
    if items == [] {
      cs := [];
    } else {
      var first := ItemText(m, alias, operand, items[0], n, taken);
      var n' := n + |first.values|;
      var rest := ItemParts(m, alias, operand, items[1..], n', first.taken);
      HoldsSplits(bound, n, first.values, rest.values);
      var c := ItemReads(m, w, alias, operand, items[0], n, taken, bound);
      var more := ItemsRead(m, w, alias, operand, items[1..], n', first.taken, bound);
      cs := c + more;
      FitAppends(operand, Kept(first.text), rest.parts, c, more);
      forall scope ensures Evals(w, bound, scope, cs) == ItemTerms(w, RowAt(scope, alias), items) {
        EvalsAppend(w, bound, scope, c, more);
      }
    }
  }

  lemma {:induction false} ItemReads(
    m: Mode, w: World, alias: string, operand: bool, item: Item, n: nat, taken: set<string>, bound: seq<Value>)
    returns (cs: seq<Cond>)
    requires m.dialect == w.dialect && !ItemRefused(m.dialect, item) && !ItemNegatesNothing(item)
    requires Holds(bound, n, ItemText(m, alias, operand, item, n, taken).values)
    ensures AllFit(operand, Kept(ItemText(m, alias, operand, item, n, taken).text), cs)
    ensures forall scope ::
              Evals(w, bound, scope, cs) == TermsOf(ItemMeaning(w, RowAt(scope, alias), item))
    decreases item, 0
  {
    match item
    case RawItem(raw) =>
      if IsBlank(raw) {
        cs := [];
      } else {
        RawReads(m, alias, raw, n);
        cs := [RawCond(raw.sql, alias, ValueTerms(m, alias, GivenAll(raw.args), n))];
        FactorFits(operand, RawText(m, alias, raw, n).text, cs[0]);
        forall scope ensures Evals(w, bound, scope, cs) == TermsOf(ItemMeaning(w, RowAt(scope, alias), item)) {
          RawMeans(m, w, alias, raw, n, bound, scope);
        }
      }
    case Nested(where) =>
      cs := WhereReads(m, w, alias, operand, where, n, taken, bound);
  }

  lemma {:induction false} WhereReads(
    m: Mode, w: World, alias: string, operand: bool, where: Where, n: nat, taken: set<string>, bound: seq<Value>)
    returns (cs: seq<Cond>)
    requires m.dialect == w.dialect && !ClausesRefused(m.dialect, where.clauses) && !ClausesNegateNothing(where.clauses)
    requires Holds(bound, n, WhereFragment(m, alias, operand, Bare, where, n, taken).values)
    ensures AllFit(operand, Kept(WhereFragment(m, alias, operand, Bare, where, n, taken).text), cs)
    ensures forall scope ::
              Evals(w, bound, scope, cs) == TermsOf(WhereMeaning(w, RowAt(scope, alias), where))
    decreases where, 1
  {
    var child := ClauseOperand(where.clauses, operand, Bare);
    var parts := ClauseParts(m, alias, child, where.clauses, n, taken).parts;
    ClauseCount(m, alias, child, where.clauses, n, taken);
    var inner := ClausesRead(m, w, alias, child, where.clauses, n, taken, bound);
    if parts == [] {
      cs := [];
      forall scope ensures ClauseTerms(w, RowAt(scope, alias), where.clauses) == [] {
        assert Evals(w, bound, scope, inner) == [];
      }
    } else {
      var c := JoinedReads(operand, child, parts, inner);
      cs := [c];
      assert LeadText(Bare) + (if |parts| > 1 && operand then Parens(Join(parts, KwAnd)) else Join(parts, KwAnd))
          == if |parts| > 1 && operand then Parens(Join(parts, KwAnd)) else Join(parts, KwAnd);
      forall scope ensures Evals(w, bound, scope, cs) == TermsOf(WhereMeaning(w, RowAt(scope, alias), where)) {
        assert Eval(w, bound, scope, c) == AllOf(Evals(w, bound, scope, inner));
        assert Evals(w, bound, scope, cs) == [Eval(w, bound, scope, c)];
      }
    }
  }

  /** A `$where`'s clauses read together as one, in the position it is written for. */
  lemma JoinedReads(operand: bool, child: bool, parts: seq<Tokens>, cs: seq<Cond>) returns (c: Cond)
    requires parts != [] && AllFit(child, parts, cs)
    requires |parts| > 1 || operand ==> child
    ensures Fits(operand, if |parts| > 1 && operand then Parens(Join(parts, KwAnd)) else Join(parts, KwAnd), c)
    ensures forall w: World, bound, scope :: Eval(w, bound, scope, c) == AllOf(Evals(w, bound, scope, cs))
  {
    var body := Join(parts, KwAnd);
    c := FlatTree(cs[0], cs[1..], true);
    assert Fits(child, parts[0], cs[0]);
    if |parts| > 1 {
      JoinShape(parts, cs, true);
      if operand {
        ParensAreFactor(body, c);
      }
    } else {
      assert cs[1..] == [];
      if child {
        FactorFits(operand, body, c);
      }
    }
    forall w: World, bound, scope ensures Eval(w, bound, scope, c) == AllOf(Evals(w, bound, scope, cs)) {
      FlatTreeMeans(w, bound, scope, cs[0], cs[1..], true);
      assert Evals(w, bound, scope, cs) == [Eval(w, bound, scope, cs[0])] + Evals(w, bound, scope, cs[1..]);
    }
  }

  // ----- the whole -----

  /** A condition read off a text that holds nothing else. */
  ghost predicate ReadsAs(w: World, bound: seq<Value>, scope: Scope, text: Tokens, truth: Tri) {
    ParseOr(text).Read? && ParseOr(text).rest == [] && Eval(w, bound, scope, ParseOr(text).value) == truth
  }

  lemma LeadStandsBefore(m: Mode, alias: string, where: Where, n: nat, taken: set<string>)
    ensures var bare := WhereFragment(m, alias, false, Bare, where, n, taken);
            var whole := WhereFragment(m, alias, false, LeadWhere, where, n, taken);
            && whole.values == bare.values && whole.taken == bare.taken
            && whole.text == if bare.text == [] then [] else [KwWhere] + bare.text
  {
    var ps := ClauseParts(m, alias, |where.clauses| > 1, where.clauses, n, taken);
    ClauseCount(m, alias, |where.clauses| > 1, where.clauses, n, taken);
    var body := Join(ps.parts, KwAnd);
    assert WhereFragment(m, alias, false, LeadWhere, where, n, taken).text == WhereBody(false, LeadWhere, ps.parts);
    assert WhereFragment(m, alias, false, Bare, where, n, taken).text == WhereBody(false, Bare, ps.parts);
    assert [] + body == body;
    if ps.parts != [] {
      PartsEmit(m, alias, |where.clauses| > 1, where.clauses, n, taken);
      assert ps.parts[0] in ps.parts;
    }
  }

  lemma {:induction false} PartsEmit(
    m: Mode, alias: string, operand: bool, cs: seq<Clause>, n: nat, taken: set<string>)
    ensures forall p :: p in ClauseParts(m, alias, operand, cs, n, taken).parts ==> p != []
    decreases |cs|
  {
    if cs != [] {
      var first := ClauseText(m, alias, operand, cs[0], n, taken);
      PartsEmit(m, alias, operand, cs[1..], n + |first.values|, first.taken);
    }
  }

  /** The condition a `$where` is where nothing stands beside it, written as nothing where it names none. */
  lemma BareCompiles(
    m: Mode, w: World, alias: string, where: Where, n: nat, taken: set<string>, bound: seq<Value>, scope: Scope)
    requires m.dialect == w.dialect && !ClausesRefused(m.dialect, where.clauses) && !ClausesNegateNothing(where.clauses)
    requires Holds(bound, n, WhereFragment(m, alias, false, Bare, where, n, taken).values)
    ensures var text := WhereFragment(m, alias, false, Bare, where, n, taken).text;
            match WhereMeaning(w, RowAt(scope, alias), where)
            case NoCondition => text == []
            case Condition(truth) => text != [] && ReadsAs(w, bound, scope, text, truth)
  {
    var cs := WhereReads(m, w, alias, false, where, n, taken, bound);
    var bare := WhereFragment(m, alias, false, Bare, where, n, taken).text;
    assert Evals(w, bound, scope, cs) == TermsOf(WhereMeaning(w, RowAt(scope, alias), where));
    if bare != [] {
      assert Fits(false, Kept(bare)[0], cs[0]);
      DisjunctionParses(bare, cs[0]);
      assert Evals(w, bound, scope, cs) == [Eval(w, bound, scope, cs[0])];
    } else {
      assert Evals(w, bound, scope, cs) == [];
    }
  }

  /**
   * Correctness of the compiler: a `$where` is written as nothing where it names no condition, and as a `WHERE` whose
   * condition, read with SQL's precedence off the values the statement bound, is as true of a row as the `$where` is. A
   * `NOT` may come right after another in it and is read so; `RepeatedNot.StandardCompiles` is the same by a grammar
   * that takes one.
   */
  lemma WhereCompiles(
    m: Mode, w: World, alias: string, where: Where, n: nat, taken: set<string>, bound: seq<Value>, scope: Scope)
    requires m.dialect == w.dialect && !ClausesRefused(m.dialect, where.clauses) && !ClausesNegateNothing(where.clauses)
    requires Holds(bound, n, WhereFragment(m, alias, false, LeadWhere, where, n, taken).values)
    ensures var text := WhereFragment(m, alias, false, LeadWhere, where, n, taken).text;
            match WhereMeaning(w, RowAt(scope, alias), where)
            case NoCondition => text == []
            case Condition(truth) => text != [] && text[0] == KwWhere && ReadsAs(w, bound, scope, text[1..], truth)
  {
    LeadStandsBefore(m, alias, where, n, taken);
    BareCompiles(m, w, alias, where, n, taken, bound, scope);
  }

  /** An operand reads as itself beside any other, under a `NOT`, an `AND` or an `OR`. */
  lemma OperandInContext(t: Tokens, c: Cond, other: Tokens, d: Cond)
    requires IsFactor(t, c) && IsFactor(other, d)
    ensures ParseOr(t) == Read(c, [])
    ensures ParseOr([KwNot] + t) == Read(Negated(c), [])
    ensures ParseOr(t + [KwAnd] + other) == Read(Both(c, d), [])
    ensures ParseOr(t + [KwOr] + other) == Read(Either(c, d), [])
  {
    FactorFits(false, t, c);
    DisjunctionParses(t, c);
    NotIsFactor(t, c);
    FactorFits(false, [KwNot] + t, Negated(c));
    DisjunctionParses([KwNot] + t, Negated(c));
    forall and: bool
      ensures ParseOr(t + [OpOf(and)] + other) == Read(if and then Both(c, d) else Either(c, d), [])
    {
      var parts, cs := [t, other], [c, d];
      JoinShape(parts, cs, and);
      assert parts[1..] == [other] && cs[1..] == [d];
      assert FlatTree(c, [d], and) == if and then Both(c, d) else Either(c, d);
      assert Join(parts, OpOf(and)) == t + [OpOf(and)] + other;
      DisjunctionParses(t + [OpOf(and)] + other, if and then Both(c, d) else Either(c, d));
    }
    assert OpOf(true) == KwAnd && OpOf(false) == KwOr;
    assert ParseOr(t + [OpOf(true)] + other) == Read(Both(c, d), []);
    assert ParseOr(t + [OpOf(false)] + other) == Read(Either(c, d), []);
  }

  /**
   * The same where the condition is rendered as an operand, as a `MERGE` condition and a `CASE WHEN` guard are: no
   * parentheses are missing beside another condition, whichever connective joins them.
   */
  lemma OperandCompiles(
    m: Mode, w: World, alias: string, where: Where, n: nat, taken: set<string>, bound: seq<Value>, scope: Scope,
    other: Tokens, d: Cond)
    requires m.dialect == w.dialect && !ClausesRefused(m.dialect, where.clauses) && !ClausesNegateNothing(where.clauses)
    requires Holds(bound, n, WhereFragment(m, alias, true, Bare, where, n, taken).values)
    requires IsFactor(other, d)
    ensures var text := WhereFragment(m, alias, true, Bare, where, n, taken).text;
            match WhereMeaning(w, RowAt(scope, alias), where)
            case NoCondition => text == []
            case Condition(truth) =>
              var beside := Eval(w, bound, scope, d);
              && text != []
              && ReadsAs(w, bound, scope, text, truth)
              && ReadsAs(w, bound, scope, [KwNot] + text, Not(truth))
              && ReadsAs(w, bound, scope, text + [KwAnd] + other, And(truth, beside))
              && ReadsAs(w, bound, scope, text + [KwOr] + other, Or(truth, beside))
  {
    hide WhereFragment, ParseOr, ParseNot, WhereMeaning;
    var cs := WhereReads(m, w, alias, true, where, n, taken, bound);
    var text := WhereFragment(m, alias, true, Bare, where, n, taken).text;
    assert Evals(w, bound, scope, cs) == TermsOf(WhereMeaning(w, RowAt(scope, alias), where));
    if text != [] {
      assert Fits(true, Kept(text)[0], cs[0]);
      OperandInContext(text, cs[0], other, d);
      assert Evals(w, bound, scope, cs) == [Eval(w, bound, scope, cs[0])];
    } else {
      assert Evals(w, bound, scope, cs) == [];
    }
  }
}
