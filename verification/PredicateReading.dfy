/** A field's condition, as the engine reads the text written for it. */
module PredicateReading {
  import opened Sequences
  import opened Ternary
  import opened Values
  import opened SqlText
  import opened SqlShapes
  import opened Filters
  import opened LikePatterns
  import opened WhereText

  /** The statement's values hold `values` from the `n`-th on. */
  predicate Holds(bound: seq<Value>, n: nat, values: seq<Value>) {
    n + |values| <= |bound| && bound[n..n + |values|] == values
  }

  lemma HoldsSplits(bound: seq<Value>, n: nat, a: seq<Value>, b: seq<Value>)
    requires Holds(bound, n, a + b)
    ensures Holds(bound, n, a) && Holds(bound, n + |a|, b)
  {
    var all := bound[n..n + |a + b|];
    assert all[..|a|] == a && all[|a|..] == b;
    assert bound[n..n + |a|] == all[..|a|];
    assert bound[n + |a|..n + |a| + |b|] == all[|a|..];
  }

  predicate IsTarget(t: Token) {
    t.Column? || t.JsonPath?
  }

  function TargetTerm(t: Token): Term
    requires IsTarget(t)
  {
    match t
    case Column(a, n) => Col(a, n)
    case JsonPath(a, n, p) => PathOf(a, n, p)
  }

  // ----- values -----

  function ValueTerm(m: Mode, alias: string, x: Operand, n: nat): Term {
    match x
    case Given(v) => if m.inlined then Lit(Normalize(m.dialect, v)) else Param(n + 1)
    case Ref(c) => Col(alias, c)
  }

  function ValueTerms(m: Mode, alias: string, xs: seq<Operand>, n: nat): seq<Term> {
    if xs == [] then []
    else [ValueTerm(m, alias, xs[0], n)]
         + ValueTerms(m, alias, xs[1..], n + |ValueText(m, alias, xs[0], n).values|)
  }

  lemma ValueReads(m: Mode, alias: string, x: Operand, n: nat, rest: Tokens)
    ensures |ValueText(m, alias, x, n).text| == 1
    ensures ParseTerm(ValueText(m, alias, x, n).text + rest) == Read(ValueTerm(m, alias, x, n), rest)
  {
    assert (ValueText(m, alias, x, n).text + rest)[1..] == rest;
  }

  lemma ValueMeans(m: Mode, w: World, alias: string, x: Operand, n: nat, bound: seq<Value>, scope: Scope)
    requires m.dialect == w.dialect && Holds(bound, n, ValueText(m, alias, x, n).values)
    ensures EvalTerm(w, bound, scope, ValueTerm(m, alias, x, n)) == OperandValue(w, RowAt(scope, alias), x)
  {
    if x.Given? && !m.inlined {
      assert bound[n] == bound[n..n + 1][0];
    }
  }

  lemma TermsPrepend(a: Tokens, t: Term, b: Tokens, more: seq<Term>, end: Tokens)
    requires ParseTerm(a) == Read(t, [Comma] + b) && ParseTerms(b) == Read(more, end)
    ensures ParseTerms(a) == Read([t] + more, end)
  {
    assert ([Comma] + b)[1..] == b;
  }

  lemma {:induction false} ValueCount(m: Mode, alias: string, xs: seq<Operand>, n: nat)
    ensures |ValueTexts(m, alias, xs, n).parts| == |xs|
  {
    if xs != [] {
      ValueCount(m, alias, xs[1..], n + |ValueText(m, alias, xs[0], n).values|);
    }
  }

  lemma {:induction false} ValuesRead(m: Mode, alias: string, xs: seq<Operand>, n: nat, rest: Tokens)
    requires xs != [] && (rest == [] || rest[0] != Comma)
    ensures ParseTerms(Join(ValueTexts(m, alias, xs, n).parts, Comma) + rest)
         == Read(ValueTerms(m, alias, xs, n), rest)
    decreases |xs|
  {
    var first := ValueText(m, alias, xs[0], n);
    var n' := n + |first.values|;
    ValueCount(m, alias, xs[1..], n');
    var more := ValueTexts(m, alias, xs[1..], n').parts;
    assert ValueTexts(m, alias, xs, n).parts == [first.text] + more;
    if |xs| == 1 {
      ValueReads(m, alias, xs[0], n, rest);
      assert ValueTerms(m, alias, xs, n) == [ValueTerm(m, alias, xs[0], n)];
      assert [first.text] + more == [first.text];
      assert Join([first.text], Comma) == first.text;
    } else {
      ValuesRead(m, alias, xs[1..], n', rest);
      JoinThen(first.text, more, rest);
      var tail := Join(more, Comma) + rest;
      ValueReads(m, alias, xs[0], n, [Comma] + tail);
      TermsPrepend(first.text + ([Comma] + tail), ValueTerm(m, alias, xs[0], n), tail,
                   ValueTerms(m, alias, xs[1..], n'), rest);
    }
  }

  lemma JoinThen(first: Tokens, more: seq<Tokens>, rest: Tokens)
    requires more != []
    ensures Join([first] + more, Comma) + rest == first + ([Comma] + (Join(more, Comma) + rest))
  {
    assert ([first] + more)[1..] == more;
  }

  lemma {:induction false} ArgsRead(m: Mode, alias: string, xs: seq<Operand>, n: nat, rest: Tokens)
    ensures ParseArgs(|xs|, Flat(ValueTexts(m, alias, xs, n).parts) + rest)
         == Read(ValueTerms(m, alias, xs, n), rest)
    decreases |xs|
  {
    var flat := Flat(ValueTexts(m, alias, xs, n).parts);
    if xs == [] {
      NothingBefore(rest);
    } else {
      var first := ValueText(m, alias, xs[0], n);
      var more := ValueTexts(m, alias, xs[1..], n + |first.values|);
      ArgsRead(m, alias, xs[1..], n + |first.values|, rest);
      HeadOf(first.text, more.parts);
      assert flat == first.text + Flat(more.parts);
      Regroup(first.text, Flat(more.parts), rest);
      ValueReads(m, alias, xs[0], n, Flat(more.parts) + rest);
      ArgsPrepend(|xs|, flat + rest, ValueTerm(m, alias, xs[0], n), Flat(more.parts) + rest,
                  ValueTerms(m, alias, xs[1..], n + |first.values|), rest);
    }
  }

  lemma ArgsPrepend(n: nat, ts: Tokens, t: Term, after: Tokens, more: seq<Term>, rest: Tokens)
    requires n > 0 && ParseTerm(ts) == Read(t, after) && ParseArgs(n - 1, after) == Read(more, rest)
    ensures ParseArgs(n, ts) == Read([t] + more, rest)
  {
  }

  lemma {:induction false} ValuesMean(
    m: Mode, w: World, alias: string, xs: seq<Operand>, n: nat, bound: seq<Value>, scope: Scope)
    requires m.dialect == w.dialect && Holds(bound, n, ValueTexts(m, alias, xs, n).values)
    ensures EvalTerms(w, bound, scope, ValueTerms(m, alias, xs, n)) == OperandValues(w, RowAt(scope, alias), xs)
    decreases |xs|
  {
    if xs != [] {
      var first := ValueText(m, alias, xs[0], n);
      var n' := n + |first.values|;
      HoldsSplits(bound, n, first.values, ValueTexts(m, alias, xs[1..], n').values);
      ValueMeans(m, w, alias, xs[0], n, bound, scope);
      ValuesMean(m, w, alias, xs[1..], n', bound, scope);
      TermsThen(w, bound, scope, ValueTerm(m, alias, xs[0], n), ValueTerms(m, alias, xs[1..], n'));
      OperandsThen(w, RowAt(scope, alias), xs);
    }
  }

  lemma TermsThen(w: World, bound: seq<Value>, scope: Scope, t: Term, ts: seq<Term>)
    ensures EvalTerms(w, bound, scope, [t] + ts) == [EvalTerm(w, bound, scope, t)] + EvalTerms(w, bound, scope, ts)
  {
  }

  lemma OperandsThen(w: World, row: Row, xs: seq<Operand>)
    requires xs != []
    ensures OperandValues(w, row, xs) == [OperandValue(w, row, xs[0])] + OperandValues(w, row, xs[1..])
  {
  }

  // ----- raw SQL -----

  lemma RawReads(m: Mode, alias: string, raw: RawSql, n: nat)
    ensures IsFactor(RawText(m, alias, raw, n).text, RawCond(raw.sql, alias,
                                                             ValueTerms(m, alias, GivenAll(raw.args), n)))
  {
    hide ParseTail, ParseOr, ParseTerm;
    forall rest: Tokens
      ensures ParseNot(RawText(m, alias, raw, n).text + rest)
           == Read(RawCond(raw.sql, alias, ValueTerms(m, alias, GivenAll(raw.args), n)), rest)
    {
      var flat := Flat(ValueTexts(m, alias, GivenAll(raw.args), n).parts);
      assert (RawText(m, alias, raw, n).text + rest)[1..] == flat + rest;
      ArgsRead(m, alias, GivenAll(raw.args), n, rest);
    }
  }

  lemma RawExistsReads(m: Mode, alias: string, raw: RawSql, n: nat)
    ensures IsFactor([KwExists] + Parens(RawText(m, alias, raw, n).text),
                     RawExists(raw.sql, alias, ValueTerms(m, alias, GivenAll(raw.args), n)))
  {
    var terms := ValueTerms(m, alias, GivenAll(raw.args), n);
    var inner := RawText(m, alias, raw, n).text;
    forall rest: Tokens
      ensures ParseNot([KwExists] + Parens(inner) + rest) == Read(RawExists(raw.sql, alias, terms), rest)
    {
      var flat := Flat(ValueTexts(m, alias, GivenAll(raw.args), n).parts);
      var ts := [KwExists] + Parens(inner) + rest;
      assert ts == [KwExists, LParen, Raw(raw.sql, alias, |raw.args|)] + (flat + ([RParen] + rest));
      assert ts[3..] == flat + ([RParen] + rest);
      ArgsRead(m, alias, GivenAll(raw.args), n, [RParen] + rest);
      assert ([RParen] + rest)[1..] == rest;
    }
  }

  lemma RawMeans(m: Mode, w: World, alias: string, raw: RawSql, n: nat, bound: seq<Value>, scope: Scope)
    requires m.dialect == w.dialect && Holds(bound, n, RawText(m, alias, raw, n).values)
    ensures EvalTerms(w, bound, scope, ValueTerms(m, alias, GivenAll(raw.args), n)) == ArgValues(w, raw)
  {
    ValuesMean(m, w, alias, GivenAll(raw.args), n, bound, scope);
  }

  // ----- one predicate -----

  /** Whatever follows `tail`, it completes the predicate on `a` as `c`. */
  ghost predicate IsTail(a: Term, tail: Tokens, c: Cond) {
    forall rest: Tokens :: ParseTail(a, tail + rest) == Read(c, rest)
  }

  lemma TargetThenTail(target: Token, tail: Tokens, c: Cond)
    requires IsTarget(target) && IsTail(TargetTerm(target), tail, c)
    ensures IsFactor([target] + tail, c)
  {
    hide ParseTail, ParseOr, ParseArgs;
    forall rest: Tokens ensures ParseNot([target] + tail + rest) == Read(c, rest) {
      assert ([target] + tail + rest)[1..] == tail + rest;
    }
  }

  lemma LowerReads(target: Token, rest: Tokens)
    requires IsTarget(target)
    ensures ParseTerm([KwLower, LParen, target, RParen] + rest) == Read(Lower(TargetTerm(target)), rest)
  {
    var ts := [KwLower, LParen, target, RParen] + rest;
    var after := [RParen] + rest;
    assert ts[2..] == [target] + after;
    assert ([target] + after)[1..] == after;
    assert ParseTerm(ts[2..]) == Read(TargetTerm(target), after);
    assert after[1..] == rest;
  }

  lemma LoweredThenTail(target: Token, tail: Tokens, c: Cond)
    requires IsTarget(target) && IsTail(Lower(TargetTerm(target)), tail, c)
    ensures IsFactor([KwLower, LParen, target, RParen] + tail, c)
  {
    hide ParseTail, ParseOr, ParseTerm, ParsePrimary;
    var lowered := [KwLower, LParen, target, RParen];
    forall rest: Tokens ensures ParseNot(lowered + tail + rest) == Read(c, rest) {
      LowerReads(target, tail + rest);
      assert lowered + tail + rest == lowered + (tail + rest);
      LoweredPrimary(lowered + (tail + rest), Lower(TargetTerm(target)), tail + rest);
    }
  }

  lemma LoweredPrimary(ts: Tokens, a: Term, rest: Tokens)
    requires ts != [] && ts[0] == KwLower && ParseTerm(ts) == Read(a, rest)
    ensures ParseNot(ts) == ParseTail(a, rest)
  {
  }

  lemma ComparisonTail(m: Mode, alias: string, a: Term, op: CompareOp, x: Operand, n: nat)
    ensures IsTail(a, [Symbol(op)] + ValueText(m, alias, x, n).text, Compare(op, a, ValueTerm(m, alias, x, n)))
  {
    var v := ValueText(m, alias, x, n).text;
    forall rest: Tokens
      ensures ParseTail(a, [Symbol(op)] + v + rest) == Read(Compare(op, a, ValueTerm(m, alias, x, n)), rest)
    {
      assert ([Symbol(op)] + v + rest)[1..] == v + rest;
      ValueReads(m, alias, x, n, rest);
    }
  }

  /** A text that is read as one term whatever follows it. */
  ghost predicate IsTerm(t: Tokens, term: Term) {
    forall rest: Tokens :: ParseTerm(t + rest) == Read(term, rest)
  }

  lemma ValueIsTerm(m: Mode, alias: string, x: Operand, n: nat)
    ensures IsTerm(ValueText(m, alias, x, n).text, ValueTerm(m, alias, x, n))
  {
    forall rest: Tokens ensures ParseTerm(ValueText(m, alias, x, n).text + rest)
      == Read(ValueTerm(m, alias, x, n), rest) {
      ValueReads(m, alias, x, n, rest);
    }
  }

  lemma BetweenTail(a: Term, lo: Tokens, hi: Tokens, min: Term, max: Term)
    requires IsTerm(lo, min) && IsTerm(hi, max)
    ensures IsTail(a, [KwBetween] + lo + [KwAnd] + hi, InRange(a, min, max))
  {
    forall rest: Tokens ensures ParseTail(a, [KwBetween] + lo + [KwAnd] + hi + rest)
      == Read(InRange(a, min, max), rest) {
      var after := [KwAnd] + (hi + rest);
      Regroup([KwBetween] + lo + [KwAnd], hi, rest);
      RegroupAll([KwBetween], lo, [KwAnd], hi + rest);
      HeadOf(KwBetween, lo + after);
      HeadOf(KwAnd, hi + rest);
      assert ParseTerm(lo + after) == Read(min, after) && ParseTerm(hi + rest) == Read(max, rest);
    }
  }

  lemma LikeTail(m: Mode, alias: string, a: Term, x: Operand, n: nat)
    ensures IsTail(a, [KwLike] + ValueText(m, alias, x, n).text + [KwEscape, Literal(Str("\\"))],
                   LikeText(a, ValueTerm(m, alias, x, n)))
  {
    var v := ValueText(m, alias, x, n).text;
    var escape := [KwEscape, Literal(Str("\\"))];
    forall rest: Tokens
      ensures ParseTail(a, [KwLike] + v + escape + rest) == Read(LikeText(a, ValueTerm(m, alias, x, n)), rest)
    {
      assert ([KwLike] + v + escape + rest)[1..] == v + (escape + rest);
      ValueReads(m, alias, x, n, escape + rest);
      assert (escape + rest)[2..] == rest;
    }
  }

  lemma RegexTail(m: Mode, alias: string, a: Term, x: Operand, n: nat)
    ensures IsTail(a, [KwRegexp] + ValueText(m, alias, x, n).text, RegexText(a, ValueTerm(m, alias, x, n)))
  {
    var v := ValueText(m, alias, x, n).text;
    forall rest: Tokens
      ensures ParseTail(a, [KwRegexp] + v + rest) == Read(RegexText(a, ValueTerm(m, alias, x, n)), rest)
    {
      assert ([KwRegexp] + v + rest)[1..] == v + rest;
      ValueReads(m, alias, x, n, rest);
    }
  }

  lemma NullTail(a: Term, isNull: bool)
    ensures IsTail(a, [KwIs] + (if isNull then [] else [KwNot]) + [KwNull], if isNull then IsNull(a)
                   else Negated(IsNull(a)))
  {
    var tail := [KwIs] + (if isNull then [] else [KwNot]) + [KwNull];
    forall rest: Tokens
      ensures ParseTail(a, tail + rest) == Read(if isNull then IsNull(a) else Negated(IsNull(a)), rest)
    {
      assert (tail + rest)[|tail|..] == rest;
    }
  }

  lemma InTail(m: Mode, alias: string, a: Term, xs: seq<Operand>, negate: bool, n: nat)
    requires xs != []
    ensures var one := OneOf(a, ValueTerms(m, alias, xs, n));
            IsTail(a, (if negate then [KwNot] else []) + [KwIn]
                      + Parens(Join(ValueTexts(m, alias, xs, n).parts, Comma)),
                   if negate then Negated(one) else one)
  {
    var one := OneOf(a, ValueTerms(m, alias, xs, n));
    var list := Join(ValueTexts(m, alias, xs, n).parts, Comma);
    var opening := (if negate then [KwNot] else []) + [KwIn];
    forall rest: Tokens
      ensures ParseTail(a, opening + Parens(list) + rest) == Read(if negate then Negated(one) else one, rest)
    {
      ValuesRead(m, alias, xs, n, [RParen] + rest);
      ListTail(a, negate, list, ValueTerms(m, alias, xs, n), rest);
    }
  }

  lemma ListTail(a: Term, negate: bool, list: Tokens, terms: seq<Term>, rest: Tokens)
    requires ParseTerms(list + ([RParen] + rest)) == Read(terms, [RParen] + rest)
    ensures ParseTail(a, (if negate then [KwNot] else []) + [KwIn] + Parens(list) + rest)
         == Read(if negate then Negated(OneOf(a, terms)) else OneOf(a, terms), rest)
  {
    var opening := (if negate then [KwNot] else []) + [KwIn];
    var inside := [LParen] + (list + ([RParen] + rest));
    Regroup(opening, Parens(list), rest);
    Regroup([LParen] + list, [RParen], rest);
    Regroup([LParen], list, [RParen] + rest);
    assert opening + Parens(list) + rest == opening + inside;
    AfterHead(opening, inside);
    HeadOf(LParen, list + ([RParen] + rest));
    HeadOf(RParen, rest);
  }

  // ----- lists of values -----

  lemma {:induction false} OneOfMeans(w: World, v: Value, xs: seq<Value>)
    ensures EvalAnyEqual(w, v, xs) == AnyOf(EqualTo(w, v, xs))
  {
    if xs != [] {
      OneOfMeans(w, v, xs[1..]);
      assert EqualTo(w, v, xs)[1..] == EqualTo(w, v, xs[1..]);
    }
  }

  function ComparedConds(a: Term, op: CompareOp, ts: seq<Term>): seq<Cond> {
    seq(|ts|, i requires 0 <= i < |ts| => Compare(op, a, ts[i]))
  }

  lemma {:induction false} EachComparedReads(
    m: Mode, alias: string, target: Token, op: CompareOp, xs: seq<Operand>, n: nat)
    requires IsTarget(target)
    ensures AllFactors(EachCompared(target, op, ValueTexts(m, alias, xs, n).parts),
                       ComparedConds(TargetTerm(target), op, ValueTerms(m, alias, xs, n)))
    decreases |xs|
  {
    if xs != [] {
      var first := ValueText(m, alias, xs[0], n);
      var n' := n + |first.values|;
      EachComparedReads(m, alias, target, op, xs[1..], n');
      ComparisonTail(m, alias, TargetTerm(target), op, xs[0], n);
      TargetThenTail(target, [Symbol(op)] + first.text, Compare(op, TargetTerm(target), ValueTerm(m, alias, xs[0], n)));
      assert [target] + ([Symbol(op)] + first.text) == [target, Symbol(op)] + first.text;
      EachThen(target, op, first.text, ValueTexts(m, alias, xs[1..], n').parts, ValueTerm(m, alias, xs[0], n),
               ValueTerms(m, alias, xs[1..], n'));
    }
  }

  lemma EachThen(target: Token, op: CompareOp, part: Tokens, parts: seq<Tokens>, t: Term, ts: seq<Term>)
    requires IsTarget(target) && IsFactor([target, Symbol(op)] + part, Compare(op, TargetTerm(target), t))
    requires AllFactors(EachCompared(target, op, parts), ComparedConds(TargetTerm(target), op, ts))
    ensures AllFactors(EachCompared(target, op, [part] + parts), ComparedConds(TargetTerm(target), op, [t] + ts))
  {
    FactorThen([target, Symbol(op)] + part, EachCompared(target, op, parts), Compare(op, TargetTerm(target), t),
               ComparedConds(TargetTerm(target), op, ts));
    assert EachCompared(target, op, [part] + parts) == [[target, Symbol(op)] + part] + EachCompared(target, op, parts);
    assert ComparedConds(TargetTerm(target), op, [t] + ts)
        == [Compare(op, TargetTerm(target), t)] + ComparedConds(TargetTerm(target), op, ts);
  }

  lemma EqualNext(w: World, v: Value, xs: seq<Value>)
    requires xs != []
    ensures AnyOf(EqualTo(w, v, xs)) == Or(Compared(w, Eq, v, xs[0]), AnyOf(EqualTo(w, v, xs[1..])))
  {
    assert EqualTo(w, v, xs)[1..] == EqualTo(w, v, xs[1..]);
  }

  lemma ComparedNext(w: World, bound: seq<Value>, scope: Scope, a: Term, op: CompareOp, ts: seq<Term>)
    requires ts != []
    ensures Evals(w, bound, scope, ComparedConds(a, op, ts))
         == [Compared(w, op, EvalTerm(w, bound, scope, a), EvalTerm(w, bound, scope, ts[0]))]
            + Evals(w, bound, scope, ComparedConds(a, op, ts[1..]))
  {
    assert ComparedConds(a, op, ts) == [Compare(op, a, ts[0])] + ComparedConds(a, op, ts[1..]);
  }

  /** Any of the comparisons for equality spelled out is membership. */
  lemma {:induction false} EqualsMean(w: World, bound: seq<Value>, scope: Scope, a: Term, ts: seq<Term>)
    ensures AnyOf(Evals(w, bound, scope, ComparedConds(a, Eq, ts)))
         == AnyOf(EqualTo(w, EvalTerm(w, bound, scope, a), EvalTerms(w, bound, scope, ts)))
    decreases |ts|
  {
    hide EvalTerm;
    if ts != [] {
      var v, xs := EvalTerm(w, bound, scope, a), EvalTerms(w, bound, scope, ts);
      EqualsMean(w, bound, scope, a, ts[1..]);
      assert xs[1..] == EvalTerms(w, bound, scope, ts[1..]);
      ComparedNext(w, bound, scope, a, Eq, ts);
      EqualNext(w, v, xs);
    }
  }

  /** All of those for inequality are its negation. */
  lemma {:induction false} UnequalsMean(w: World, bound: seq<Value>, scope: Scope, a: Term, ts: seq<Term>)
    ensures AllOf(Evals(w, bound, scope, ComparedConds(a, Ne, ts)))
         == Not(AnyOf(EqualTo(w, EvalTerm(w, bound, scope, a), EvalTerms(w, bound, scope, ts))))
    decreases |ts|
  {
    hide EvalTerm;
    if ts != [] {
      var v, xs := EvalTerm(w, bound, scope, a), EvalTerms(w, bound, scope, ts);
      UnequalsMean(w, bound, scope, a, ts[1..]);
      assert xs[1..] == EvalTerms(w, bound, scope, ts[1..]);
      ComparedNext(w, bound, scope, a, Ne, ts);
      EqualNext(w, v, xs);
    }
  }
}
