/** The text written for a `$where`, read as SQL reads it, means what the `$where` means. */
module WhereCorrectness {
  import opened Ternary
  import opened Values
  import opened SqlText
  import opened SqlShapes
  import opened Filters
  import opened LikePatterns
  import opened WhereText
  import opened PredicateReading

  // ----- one operator -----

  lemma LikeMeans(w: World, v: Value, kind: LikeKind, insensitive: bool, text: string)
    requires WrittenLike(w.dialect, kind, insensitive, text).Some?
    ensures Liked(if insensitive then Folded(w.dialect, v) else v,
                  Str(WrittenLike(w.dialect, kind, insensitive, text).value))
         == LikeMeaning(w, v, kind, insensitive, text)
  {
    var asked := if insensitive then w.dialect.fold(text) else text;
    if v.Str? {
      var s := if insensitive then w.dialect.fold(v.s) else v.s;
      match kind
      case Pattern => PatternMeansTheSameEverywhere(asked, s, (ts, r) => false);
      case StartsWith => StartsWithIsPrefix(asked, s);
      case EndsWith => EndsWithIsSuffix(asked, s);
      case Includes => IncludesIsSubstring(asked, s);
    }
  }

  lemma LikeReads(
    m: Mode, w: World, alias: string, target: Token, kind: LikeKind, insensitive: bool, text: string, n: nat,
    bound: seq<Value>) returns (c: Cond)
    requires m.dialect == w.dialect && IsTarget(target)
    requires WrittenLike(m.dialect, kind, insensitive, text).Some?
    requires Holds(bound, n, LeafText(m, alias, target, false, Like(kind, insensitive, text), n).values)
    ensures IsFactor(LeafText(m, alias, target, false, Like(kind, insensitive, text), n).text, c)
    ensures forall scope ::
              Eval(w, bound, scope, c) ==
              LikeMeaning(w, EvalTerm(w, bound, scope, TargetTerm(target)), kind, insensitive, text)
  {
    var x := Given(Str(WrittenLike(m.dialect, kind, insensitive, text).value));
    var a := if insensitive then Lower(TargetTerm(target)) else TargetTerm(target);
    var left := if insensitive then [KwLower, LParen, target, RParen] else [target];
    var tail := [KwLike] + ValueText(m, alias, x, n).text + [KwEscape, Literal(Str("\\"))];
    c := LikeText(a, ValueTerm(m, alias, x, n));
    LikeTail(m, alias, a, x, n);
    if insensitive {
      LoweredThenTail(target, tail, c);
    } else {
      TargetThenTail(target, tail, c);
    }
    assert LeafText(m, alias, target, false, Like(kind, insensitive, text), n).text == left + tail;
    forall scope ensures Eval(w, bound, scope, c)
        == LikeMeaning(w, EvalTerm(w, bound, scope, TargetTerm(target)), kind, insensitive, text)
    {
      ValueMeans(m, w, alias, x, n, bound, scope);
      LikeMeans(w, EvalTerm(w, bound, scope, TargetTerm(target)), kind, insensitive, text);
    }
  }

  lemma InBooleansReads(
    m: Mode, w: World, alias: string, target: Token, xs: seq<Operand>, negate: bool, n: nat, bound: seq<Value>)
    returns (c: Cond)
    requires m.dialect == w.dialect && IsTarget(target) && AllBooleans(xs)
    requires Holds(bound, n, ValueTexts(m, alias, xs, n).values)
    ensures IsFactor(InText(m, alias, target, true, xs, negate, n).text, c)
    ensures forall scope ::
              Eval(w, bound, scope, c) ==
              OpMeaning(w, RowAt(scope, alias), EvalTerm(w, bound, scope, TargetTerm(target)), In(xs, negate))
  {
    var a, op := TargetTerm(target), if negate then Ne else Eq;
    var terms := ValueTerms(m, alias, xs, n);
    EachComparedReads(m, alias, target, op, xs, n);
    ValueCount(m, alias, xs, n);
    var parts, cs := EachCompared(target, op, ValueTexts(m, alias, xs, n).parts), ComparedConds(a, op, terms);
    JoinShape(parts, cs, negate);
    c := FlatTree(cs[0], cs[1..], negate);
    ParensAreFactor(Join(parts, OpOf(negate)), c);
    forall scope ensures Eval(w, bound, scope, c)
      == OpMeaning(w, RowAt(scope, alias), EvalTerm(w, bound, scope, a), In(xs, negate))
    {
      FlatTreeMeans(w, bound, scope, cs[0], cs[1..], negate);
      assert Evals(w, bound, scope, cs) == [Eval(w, bound, scope, cs[0])] + Evals(w, bound, scope, cs[1..]);
      EqualsMean(w, bound, scope, a, terms);
      UnequalsMean(w, bound, scope, a, terms);
      ValuesMean(m, w, alias, xs, n, bound, scope);
    }
  }

  lemma InListReads(
    m: Mode, w: World, alias: string, target: Token, json: bool, xs: seq<Operand>, negate: bool, n: nat,
    bound: seq<Value>) returns (c: Cond)
    requires m.dialect == w.dialect && IsTarget(target) && xs != [] && !(json && AllBooleans(xs))
    requires Holds(bound, n, ValueTexts(m, alias, xs, n).values)
    ensures IsFactor(InText(m, alias, target, json, xs, negate, n).text, c)
    ensures forall scope ::
              Eval(w, bound, scope, c) ==
              OpMeaning(w, RowAt(scope, alias), EvalTerm(w, bound, scope, TargetTerm(target)), In(xs, negate))
  {
    hide ValueTexts, Join, ParseNot, ParseTail;
    var a, terms := TargetTerm(target), ValueTerms(m, alias, xs, n);
    var tail := (if negate then [KwNot] else []) + [KwIn] + Parens(Join(ValueTexts(m, alias, xs, n).parts, Comma));
    c := if negate then Negated(OneOf(a, terms)) else OneOf(a, terms);
    InTail(m, alias, a, xs, negate, n);
    TargetThenTail(target, tail, c);
    assert InText(m, alias, target, json, xs, negate, n).text == [target] + tail;
    forall scope ensures Eval(w, bound, scope, c)
      == OpMeaning(w, RowAt(scope, alias), EvalTerm(w, bound, scope, a), In(xs, negate))
    {
      ValuesMean(m, w, alias, xs, n, bound, scope);
      OneOfMeans(w, EvalTerm(w, bound, scope, a), OperandValues(w, RowAt(scope, alias), xs));
    }
  }

  lemma InReads(
    m: Mode, w: World, alias: string, target: Token, json: bool, xs: seq<Operand>, negate: bool, n: nat,
    bound: seq<Value>) returns (c: Cond)
    requires m.dialect == w.dialect && IsTarget(target)
    requires Holds(bound, n, InText(m, alias, target, json, xs, negate, n).values)
    ensures IsFactor(InText(m, alias, target, json, xs, negate, n).text, c)
    ensures forall scope ::
              Eval(w, bound, scope, c) ==
              OpMeaning(w, RowAt(scope, alias), EvalTerm(w, bound, scope, TargetTerm(target)), In(xs, negate))
  {
    if xs == [] {
      c := EmptyIn(m, alias, target, json, negate, n);
      var a := TargetTerm(target);
      forall scope ensures EqualTo(w, EvalTerm(w, bound, scope, a), OperandValues(w, RowAt(scope, alias), xs)) == [] {}
    } else if json && AllBooleans(xs) {
      c := InBooleansReads(m, w, alias, target, xs, negate, n, bound);
    } else {
      c := InListReads(m, w, alias, target, json, xs, negate, n, bound);
    }
  }

  /** No value is in an empty list, a NULL one included: `1 = 0`, or `1 = 1` where negated. */
  lemma EmptyIn(m: Mode, alias: string, target: Token, json: bool, negate: bool, n: nat) returns (c: Cond)
    ensures IsFactor(InText(m, alias, target, json, [], negate, n).text, c)
    ensures c == Compare(Eq, Lit(Num(1)), Lit(Num(if negate then 1 else 0)))
  {
    c := Compare(Eq, Lit(Num(1)), Lit(Num(if negate then 1 else 0)));
    var t := InText(m, alias, target, json, [], negate, n).text;
    forall rest: Tokens ensures ParseNot(t + rest) == Read(c, rest) {
      var ts := t + rest;
      assert ts[1..] == [Symbol(Eq), Literal(Num(if negate then 1 else 0))] + rest;
      assert ts[1..][1..] == [Literal(Num(if negate then 1 else 0))] + rest;
      assert ts[1..][1..][1..] == rest;
    }
  }

  lemma ComparisonReads(
    m: Mode, w: World, alias: string, target: Token, cmp: CompareOp, x: Operand, n: nat,
    bound: seq<Value>) returns (c: Cond)
    requires m.dialect == w.dialect && IsTarget(target)
    requires Holds(bound, n, LeafText(m, alias, target, false, Comparison(cmp, x), n).values)
    ensures IsFactor(LeafText(m, alias, target, false, Comparison(cmp, x), n).text, c)
    ensures forall scope ::
              Eval(w, bound, scope, c) ==
              OpMeaning(w, RowAt(scope, alias), EvalTerm(w, bound, scope, TargetTerm(target)), Comparison(cmp, x))
  {
    var a := TargetTerm(target);
    if x == Given(Null) && (cmp == Eq || cmp == Ne) {
      c := NullReads(target, cmp == Eq);
    } else {
      var v := ValueText(m, alias, x, n).text;
      c := Compare(cmp, a, ValueTerm(m, alias, x, n));
      ComparisonTail(m, alias, a, cmp, x, n);
      TargetThenTail(target, [Symbol(cmp)] + v, c);
      assert [target] + ([Symbol(cmp)] + v) == [target, Symbol(cmp)] + v;
      forall scope ensures EvalTerm(w, bound, scope, ValueTerm(m, alias, x, n))
        == OperandValue(w, RowAt(scope, alias), x) {
        ValueMeans(m, w, alias, x, n, bound, scope);
      }
    }
  }

  lemma BetweenFactor(target: Token, lo: Tokens, hi: Tokens, min: Term, max: Term)
    requires IsTarget(target) && IsTerm(lo, min) && IsTerm(hi, max)
    ensures IsFactor([target, KwBetween] + lo + [KwAnd] + hi, InRange(TargetTerm(target), min, max))
  {
    BetweenTail(TargetTerm(target), lo, hi, min, max);
    TargetThenTail(target, [KwBetween] + lo + [KwAnd] + hi, InRange(TargetTerm(target), min, max));
    assert [target] + ([KwBetween] + lo + [KwAnd] + hi) == [target, KwBetween] + lo + [KwAnd] + hi;
  }

  lemma BetweenReads(
    m: Mode, w: World, alias: string, target: Token, min: Operand, max: Operand, n: nat,
    bound: seq<Value>) returns (c: Cond)
    requires m.dialect == w.dialect && IsTarget(target)
    requires Holds(bound, n, LeafText(m, alias, target, false, Between(min, max), n).values)
    ensures IsFactor(LeafText(m, alias, target, false, Between(min, max), n).text, c)
    ensures forall scope ::
              Eval(w, bound, scope, c) ==
              OpMeaning(w, RowAt(scope, alias), EvalTerm(w, bound, scope, TargetTerm(target)), Between(min, max))
  {
    hide ParseNot, ParseOr, ValueText, ValueTerm, OperandValue;
    var lo := ValueText(m, alias, min, n);
    var n' := n + |lo.values|;
    HoldsSplits(bound, n, lo.values, ValueText(m, alias, max, n').values);
    ValueIsTerm(m, alias, min, n);
    ValueIsTerm(m, alias, max, n');
    BetweenFactor(target, lo.text, ValueText(m, alias, max, n').text, ValueTerm(m, alias, min, n),
                  ValueTerm(m, alias, max, n'));
    c := InRange(TargetTerm(target), ValueTerm(m, alias, min, n), ValueTerm(m, alias, max, n'));
    forall scope
      ensures EvalTerm(w, bound, scope, ValueTerm(m, alias, min, n)) == OperandValue(w, RowAt(scope, alias), min)
      ensures EvalTerm(w, bound, scope, ValueTerm(m, alias, max, n')) == OperandValue(w, RowAt(scope, alias), max)
    {
      ValueMeans(m, w, alias, min, n, bound, scope);
      ValueMeans(m, w, alias, max, n', bound, scope);
    }
  }

  lemma RegexReads(
    m: Mode, w: World, alias: string, target: Token, text: string, n: nat, bound: seq<Value>) returns (c: Cond)
    requires m.dialect == w.dialect && IsTarget(target)
    requires Holds(bound, n, LeafText(m, alias, target, false, Regex(text), n).values)
    ensures IsFactor(LeafText(m, alias, target, false, Regex(text), n).text, c)
    ensures forall scope ::
              Eval(w, bound, scope, c) ==
              OpMeaning(w, RowAt(scope, alias), EvalTerm(w, bound, scope, TargetTerm(target)), Regex(text))
  {
    var a := TargetTerm(target);
    var x := Given(Str(text));
    var v := ValueText(m, alias, x, n).text;
    c := RegexText(a, ValueTerm(m, alias, x, n));
    RegexTail(m, alias, a, x, n);
    TargetThenTail(target, [KwRegexp] + v, c);
    assert [target] + ([KwRegexp] + v) == [target, KwRegexp] + v;
    forall scope ensures EvalTerm(w, bound, scope, ValueTerm(m, alias, x, n)) == Str(text) {
      ValueMeans(m, w, alias, x, n, bound, scope);
    }
  }

  lemma LeafReads(
    m: Mode, w: World, alias: string, target: Token, json: bool, op: FieldOp, n: nat, bound: seq<Value>)
    returns (c: Cond)
    requires m.dialect == w.dialect && IsTarget(target)
    requires !op.NotOp? && !OpRefused(m.dialect, op)
    requires Holds(bound, n, LeafText(m, alias, target, json, op, n).values)
    ensures IsFactor(LeafText(m, alias, target, json, op, n).text, c)
    ensures forall scope ::
              Eval(w, bound, scope, c) ==
              OpMeaning(w, RowAt(scope, alias), EvalTerm(w, bound, scope, TargetTerm(target)), op)
  {
    if op.Like? || op.Regex? {
      c := TextReads(m, w, alias, target, json, op, n, bound);
    } else if op.In? {
      c := InReads(m, w, alias, target, json, op.operands, op.negate, n, bound);
    } else {
      c := ValueTestReads(m, w, alias, target, json, op, n, bound);
    }
  }

  lemma TextReads(
    m: Mode, w: World, alias: string, target: Token, json: bool, op: FieldOp, n: nat, bound: seq<Value>)
    returns (c: Cond)
    requires m.dialect == w.dialect && IsTarget(target)
    requires (op.Like? || op.Regex?) && !OpRefused(m.dialect, op)
    requires Holds(bound, n, LeafText(m, alias, target, json, op, n).values)
    ensures IsFactor(LeafText(m, alias, target, json, op, n).text, c)
    ensures forall scope ::
              Eval(w, bound, scope, c) ==
              OpMeaning(w, RowAt(scope, alias), EvalTerm(w, bound, scope, TargetTerm(target)), op)
  {
    match op
    case Like(kind, insensitive, text) => c := LikeReads(m, w, alias, target, kind, insensitive, text, n, bound);
    case Regex(text) => c := RegexReads(m, w, alias, target, text, n, bound);
  }

  lemma ValueTestReads(
    m: Mode, w: World, alias: string, target: Token, json: bool, op: FieldOp, n: nat, bound: seq<Value>)
    returns (c: Cond)
    requires m.dialect == w.dialect && IsTarget(target)
    requires op.Comparison? || op.Between? || op.NullCheck?
    requires Holds(bound, n, LeafText(m, alias, target, json, op, n).values)
    ensures IsFactor(LeafText(m, alias, target, json, op, n).text, c)
    ensures forall scope ::
              Eval(w, bound, scope, c) ==
              OpMeaning(w, RowAt(scope, alias), EvalTerm(w, bound, scope, TargetTerm(target)), op)
  {
    JsonReadsAlike(m, alias, target, json, op, n);
    match op
    case Comparison(cmp, x) => c := ComparisonReads(m, w, alias, target, cmp, x, n, bound);
    case Between(min, max) => c := BetweenReads(m, w, alias, target, min, max, n, bound);
    case NullCheck(isNull) => c := NullCheckReads(m, w, alias, target, json, isNull, n, bound);
  }

  lemma JsonReadsAlike(m: Mode, alias: string, target: Token, json: bool, op: FieldOp, n: nat)
    requires !op.NotOp? && !op.In?
    ensures LeafText(m, alias, target, json, op, n) == LeafText(m, alias, target, false, op, n)
  {
  }

  lemma NullCheckReads(
    m: Mode, w: World, alias: string, target: Token, json: bool, isNull: bool, n: nat,
    bound: seq<Value>) returns (c: Cond)
    requires IsTarget(target)
    ensures IsFactor(LeafText(m, alias, target, json, NullCheck(isNull), n).text, c)
    ensures forall scope ::
              Eval(w, bound, scope, c) ==
              OpMeaning(w, RowAt(scope, alias), EvalTerm(w, bound, scope, TargetTerm(target)), NullCheck(isNull))
  {
    c := NullReads(target, isNull);
    assert LeafText(m, alias, target, json, NullCheck(isNull), n).text
        == [target] + ([KwIs] + (if isNull then [] else [KwNot]) + [KwNull]);
  }

  lemma NullReads(target: Token, isNull: bool) returns (c: Cond)
    requires IsTarget(target)
    ensures IsFactor([target] + ([KwIs] + (if isNull then [] else [KwNot]) + [KwNull]), c)
    ensures isNull ==> IsFactor([target, KwIs, KwNull], c)
    ensures !isNull ==> IsFactor([target, KwIs, KwNot, KwNull], c)
    ensures c == if isNull then IsNull(TargetTerm(target)) else Negated(IsNull(TargetTerm(target)))
  {
    var a := TargetTerm(target);
    c := if isNull then IsNull(a) else Negated(IsNull(a));
    var tail := [KwIs] + (if isNull then [] else [KwNot]) + [KwNull];
    NullTail(a, isNull);
    TargetThenTail(target, tail, c);
    assert [target] + tail == if isNull then [target, KwIs, KwNull] else [target, KwIs, KwNot, KwNull];
  }

  // ----- a field's condition -----

  lemma {:induction false} OpReads(
    m: Mode, w: World, alias: string, target: Token, json: bool, op: FieldOp, n: nat, bound: seq<Value>)
    returns (c: Cond)
    requires m.dialect == w.dialect && IsTarget(target)
    requires !OpRefused(m.dialect, op) && !OpNegatesNothing(op)
    requires Holds(bound, n, OpText(m, alias, target, json, op, n).values)
    ensures IsFactor(OpText(m, alias, target, json, op, n).text, c)
    ensures forall scope ::
              Eval(w, bound, scope, c) ==
              OpMeaning(w, RowAt(scope, alias), EvalTerm(w, bound, scope, TargetTerm(target)), op)
    decreases op, 2
  {
    if op.NotOp? {
      var inner := ValText(m, alias, target, json, op.val, n);
      var cs := ValReads(m, w, alias, target, json, op.val, n, bound);
      FactorFits(false, inner.text, cs);
      ParensAreFactor(inner.text, cs);
      NotIsFactor(Parens(inner.text), cs);
      c := Negated(cs);
    } else {
      c := LeafReads(m, w, alias, target, json, op, n, bound);
    }
  }

  lemma {:induction false} ValReads(
    m: Mode, w: World, alias: string, target: Token, json: bool, val: FieldVal, n: nat, bound: seq<Value>)
    returns (c: Cond)
    requires m.dialect == w.dialect && IsTarget(target) && val != OpMap([])
    requires !ValRefused(m.dialect, val) && !ValNegatesNothing(val)
    requires Holds(bound, n, ValText(m, alias, target, json, val, n).values)
    ensures IsFactor(ValText(m, alias, target, json, val, n).text, c)
    ensures forall scope ::
              Eval(w, bound, scope, c) ==
              AllOf(ValMeanings(w, RowAt(scope, alias), EvalTerm(w, bound, scope, TargetTerm(target)), val))
    decreases val, 1
  {
    var parts := ValParts(m, alias, target, json, val, n).parts;
    var cs := PartsRead(m, w, alias, target, json, val, n, bound);
    if |parts| > 1 {
      ChainShape(parts, cs, true);
      c := ChainTree(cs, true);
      ParensAreFactor(Chain(parts, KwAnd), c);
      forall scope ensures Eval(w, bound, scope, c) == AllOf(Evals(w, bound, scope, cs)) {
        ChainMeans(w, bound, scope, cs, true);
      }
    } else {
      c := cs[0];
      assert IsFactor(parts[0], cs[0]);
      assert Flat(parts) == parts[0];
      forall scope ensures Eval(w, bound, scope, c) == AllOf(Evals(w, bound, scope, cs)) {
        assert Evals(w, bound, scope, cs) == [Eval(w, bound, scope, c)];
      }
    }
  }

  lemma {:induction false} PartsRead(
    m: Mode, w: World, alias: string, target: Token, json: bool, val: FieldVal, n: nat, bound: seq<Value>)
    returns (cs: seq<Cond>)
    requires m.dialect == w.dialect && IsTarget(target) && val != OpMap([])
    requires !ValRefused(m.dialect, val) && !ValNegatesNothing(val)
    requires Holds(bound, n, ValParts(m, alias, target, json, val, n).values)
    ensures cs != [] && AllFactors(ValParts(m, alias, target, json, val, n).parts, cs)
    ensures forall scope ::
              Evals(w, bound, scope, cs) ==
              ValMeanings(w, RowAt(scope, alias), EvalTerm(w, bound, scope, TargetTerm(target)), val)
    decreases val, 0
  {
    match val
    case One(x) =>
      var c := LeafReads(m, w, alias, target, json, Comparison(Eq, x), n, bound);
      cs := [c];
    case Many(xs) =>
      var c := LeafReads(m, w, alias, target, json, In(xs, false), n, bound);
      cs := [c];
    case OpMap(ops) =>
      cs := OpsRead(m, w, alias, target, json, ops, n, bound);
  }

  lemma {:induction false} OpsRead(
    m: Mode, w: World, alias: string, target: Token, json: bool, ops: seq<FieldOp>, n: nat, bound: seq<Value>)
    returns (cs: seq<Cond>)
    requires m.dialect == w.dialect && IsTarget(target)
    requires !OpsRefused(m.dialect, ops) && !OpsNegateNothing(ops)
    requires Holds(bound, n, OpParts(m, alias, target, json, ops, n).values)
    ensures |cs| == |ops| && AllFactors(OpParts(m, alias, target, json, ops, n).parts, cs)
    ensures forall scope ::
              Evals(w, bound, scope, cs) ==
              OpMeanings(w, RowAt(scope, alias), EvalTerm(w, bound, scope, TargetTerm(target)), ops)
    decreases ops, 0
  {
    if ops == [] {
      cs := [];
    } else {
      var first := OpText(m, alias, target, json, ops[0], n);
      var n' := n + |first.values|;
      HoldsSplits(bound, n, first.values, OpParts(m, alias, target, json, ops[1..], n').values);
      var c := OpReads(m, w, alias, target, json, ops[0], n, bound);
      var more := OpsRead(m, w, alias, target, json, ops[1..], n', bound);
      cs := [c] + more;
      FactorThen(first.text, OpParts(m, alias, target, json, ops[1..], n').parts, c, more);
      forall scope ensures Evals(w, bound, scope, cs)
          == OpMeanings(w, RowAt(scope, alias), EvalTerm(w, bound, scope, TargetTerm(target)), ops)
      {
        EvalsThen(w, bound, scope, c, more);
      }
    }
  }
}
