/**
 * Section 8.12 of SQL-92, where a boolean factor takes one `NOT` at most, beside the reading of `SqlText`, which takes
 * any.
 */
module StandardGrammar {
  import opened Values
  import opened SqlText
  import NegatedNothing

  // ----- the grammar -----

  function ReadPrimary(ts: Tokens): (r: Parsed<Cond>)
    ensures r.Read? ==> |r.rest| < |ts|
    decreases |ts|, 0
  {
    if ts == [] then Refused
    else match ts[0]
      case LParen =>
        (match ReadCondition(ts[1..])
         case Refused => Refused
         case Read(c, rest) => if rest != [] && rest[0] == RParen then Read(c, rest[1..]) else Refused)
      case KwExists =>
        if |ts| >= 3 && ts[1] == LParen && ts[2].SelectOne? then
          (match ReadCondition(ts[3..])
           case Refused => Refused
           case Read(c, rest) =>
             if rest != [] && rest[0] == RParen then Read(RowExists(ts[2].table, ts[2].alias, c), rest[1..])
             else Refused)
        else ParsePrimary(ts)
      case _ => ParsePrimary(ts)
  }

  /** `[NOT] primary` */
  function ReadFactor(ts: Tokens): (r: Parsed<Cond>)
    ensures r.Read? ==> |r.rest| < |ts|
    decreases |ts|, 1
  {
    if ts == [] || ts[0] != KwNot then ReadPrimary(ts)
    else match ReadPrimary(ts[1..])
      case Refused => Refused
      case Read(c, rest) => Read(Negated(c), rest)
  }

  /** `factor AND factor ...` */
  function ReadTerm(ts: Tokens): (r: Parsed<Cond>)
    ensures r.Read? ==> |r.rest| < |ts|
    decreases |ts|, 2
  {
    match ReadFactor(ts)
    case Refused => Refused
    case Read(c, rest) => ReadFactors(c, rest)
  }

  function ReadFactors(left: Cond, ts: Tokens): (r: Parsed<Cond>)
    ensures r.Read? ==> |r.rest| <= |ts|
    decreases |ts|, 3
  {
    if ts == [] || ts[0] != KwAnd then Read(left, ts)
    else match ReadFactor(ts[1..])
      case Refused => Refused
      case Read(c, rest) => ReadFactors(Both(left, c), rest)
  }

  /** `term OR term ...` */
  function ReadCondition(ts: Tokens): (r: Parsed<Cond>)
    ensures r.Read? ==> |r.rest| < |ts|
    decreases |ts|, 4
  {
    match ReadTerm(ts)
    case Refused => Refused
    case Read(c, rest) => ReadTerms(c, rest)
  }

  function ReadTerms(left: Cond, ts: Tokens): (r: Parsed<Cond>)
    ensures r.Read? ==> |r.rest| <= |ts|
    decreases |ts|, 5
  {
    if ts == [] || ts[0] != KwOr then Read(left, ts)
    else match ReadTerm(ts[1..])
      case Refused => Refused
      case Read(c, rest) => ReadTerms(Either(left, c), rest)
  }

  // ----- where the two agree -----

  predicate DoubleAt(t: Tokens, i: int) {
    0 <= i < |t| - 1 && t[i] == KwNot && t[i + 1] == KwNot
  }

  /** Two `NOT`s with nothing between. */
  ghost predicate HasDouble(t: Tokens) {
    exists i :: DoubleAt(t, i)
  }

  predicate Leads(t: Tokens) {
    t != [] && t[0] == KwNot
  }

  predicate EndsPlain(t: Tokens) {
    t != [] ==> t[|t| - 1] != KwNot
  }

  lemma DoubleAppends(a: Tokens, b: Tokens)
    ensures HasDouble(a + b) <==> HasDouble(a) || HasDouble(b) || (!EndsPlain(a) && Leads(b))
  {
    var t := a + b;
    if i :| DoubleAt(a, i) {
      assert DoubleAt(t, i);
    }
    if i :| DoubleAt(b, i) {
      assert DoubleAt(t, |a| + i);
    }
    if !EndsPlain(a) && Leads(b) {
      assert DoubleAt(t, |a| - 1);
    }
    if i :| DoubleAt(t, i) {
      assert if i + 1 < |a| then DoubleAt(a, i) else i + 1 == |a| || DoubleAt(b, i - |a|);
    }
  }

  lemma NoneIsSingle(t: Token)
    ensures !HasDouble([t]) && !HasDouble([])
  {
  }

  /** What is left of a text that repeats no `NOT` repeats none. */
  lemma LeftUndoubled(ts: Tokens, rest: Tokens)
    requires |rest| <= |ts| && ts[|ts| - |rest|..] == rest && !HasDouble(ts)
    ensures !HasDouble(rest)
  {
    var taken := ts[..|ts| - |rest|];
    assert ts == taken + rest;
    DoubleAppends(taken, rest);
  }

  lemma {:induction false} PrimaryAgrees(ts: Tokens)
    requires !HasDouble(ts)
    ensures ReadPrimary(ts) == ParsePrimary(ts)
    decreases |ts|, 0
  {
    if ts != [] && ts[0] == LParen {
      LeftUndoubled(ts, ts[1..]);
      ConditionAgrees(ts[1..]);
    } else if |ts| >= 3 && ts[0] == KwExists && ts[2].SelectOne? {
      LeftUndoubled(ts, ts[3..]);
      ConditionAgrees(ts[3..]);
    }
  }

  lemma {:induction false} FactorAgrees(ts: Tokens)
    requires !HasDouble(ts)
    ensures ReadFactor(ts) == ParseNot(ts)
    decreases |ts|, 1
  {
    if ts != [] && ts[0] == KwNot {
      assert !DoubleAt(ts, 0);
      LeftUndoubled(ts, ts[1..]);
      PrimaryAgrees(ts[1..]);
    } else {
      PrimaryAgrees(ts);
    }
  }

  lemma {:induction false} TermAgrees(ts: Tokens)
    requires !HasDouble(ts)
    ensures ReadTerm(ts) == ParseAnd(ts)
    decreases |ts|, 2
  {
    FactorAgrees(ts);
    var r := ParseNot(ts);
    if r.Read? {
      NegatedNothing.NotTook(ts);
      LeftUndoubled(ts, r.rest);
      FactorsAgree(r.value, r.rest);
    }
  }

  lemma {:induction false} FactorsAgree(left: Cond, ts: Tokens)
    requires !HasDouble(ts)
    ensures ReadFactors(left, ts) == AndTail(left, ts)
    decreases |ts|, 3
  {
    if ts != [] && ts[0] == KwAnd {
      LeftUndoubled(ts, ts[1..]);
      FactorAgrees(ts[1..]);
      var r := ParseNot(ts[1..]);
      if r.Read? {
        NegatedNothing.NotTook(ts[1..]);
        LeftUndoubled(ts[1..], r.rest);
        FactorsAgree(Both(left, r.value), r.rest);
      }
    }
  }

  lemma {:induction false} ConditionAgrees(ts: Tokens)
    requires !HasDouble(ts)
    ensures ReadCondition(ts) == ParseOr(ts)
    decreases |ts|, 4
  {
    TermAgrees(ts);
    var r := ParseAnd(ts);
    if r.Read? {
      NegatedNothing.AndTook(ts);
      LeftUndoubled(ts, r.rest);
      TermsAgree(r.value, r.rest);
    }
  }

  lemma {:induction false} TermsAgree(left: Cond, ts: Tokens)
    requires !HasDouble(ts)
    ensures ReadTerms(left, ts) == OrTail(left, ts)
    decreases |ts|, 5
  {
    if ts != [] && ts[0] == KwOr {
      LeftUndoubled(ts, ts[1..]);
      TermAgrees(ts[1..]);
      var r := ParseAnd(ts[1..]);
      if r.Read? {
        NegatedNothing.AndTook(ts[1..]);
        LeftUndoubled(ts[1..], r.rest);
        TermsAgree(Either(left, r.value), r.rest);
      }
    }
  }

  // ----- what the standard reads repeats no NOT -----

  /** A text that repeats no `NOT` and ends with none. */
  ghost predicate IsSingle(t: Tokens) {
    t != [] && EndsPlain(t) && !HasDouble(t)
  }

  /** A parse of `ts` left `rest`, and what it took repeats no `NOT`. */
  ghost predicate Passed(ts: Tokens, rest: Tokens) {
    |rest| < |ts| && ts[|ts| - |rest|..] == rest && IsSingle(ts[..|ts| - |rest|])
  }

  lemma SingleAppends(a: Tokens, b: Tokens)
    requires IsSingle(a) && IsSingle(b)
    ensures IsSingle(a + b)
  {
    DoubleAppends(a, b);
  }

  lemma PassedThen(ts: Tokens, mid: Tokens, rest: Tokens)
    requires Passed(ts, mid) && (mid == rest || Passed(mid, rest))
    ensures Passed(ts, rest)
  {
    if mid != rest {
      var a, b := ts[..|ts| - |mid|], mid[..|mid| - |rest|];
      SingleAppends(a, b);
      assert ts == a + mid && mid == b + rest;
      assert ts == (a + b) + rest;
      assert ts[..|ts| - |rest|] == a + b;
    }
  }

  lemma PassedToken(ts: Tokens)
    requires ts != [] && ts[0] != KwNot
    ensures Passed(ts, ts[1..])
  {
    assert ts[..1] == [ts[0]];
    NoneIsSingle(ts[0]);
  }

  /** A `NOT`, and what is taken after it, which opens with none. */
  lemma PassedNot(ts: Tokens, rest: Tokens)
    requires |ts| > 1 && ts[0] == KwNot && ts[1] != KwNot && Passed(ts[1..], rest)
    ensures Passed(ts, rest)
  {
    var taken := ts[1..][..|ts| - 1 - |rest|];
    assert ts[..|ts| - |rest|] == [KwNot] + taken;
    assert taken[0] == ts[1];
    DoubleAppends([KwNot], taken);
    NoneIsSingle(KwNot);
  }

  lemma {:induction false} TermPassed(ts: Tokens)
    requires ParseTerm(ts).Read?
    ensures Passed(ts, ParseTerm(ts).rest)
    decreases |ts|
  {
    PassedToken(ts);
    if ts[0] == KwLower {
      var rest := ParseTerm(ts[2..]).rest;
      PassedToken(ts[1..]);
      assert ts[1..][1..] == ts[2..];
      PassedThen(ts, ts[1..], ts[2..]);
      TermPassed(ts[2..]);
      PassedThen(ts, ts[2..], rest);
      PassedToken(rest);
      PassedThen(ts, rest, rest[1..]);
    }
  }

  lemma {:induction false} TermsPassed(ts: Tokens)
    requires ParseTerms(ts).Read?
    ensures Passed(ts, ParseTerms(ts).rest)
    decreases |ts|
  {
    TermPassed(ts);
    var rest := ParseTerm(ts).rest;
    if rest != [] && rest[0] == Comma {
      PassedToken(rest);
      TermsPassed(rest[1..]);
      PassedThen(rest, rest[1..], ParseTerms(ts).rest);
      PassedThen(ts, rest, ParseTerms(ts).rest);
    }
  }

  lemma {:induction false} ArgsPassed(n: nat, ts: Tokens)
    requires ParseArgs(n, ts).Read?
    ensures ParseArgs(n, ts).rest == ts || Passed(ts, ParseArgs(n, ts).rest)
    decreases n
  {
    if n > 0 {
      TermPassed(ts);
      ArgsPassed(n - 1, ParseTerm(ts).rest);
      PassedThen(ts, ParseTerm(ts).rest, ParseArgs(n, ts).rest);
    }
  }

  lemma OptionsPassed(a: Term, ts: Tokens, negate: bool)
    requires ParseOptions(a, ts, negate).Read?
    ensures Passed(ts, ParseOptions(a, ts, negate).rest)
  {
    var rest := ParseTerms(ts[1..]).rest;
    PassedToken(ts);
    TermsPassed(ts[1..]);
    PassedThen(ts, ts[1..], rest);
    PassedToken(rest);
    PassedThen(ts, rest, rest[1..]);
  }

  lemma TailPassed(a: Term, ts: Tokens)
    requires ParseTail(a, ts).Read?
    ensures Passed(ts, ParseTail(a, ts).rest)
  {
    var end := ParseTail(a, ts).rest;
    if ts[0] == KwNot {
      PassedToken(ts[1..]);
      assert ts[1..][1..] == ts[2..];
      OptionsPassed(a, ts[2..], true);
      PassedThen(ts[1..], ts[2..], end);
      PassedNot(ts, end);
    } else if ts[0] == KwIs {
      PassedToken(ts);
      IsPassed(ts[1..], end);
      PassedThen(ts, ts[1..], end);
    } else if ts[0] == KwIn {
      PassedToken(ts);
      OptionsPassed(a, ts[1..], false);
      PassedThen(ts, ts[1..], end);
    } else {
      WordThenTerm(ts);
      if ts[0] == KwBetween {
        BetweenPassed(ts, ParseTerm(ts[1..]).rest);
      } else if ts[0] == KwLike {
        EscapePassed(ts, ParseTerm(ts[1..]).rest);
      }
    }
  }

  lemma WordThenTerm(ts: Tokens)
    requires ts != [] && ts[0] != KwNot && ParseTerm(ts[1..]).Read?
    ensures Passed(ts, ParseTerm(ts[1..]).rest)
  {
    PassedToken(ts);
    TermPassed(ts[1..]);
    PassedThen(ts, ts[1..], ParseTerm(ts[1..]).rest);
  }

  /** `AND term`, the rest of a `BETWEEN`. */
  lemma BetweenPassed(ts: Tokens, rest: Tokens)
    requires Passed(ts, rest) && rest != [] && rest[0] == KwAnd && ParseTerm(rest[1..]).Read?
    ensures Passed(ts, ParseTerm(rest[1..]).rest)
  {
    WordThenTerm(rest);
    PassedThen(ts, rest, ParseTerm(rest[1..]).rest);
  }

  /** The `ESCAPE` of a `LIKE`. */
  lemma EscapePassed(ts: Tokens, rest: Tokens)
    requires Passed(ts, rest) && |rest| >= 2 && rest[0] == KwEscape && rest[1].Literal?
    ensures Passed(ts, rest[2..])
  {
    PassedToken(rest);
    PassedToken(rest[1..]);
    assert rest[1..][1..] == rest[2..];
    PassedThen(rest, rest[1..], rest[2..]);
    PassedThen(ts, rest, rest[2..]);
  }

  /** `NULL` or `NOT NULL`. */
  lemma IsPassed(ts: Tokens, end: Tokens)
    requires ts != []
    requires if ts[0] == KwNull then end == ts[1..]
             else |ts| > 1 && ts[0] == KwNot && ts[1] == KwNull && end == ts[2..]
    ensures Passed(ts, end)
  {
    if ts[0] == KwNull {
      PassedToken(ts);
    } else {
      PassedToken(ts[1..]);
      assert ts[1..][1..] == ts[2..];
      PassedNot(ts, end);
    }
  }

  /** A predicate, or SQL the query does not show. */
  lemma PredicatePassed(ts: Tokens)
    requires ParsePrimary(ts).Read? && ts[0] != LParen && !(ts[0] == KwExists && ts[2].SelectOne?)
    ensures ts[0] != KwNot && Passed(ts, ParsePrimary(ts).rest)
  {
    var end := ParsePrimary(ts).rest;
    if ts[0].Raw? {
      PassedToken(ts);
      ArgsPassed(ts[0].arity, ts[1..]);
      PassedThen(ts, ts[1..], end);
    } else if ts[0] == KwExists {
      var rest := ParseArgs(ts[2].arity, ts[3..]).rest;
      ExistsOpens(ts);
      ArgsPassed(ts[2].arity, ts[3..]);
      PassedThen(ts, ts[3..], rest);
      PassedToken(rest);
      PassedThen(ts, rest, end);
    } else {
      TermPassed(ts);
      TailPassed(ParseTerm(ts).value, ParseTerm(ts).rest);
      PassedThen(ts, ParseTerm(ts).rest, end);
    }
  }

  lemma ExistsOpens(ts: Tokens)
    requires |ts| >= 3 && ts[0] == KwExists && ts[1] == LParen && ts[2] != KwNot
    ensures Passed(ts, ts[3..])
  {
    PassedToken(ts);
    PassedToken(ts[1..]);
    PassedToken(ts[2..]);
    assert ts[1..][1..] == ts[2..] && ts[2..][1..] == ts[3..];
    PassedThen(ts, ts[1..], ts[2..]);
    PassedThen(ts, ts[2..], ts[3..]);
  }

  lemma {:induction false} PrimaryPassed(ts: Tokens)
    requires ReadPrimary(ts).Read?
    ensures ts[0] != KwNot && Passed(ts, ReadPrimary(ts).rest)
    decreases |ts|, 0
  {
    if ts[0] == LParen {
      var rest := ReadCondition(ts[1..]).rest;
      PassedToken(ts);
      ConditionPassed(ts[1..]);
      PassedThen(ts, ts[1..], rest);
      PassedToken(rest);
      PassedThen(ts, rest, rest[1..]);
    } else if ts[0] == KwExists && ts[2].SelectOne? {
      var rest := ReadCondition(ts[3..]).rest;
      ExistsOpens(ts);
      ConditionPassed(ts[3..]);
      PassedThen(ts, ts[3..], rest);
      PassedToken(rest);
      PassedThen(ts, rest, rest[1..]);
    } else {
      PredicatePassed(ts);
    }
  }

  lemma {:induction false} FactorPassed(ts: Tokens)
    requires ReadFactor(ts).Read?
    ensures Passed(ts, ReadFactor(ts).rest)
    decreases |ts|, 1
  {
    if ts != [] && ts[0] == KwNot {
      PrimaryPassed(ts[1..]);
      PassedNot(ts, ReadFactor(ts).rest);
    } else {
      PrimaryPassed(ts);
    }
  }

  lemma {:induction false} TermRead(ts: Tokens)
    requires ReadTerm(ts).Read?
    ensures Passed(ts, ReadTerm(ts).rest)
    decreases |ts|, 2
  {
    FactorPassed(ts);
    var r := ReadFactor(ts);
    FactorsPassed(r.value, r.rest);
    PassedThen(ts, r.rest, ReadTerm(ts).rest);
  }

  lemma {:induction false} FactorsPassed(left: Cond, ts: Tokens)
    requires ReadFactors(left, ts).Read?
    ensures ReadFactors(left, ts).rest == ts || Passed(ts, ReadFactors(left, ts).rest)
    decreases |ts|, 3
  {
    if ts != [] && ts[0] == KwAnd {
      PassedToken(ts);
      FactorPassed(ts[1..]);
      var r := ReadFactor(ts[1..]);
      PassedThen(ts, ts[1..], r.rest);
      FactorsPassed(Both(left, r.value), r.rest);
      PassedThen(ts, r.rest, ReadFactors(left, ts).rest);
    }
  }

  lemma {:induction false} ConditionPassed(ts: Tokens)
    requires ReadCondition(ts).Read?
    ensures Passed(ts, ReadCondition(ts).rest)
    decreases |ts|, 4
  {
    TermRead(ts);
    var r := ReadTerm(ts);
    TermsRead(r.value, r.rest);
    PassedThen(ts, r.rest, ReadCondition(ts).rest);
  }

  lemma {:induction false} TermsRead(left: Cond, ts: Tokens)
    requires ReadTerms(left, ts).Read?
    ensures ReadTerms(left, ts).rest == ts || Passed(ts, ReadTerms(left, ts).rest)
    decreases |ts|, 5
  {
    if ts != [] && ts[0] == KwOr {
      PassedToken(ts);
      TermRead(ts[1..]);
      var r := ReadTerm(ts[1..]);
      PassedThen(ts, ts[1..], r.rest);
      TermsRead(Either(left, r.value), r.rest);
      PassedThen(ts, r.rest, ReadTerms(left, ts).rest);
    }
  }

  /**
   * A whole text is a condition of the standard exactly where it is one that repeats no `NOT`, and then the same one.
   */
  lemma StandardReads(t: Tokens, c: Cond)
    ensures ReadCondition(t) == Read(c, []) <==> ParseOr(t) == Read(c, []) && !HasDouble(t)
  {
    if ReadCondition(t) == Read(c, []) {
      ConditionPassed(t);
      assert t[..|t|] == t;
    }
    if !HasDouble(t) {
      ConditionAgrees(t);
    }
  }
}
