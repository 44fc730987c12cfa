/**
 * Texts that read as one operand, one conjunction or one disjunction wherever they stand, and how joining keeps them
 * so.
 */
module SqlShapes {
  import opened Ternary
  import opened Values
  import opened SqlText

  /** Whatever follows `t`, it reads as the operand `c` of any connective. */
  ghost predicate IsFactor(t: Tokens, c: Cond) {
    t != [] && forall rest: Tokens :: ParseNot(t + rest) == Read(c, rest)
  }

  predicate StopsAnd(rest: Tokens) {
    rest == [] || rest[0] != KwAnd
  }

  predicate StopsOr(rest: Tokens) {
    rest == [] || (rest[0] != KwAnd && rest[0] != KwOr)
  }

  /** Whatever follows `t` short of an `AND`, it reads as `c`. */
  ghost predicate IsConjunction(t: Tokens, c: Cond) {
    t != [] && forall rest: Tokens | StopsAnd(rest) :: ParseAnd(t + rest) == Read(c, rest)
  }

  /** Whatever follows `t` short of an `AND` or an `OR`, it reads as `c`. */
  ghost predicate IsDisjunction(t: Tokens, c: Cond) {
    t != [] && forall rest: Tokens | StopsOr(rest) :: ParseOr(t + rest) == Read(c, rest)
  }

  /** `t` as its position needs it: an operand, or a condition standing alone. */
  ghost predicate Fits(operand: bool, t: Tokens, c: Cond) {
    if operand then IsFactor(t, c) else IsDisjunction(t, c)
  }

  lemma FactorIsConjunction(t: Tokens, c: Cond)
    requires IsFactor(t, c)
    ensures IsConjunction(t, c)
  {
  }

  lemma ConjunctionIsDisjunction(t: Tokens, c: Cond)
    requires IsConjunction(t, c)
    ensures IsDisjunction(t, c)
  {
  }

  lemma FactorFits(operand: bool, t: Tokens, c: Cond)
    requires IsFactor(t, c)
    ensures Fits(operand, t, c)
  {
    FactorIsConjunction(t, c);
    ConjunctionIsDisjunction(t, c);
  }

  lemma DisjunctionParses(t: Tokens, c: Cond)
    requires IsDisjunction(t, c)
    ensures ParseOr(t) == Read(c, [])
  {
    assert t + [] == t;
  }

  lemma ParensAreFactor(t: Tokens, c: Cond)
    requires IsDisjunction(t, c)
    ensures IsFactor(Parens(t), c)
  {
    forall rest: Tokens ensures ParseNot(Parens(t) + rest) == Read(c, rest) {
      var ts := Parens(t) + rest;
      assert ts[1..] == t + ([RParen] + rest);
      assert ([RParen] + rest)[1..] == rest;
    }
  }

  lemma NotIsFactor(t: Tokens, c: Cond)
    requires IsFactor(t, c)
    ensures IsFactor([KwNot] + t, Negated(c))
  {
    forall rest: Tokens ensures ParseNot([KwNot] + t + rest) == Read(Negated(c), rest) {
      assert ([KwNot] + t + rest)[1..] == t + rest;
    }
  }

  ghost predicate AllFactors(parts: seq<Tokens>, cs: seq<Cond>) {
    |parts| == |cs| && forall i :: 0 <= i < |parts| ==> IsFactor(parts[i], cs[i])
  }

  /** The tree of a flat chain: each connective applies to all before it. */
  function FlatTree(left: Cond, cs: seq<Cond>, and: bool): Cond
    decreases |cs|
  {
    if cs == [] then left
    else FlatTree(if and then Both(left, cs[0]) else Either(left, cs[0]), cs[1..], and)
  }

  function OpOf(and: bool): Token {
    if and then KwAnd else KwOr
  }

  function TailOf(left: Cond, and: bool, ts: Tokens): Parsed<Cond> {
    if and then AndTail(left, ts) else OrTail(left, ts)
  }

  lemma {:induction false} JoinTail(left: Cond, parts: seq<Tokens>, cs: seq<Cond>, and: bool, rest: Tokens)
    requires parts != [] && AllFactors(parts, cs)
    requires if and then StopsAnd(rest) else StopsOr(rest)
    ensures TailOf(left, and, [OpOf(and)] + Join(parts, OpOf(and)) + rest) == Read(FlatTree(left, cs, and), rest)
    decreases |parts|
  {
    hide ParsePrimary, ParseOr;
    var op := OpOf(and);
    var ts := [op] + Join(parts, op) + rest;
    var left' := if and then Both(left, cs[0]) else Either(left, cs[0]);
    assert IsFactor(parts[0], cs[0]);
    if |parts| == 1 {
      assert ts[1..] == parts[0] + rest;
      FactorIsConjunction(parts[0], cs[0]);
      assert StopsAnd(rest);
      assert FlatTree(left', cs[1..], and) == left';
      assert TailOf(left', and, rest) == Read(left', rest);
    } else {
      var more := [op] + Join(parts[1..], op) + rest;
      assert ts[1..] == parts[0] + more;
      assert more[0] == op;
      FactorIsConjunction(parts[0], cs[0]);
      JoinTail(left', parts[1..], cs[1..], and, rest);
    }
  }

  lemma JoinShape(parts: seq<Tokens>, cs: seq<Cond>, and: bool)
    requires parts != [] && AllFactors(parts, cs)
    ensures and ==> IsConjunction(Join(parts, KwAnd), FlatTree(cs[0], cs[1..], true))
    ensures IsDisjunction(Join(parts, OpOf(and)), FlatTree(cs[0], cs[1..], and))
  {
    hide ParsePrimary;
    var op := OpOf(and);
    var t := Join(parts, op);
    var c := FlatTree(cs[0], cs[1..], and);
    assert IsFactor(parts[0], cs[0]);
    if |parts| == 1 {
      assert cs[1..] == [];
      FactorIsConjunction(t, c);
      ConjunctionIsDisjunction(t, c);
    } else {
      FactorIsConjunction(parts[0], cs[0]);
      forall rest: Tokens | if and then StopsAnd(rest) else StopsOr(rest)
        ensures if and then ParseAnd(t + rest) == Read(c, rest) else ParseOr(t + rest) == Read(c, rest)
      {
        var more := [op] + Join(parts[1..], op) + rest;
        assert t + rest == parts[0] + more;
        JoinTail(cs[0], parts[1..], cs[1..], and, rest);
      }
      if and {
        ConjunctionIsDisjunction(t, c);
      }
    }
  }

  // ----- what joining means -----

  ghost function Evals(w: World, bound: seq<Value>, scope: Scope, cs: seq<Cond>): (r: seq<Tri>)
    ensures |r| == |cs|
  {
    seq(|cs|, i requires 0 <= i < |cs| => Eval(w, bound, scope, cs[i]))
  }

  lemma FactorThen(part: Tokens, parts: seq<Tokens>, c: Cond, cs: seq<Cond>)
    requires IsFactor(part, c) && AllFactors(parts, cs)
    ensures AllFactors([part] + parts, [c] + cs)
  {
  }

  lemma EvalsThen(w: World, bound: seq<Value>, scope: Scope, c: Cond, cs: seq<Cond>)
    ensures Evals(w, bound, scope, [c] + cs) == [Eval(w, bound, scope, c)] + Evals(w, bound, scope, cs)
  {
  }

  function Combined(and: bool, ts: seq<Tri>): Tri {
    if and then AllOf(ts) else AnyOf(ts)
  }

  lemma CombinedCons(and: bool, t: Tri, ts: seq<Tri>)
    ensures Combined(and, [t] + ts) == if and then And(t, AllOf(ts)) else Or(t, AnyOf(ts))
  {
    assert ([t] + ts)[1..] == ts;
  }

  lemma {:induction false} FlatTreeMeans(
    w: World, bound: seq<Value>, scope: Scope, left: Cond, cs: seq<Cond>, and: bool)
    ensures Eval(w, bound, scope, FlatTree(left, cs, and))
         == Combined(and, [Eval(w, bound, scope, left)] + Evals(w, bound, scope, cs))
    decreases |cs|
  {
    var first := Eval(w, bound, scope, left);
    CombinedCons(and, first, Evals(w, bound, scope, cs));
    if cs != [] {
      var left' := if and then Both(left, cs[0]) else Either(left, cs[0]);
      var es' := Evals(w, bound, scope, cs[1..]);
      FlatTreeMeans(w, bound, scope, left', cs[1..], and);
      assert Evals(w, bound, scope, cs) == [Eval(w, bound, scope, cs[0])] + es';
      CombinedCons(and, Eval(w, bound, scope, cs[0]), es');
      CombinedCons(and, Eval(w, bound, scope, left'), es');
    }
  }

  // ----- balanced chains -----

  const CHAIN_WIDTH := 16

  /** Up to sixteen operands in a row, and more as two halves in parentheses, each written the same way. */
  function Chain(parts: seq<Tokens>, op: Token): Tokens
    decreases |parts|
  {
    if |parts| <= CHAIN_WIDTH then Join(parts, op)
    else
      var half := (|parts| + 1) / 2;
      Parens(Chain(parts[..half], op)) + [op] + Parens(Chain(parts[half..], op))
  }

  function ChainTree(cs: seq<Cond>, and: bool): Cond
    requires cs != []
    decreases |cs|
  {
    if |cs| <= CHAIN_WIDTH then FlatTree(cs[0], cs[1..], and)
    else
      var half := (|cs| + 1) / 2;
      var l := ChainTree(cs[..half], and);
      var r := ChainTree(cs[half..], and);
      if and then Both(l, r) else Either(l, r)
  }

  lemma HalvesAreFactors(parts: seq<Tokens>, cs: seq<Cond>, half: nat)
    requires AllFactors(parts, cs) && half <= |parts|
    ensures AllFactors(parts[..half], cs[..half]) && AllFactors(parts[half..], cs[half..])
  {
  }

  lemma {:induction false} ChainShape(parts: seq<Tokens>, cs: seq<Cond>, and: bool)
    requires parts != [] && AllFactors(parts, cs)
    ensures IsDisjunction(Chain(parts, OpOf(and)), ChainTree(cs, and))
    decreases |parts|
  {
    if |parts| <= CHAIN_WIDTH {
      JoinShape(parts, cs, and);
    } else {
      var half := (|parts| + 1) / 2;
      HalvesAreFactors(parts, cs, half);
      ChainShape(parts[..half], cs[..half], and);
      ChainShape(parts[half..], cs[half..], and);
      HalvesShape(Chain(parts[..half], OpOf(and)), Chain(parts[half..], OpOf(and)),
                  ChainTree(cs[..half], and), ChainTree(cs[half..], and), and);
    }
  }

  lemma HalvesShape(l: Tokens, r: Tokens, cl: Cond, cr: Cond, and: bool)
    requires IsDisjunction(l, cl) && IsDisjunction(r, cr)
    ensures IsDisjunction(Parens(l) + [OpOf(and)] + Parens(r), if and then Both(cl, cr) else Either(cl, cr))
  {
    ParensAreFactor(l, cl);
    ParensAreFactor(r, cr);
    var parts, cs := [Parens(l), Parens(r)], [cl, cr];
    JoinShape(parts, cs, and);
    assert parts[1..] == [Parens(r)];
    assert Join(parts, OpOf(and)) == Parens(l) + [OpOf(and)] + Parens(r);
    assert cs[1..] == [cr];
    assert FlatTree(cl, [cr], and) == if and then Both(cl, cr) else Either(cl, cr);
  }

  lemma {:induction false} ChainMeans(w: World, bound: seq<Value>, scope: Scope, cs: seq<Cond>, and: bool)
    requires cs != []
    ensures Eval(w, bound, scope, ChainTree(cs, and)) == Combined(and, Evals(w, bound, scope, cs))
    decreases |cs|
  {
    hide Join;
    var es := Evals(w, bound, scope, cs);
    if |cs| <= CHAIN_WIDTH {
      FlatTreeMeans(w, bound, scope, cs[0], cs[1..], and);
      assert es == [es[0]] + Evals(w, bound, scope, cs[1..]);
    } else {
      var half := (|cs| + 1) / 2;
      ChainMeans(w, bound, scope, cs[..half], and);
      ChainMeans(w, bound, scope, cs[half..], and);
      var l, r := Evals(w, bound, scope, cs[..half]), Evals(w, bound, scope, cs[half..]);
      assert es == l + r;
      AllOfConcat(l, r);
      AnyOfConcat(l, r);
    }
  }

  /** How many connectives deep a condition is. */
  function Depth(c: Cond): nat {
    match c
    case Both(l, r) => 1 + Max(Depth(l), Depth(r))
    case Either(l, r) => 1 + Max(Depth(l), Depth(r))
    case Negated(x) => 1 + Depth(x)
    case _ => 0
  }

  function Max(a: nat, b: nat): nat {
    if a < b then b else a
  }

  lemma {:induction false} FlatDepth(left: Cond, cs: seq<Cond>, and: bool, d: nat, k: nat)
    requires Depth(left) <= d + k && forall i :: 0 <= i < |cs| ==> Depth(cs[i]) <= d
    ensures Depth(FlatTree(left, cs, and)) <= d + k + |cs|
    decreases |cs|
  {
    if cs != [] {
      var left' := if and then Both(left, cs[0]) else Either(left, cs[0]);
      FlatDepth(left', cs[1..], and, d, k + 1);
    }
  }

  function Pow2(t: nat): nat {
    if t == 0 then 1 else 2 * Pow2(t - 1)
  }

  /**
   * A chain of at most sixteen times two to the `t` operands is at most `15 + t` connectives deeper than they are: its
   * depth grows with the logarithm of its length.
   */
  lemma {:induction false} ChainDepth(cs: seq<Cond>, and: bool, d: nat, t: nat)
    requires cs != [] && forall i :: 0 <= i < |cs| ==> Depth(cs[i]) <= d
    requires |cs| <= CHAIN_WIDTH * Pow2(t)
    ensures Depth(ChainTree(cs, and)) <= d + CHAIN_WIDTH - 1 + t
    decreases |cs|
  {
    if |cs| <= CHAIN_WIDTH {
      FlatDepth(cs[0], cs[1..], and, d, 0);
    } else {
      var half := (|cs| + 1) / 2;
      assert t > 0;
      ChainDepth(cs[..half], and, d, t - 1);
      ChainDepth(cs[half..], and, d, t - 1);
    }
  }
}
