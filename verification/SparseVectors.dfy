/** pgvector's `sparsevec` literals: a dense vector written as one, and one read back. */
module SparseVectors {
  import opened Options
  import opened Aliases
  import opened Sequences

  /** A number as JavaScript reads one off text: an integer, or any other, infinity included. */
  datatype Number = Whole(n: int) | Other(text: string)

  // ----- writing -----

  function ShownInt(n: int): string {
    if n < 0 then "-" + Decimal(-n) else Decimal(n)
  }

  function Pair(index: nat, n: int): string {
    ShownInt(index) + ":" + ShownInt(n)
  }

  /** `index:value` for each element from `at` on that is not zero, counted from one. */
  function Pairs(values: seq<int>, at: nat): seq<string>
    requires at <= |values|
    decreases |values| - at
  {
    if at == |values| then []
    else if values[at] == 0 then Pairs(values, at + 1)
    else [Pair(at + 1, values[at])] + Pairs(values, at + 1)
  }

  function Joined(parts: seq<string>, c: char): string {
    if parts == [] then "" else if |parts| == 1 then parts[0] else parts[0] + [c] + Joined(parts[1..], c)
  }

  function ToSparsevecLiteral(values: seq<int>): string {
    "{" + Joined(Pairs(values, 0), ',') + "}/" + Decimal(|values|)
  }

  // ----- reading -----

  function Split(s: string, c: char): (parts: seq<string>)
    ensures parts != []
  {
    if s == "" then [""]
    else
      var rest := Split(s[1..], c);
      if s[0] == c then [""] + rest else [[s[0]] + rest[0]] + rest[1..]
  }

  predicate IsDigit(c: char) {
    '0' <= c <= '9'
  }

  predicate IsNumeral(s: string) {
    s != "" && forall i :: 0 <= i < |s| ==> IsDigit(s[i])
  }

  /** What `Number` makes of a text: an integer of its digits, what `other` makes of any other, and none is NaN. */
  function NumberIn(other: string -> Option<Number>, s: string): Option<Number> {
    if IsNumeral(s) then Some(Whole(NumberOf(s)))
    else if s != "" && s[0] == '-' && IsNumeral(s[1..]) then Some(Whole(-NumberOf(s[1..])))
    else other(s)
  }

  /** Where the digits a text ends with begin. */
  function DigitsFrom(s: string): (k: nat)
    ensures k <= |s| && (forall i :: k <= i < |s| ==> IsDigit(s[i])) && (k > 0 ==> !IsDigit(s[k - 1]))
  {
    if s != "" && IsDigit(s[|s| - 1]) then DigitsFrom(s[..|s| - 1]) else |s|
  }

  predicate IsLineEnd(c: char) {
    c == '\n' || c == '\r' || c as int == 0x2028 || c as int == 0x2029
  }

  predicate OneLine(s: string) {
    forall i :: 0 <= i < |s| ==> !IsLineEnd(s[i])
  }

  /** The literal's pairs and dimension, where it has its braces around one line and a dimension after a slash. */
  function Literal(s: string): Option<(string, nat)> {
    var k := DigitsFrom(s);
    if k < |s| && 3 <= k && s[0] == '{' && s[k - 2] == '}' && s[k - 1] == '/' && OneLine(s[1..k - 2]) then
      DigitsAreNat(s[k..]);
      Some((s[1..k - 2], NumberOf(s[k..])))
    else None
  }

  lemma {:induction false} DigitsAreNat(s: string)
    requires forall i :: 0 <= i < |s| ==> IsDigit(s[i])
    ensures NumberOf(s) >= 0
    decreases |s|
  {
    if s != [] {
      DigitsAreNat(s[..|s| - 1]);
    }
  }

  /** A pair's index, counted from zero, and its value; none where it is no pair, or its index is out of bounds. */
  function ReadPair(other: string -> Option<Number>, dimension: nat, pair: string): (r: Option<(nat, Number)>)
    ensures r.Some? ==> r.value.0 < dimension
  {
    var parts := Split(pair, ':');
    if |parts| != 2 || parts[0] == "" || parts[1] == "" then None
    else
      var index, value := NumberIn(other, parts[0]), NumberIn(other, parts[1]);
      if index.None? || !index.value.Whole? || index.value.n < 1 || index.value.n > dimension || value.None? then None
      else Some((index.value.n - 1, value.value))
  }

  /** Each pair written over `dense` in order, the last at an index staying; none where one is refused. */
  function Filled(other: string -> Option<Number>, pairs: seq<string>, dense: seq<Number>): (r: Option<seq<Number>>)
    ensures r.Some? ==> |r.value| == |dense|
    decreases |pairs|
  {
    if pairs == [] then Some(dense)
    else
      var pair := ReadPair(other, |dense|, pairs[0]);
      if pair.None? then None else Filled(other, pairs[1..], dense[pair.value.0 := pair.value.1])
  }

  function Zeros(n: nat): seq<Number> {
    seq(n, i => Whole(0))
  }

  function Parsed(other: string -> Option<Number>, text: string): Option<seq<Number>> {
    var literal := Literal(text);
    if literal.None? then None
    else if literal.value.0 == "" then Some(Zeros(literal.value.1))
    else Filled(other, Split(literal.value.0, ','), Zeros(literal.value.1))
  }

  /** The array a literal such as `{1:1,3:2}/3` stands for, filled pair by pair over zeros. */
  method ParseSparse(other: string -> Option<Number>, text: string) returns (dense: Option<seq<Number>>)
    ensures dense == Parsed(other, text)
  {
    var literal := Literal(text);
    if literal.None? {
      return None;
    }
    var dimension := literal.value.1;
    var a := new Number[dimension](i => Whole(0));
    assert a[..] == Zeros(dimension);
    if literal.value.0 == "" {
      return Some(a[..]);
    }
    var pairs := Split(literal.value.0, ',');
    assert pairs[0..] == pairs;
    for i := 0 to |pairs|
      invariant Filled(other, pairs[i..], a[..]) == Filled(other, pairs, Zeros(dimension))
    {
      assert pairs[i..][0] == pairs[i] && pairs[i..][1..] == pairs[i + 1..];
      var pair := ReadPair(other, dimension, pairs[i]);
      if pair.None? {
        return None;
      }
      ghost var before := a[..];
      a[pair.value.0] := pair.value.1;
      assert a[..] == before[pair.value.0 := pair.value.1];
    }
    return Some(a[..]);
  }

  // ----- every literal accepted -----

  /** No pair from `i` on is of `k`. */
  ghost predicate Untouched(other: string -> Option<Number>, dimension: nat, pairs: seq<string>, i: nat, k: nat) {
    forall j :: i <= j < |pairs| ==>
      ReadPair(other, dimension, pairs[j]).Some? && ReadPair(other, dimension, pairs[j]).value.0 != k
  }

  /** The pair at `i` is the last of `k`, and of this value. */
  ghost predicate LastOf(
    other: string -> Option<Number>, dimension: nat, pairs: seq<string>, i: nat, k: nat, value: Number)
    requires i < |pairs|
  {
    ReadPair(other, dimension, pairs[i]) == Some((k, value)) && Untouched(other, dimension, pairs, i + 1, k)
  }

  /** What is at `k` once the pairs are written: the last one's value there, or what was there before. */
  lemma {:induction false} FilledAt(other: string -> Option<Number>, pairs: seq<string>, dense: seq<Number>, k: nat)
    requires Filled(other, pairs, dense).Some? && k < |dense|
    ensures var at := Filled(other, pairs, dense).value[k];
            (at == dense[k] && Untouched(other, |dense|, pairs, 0, k))
            || exists i :: 0 <= i < |pairs| && LastOf(other, |dense|, pairs, i, k, at)
    decreases |pairs|
  {
    if pairs != [] {
      var pair := ReadPair(other, |dense|, pairs[0]).value;
      EachPairReads(other, pairs, dense);
      FilledAt(other, pairs[1..], dense[pair.0 := pair.1], k);
      assert forall i :: 1 <= i < |pairs| ==> pairs[i] == pairs[1..][i - 1];
      var at := Filled(other, pairs, dense).value[k];
      if i :| 0 <= i < |pairs[1..]| && LastOf(other, |dense|, pairs[1..], i, k, at) {
        assert LastOf(other, |dense|, pairs, i + 1, k, at);
      } else {
        assert Untouched(other, |dense|, pairs, 1, k);
        assert pair.0 == k ==> LastOf(other, |dense|, pairs, 0, k, at);
      }
    }
  }

  lemma {:induction false} EachPairReads(other: string -> Option<Number>, pairs: seq<string>, dense: seq<Number>)
    requires Filled(other, pairs, dense).Some?
    ensures forall i :: 0 <= i < |pairs| ==> ReadPair(other, |dense|, pairs[i]).Some?
    decreases |pairs|
  {
    if pairs != [] {
      var pair := ReadPair(other, |dense|, pairs[0]).value;
      EachPairReads(other, pairs[1..], dense[pair.0 := pair.1]);
      assert forall i :: 1 <= i < |pairs| ==> pairs[i] == pairs[1..][i - 1];
    }
  }

  /** What a literal writes at `k`: the value of the last pair of it, and zero where there is none. */
  ghost predicate IsWritten(
    other: string -> Option<Number>, dimension: nat, pairs: seq<string>, k: nat, value: Number) {
    (value == Whole(0) && Untouched(other, dimension, pairs, 0, k))
    || exists i :: 0 <= i < |pairs| && LastOf(other, dimension, pairs, i, k, value)
  }

  /**
   * Any literal that is accepted gives as many numbers as its dimension says, every pair of it in bounds, and at each
   * index the value of the last pair there, or zero.
   */
  lemma AcceptedIsInBounds(other: string -> Option<Number>, text: string)
    requires Parsed(other, text).Some?
    ensures Literal(text).Some?
    ensures var (body, dimension), dense := Literal(text).value, Parsed(other, text).value;
            var pairs := if body == "" then [] else Split(body, ',');
            && |dense| == dimension
            && (forall i :: 0 <= i < |pairs| ==> ReadPair(other, dimension, pairs[i]).Some?)
            && (forall k :: 0 <= k < dimension ==> IsWritten(other, dimension, pairs, k, dense[k]))
  {
    var (body, dimension) := Literal(text).value;
    if body != "" {
      var pairs := Split(body, ',');
      EachPairReads(other, pairs, Zeros(dimension));
      forall k | 0 <= k < dimension ensures IsWritten(other, dimension, pairs, k, Parsed(other, text).value[k]) {
        FilledAt(other, pairs, Zeros(dimension), k);
      }
    }
  }

  // ----- a vector written and read back -----

  predicate Lacks(s: string, c: char) {
    forall i :: 0 <= i < |s| ==> s[i] != c
  }

  lemma {:induction false} SplitsNowhere(s: string, c: char)
    requires Lacks(s, c)
    ensures Split(s, c) == [s]
  {
    if s != "" {
      SplitsNowhere(s[1..], c);
      assert s == [s[0]] + s[1..];
    }
  }

  lemma {:induction false} SplitsOnce(a: string, c: char, b: string)
    requires Lacks(a, c)
    ensures Split(a + ([c] + b), c) == [a] + Split(b, c)
    decreases |a|
  {
    if a == "" {
      assert a + ([c] + b) == [c] + b && ([c] + b)[1..] == b;
    } else {
      SplitsOnce(a[1..], c, b);
      assert (a + ([c] + b))[1..] == a[1..] + ([c] + b);
      assert a == [a[0]] + a[1..];
    }
  }

  lemma {:induction false} JoinedSplits(parts: seq<string>, c: char)
    requires parts != [] && forall i :: 0 <= i < |parts| ==> Lacks(parts[i], c)
    ensures Split(Joined(parts, c), c) == parts
    decreases |parts|
  {
    if |parts| == 1 {
      SplitsNowhere(parts[0], c);
    } else {
      JoinedSplits(parts[1..], c);
      SplitsOnce(parts[0], c, Joined(parts[1..], c));
      Regroup(parts[0], [c], Joined(parts[1..], c));
    }
  }

  lemma {:induction false} DecimalIsNumeral(n: nat)
    ensures IsNumeral(Decimal(n))
  {
    if n >= 10 {
      DecimalIsNumeral(n / 10);
    }
  }

  lemma NegativeReads(other: string -> Option<Number>, n: nat)
    ensures NumberIn(other, "-" + Decimal(n)) == Some(Whole(0 - n))
  {
    var shown := "-" + Decimal(n);
    DecimalIsNumeral(n);
    DecimalReadsBack(n);
    assert shown[0] == '-' && shown[1..] == Decimal(n);
    assert !IsNumeral(shown);
  }

  /** Digits, perhaps after a minus. */
  predicate IsShown(s: string) {
    s != "" && forall i :: 0 <= i < |s| ==> IsDigit(s[i]) || s[i] == '-'
  }

  /** An integer's text reads back, and holds nothing a literal is divided by. */
  lemma ShownReads(other: string -> Option<Number>, n: int)
    ensures NumberIn(other, ShownInt(n)) == Some(Whole(n)) && IsShown(ShownInt(n))
  {
    DecimalIsNumeral(if n < 0 then -n else n);
    DecimalReadsBack(if n < 0 then -n else n);
    if n < 0 {
      NegativeReads(other, -n);
    }
  }

  lemma PairSplits(a: string, b: string)
    requires IsShown(a) && IsShown(b)
    ensures Split(a + ":" + b, ':') == [a, b]
    ensures Lacks(a + ":" + b, ',') && OneLine(a + ":" + b)
  {
    Regroup(a, ":", b);
    SplitsOnce(a, ':', b);
    SplitsNowhere(b, ':');
  }

  lemma PairReads(other: string -> Option<Number>, dimension: nat, at: nat, n: int)
    requires at < dimension
    ensures ReadPair(other, dimension, Pair(at + 1, n)) == Some((at, Whole(n)))
    ensures Lacks(Pair(at + 1, n), ',') && OneLine(Pair(at + 1, n)) && Pair(at + 1, n) != ""
  {
    ShownReads(other, at + 1);
    ShownReads(other, n);
    PairSplits(ShownInt(at + 1), ShownInt(n));
  }

  function AllWhole(values: seq<int>): seq<Number> {
    seq(|values|, i requires 0 <= i < |values| => Whole(values[i]))
  }

  /** The vector up to `at`, and zeros after it. */
  function UpTo(values: seq<int>, at: nat): seq<Number>
    requires at <= |values|
  {
    AllWhole(values[..at]) + Zeros(|values| - at)
  }

  lemma {:induction false} PairsFill(other: string -> Option<Number>, values: seq<int>, at: nat)
    requires at <= |values|
    ensures Filled(other, Pairs(values, at), UpTo(values, at)) == Some(AllWhole(values))
    ensures forall i :: 0 <= i < |Pairs(values, at)| ==>
              Lacks(Pairs(values, at)[i], ',') && OneLine(Pairs(values, at)[i]) && Pairs(values, at)[i] != ""
    decreases |values| - at
  {
    if at == |values| {
      assert values[..at] == values;
      assert UpTo(values, at) == AllWhole(values);
    } else {
      PairsFill(other, values, at + 1);
      PairReads(other, |values|, at, values[at]);
      assert UpTo(values, at)[at := Whole(values[at])] == UpTo(values, at + 1);
      if values[at] == 0 {
        assert UpTo(values, at) == UpTo(values, at + 1);
      } else {
        assert Pairs(values, at)[1..] == Pairs(values, at + 1);
      }
    }
  }

  lemma {:induction false} JoinedOnOneLine(parts: seq<string>)
    requires forall i :: 0 <= i < |parts| ==> OneLine(parts[i]) && parts[i] != ""
    ensures OneLine(Joined(parts, ',')) && (parts != [] ==> Joined(parts, ',') != "")
    decreases |parts|
  {
    if |parts| > 1 {
      JoinedOnOneLine(parts[1..]);
    }
  }

  lemma {:induction false} DigitsEnd(s: string, digits: string)
    requires s != "" && !IsDigit(s[|s| - 1]) && forall i :: 0 <= i < |digits| ==> IsDigit(digits[i])
    ensures DigitsFrom(s + digits) == |s|
  {
    var k := DigitsFrom(s + digits);
    assert (s + digits)[|s| - 1] == s[|s| - 1];
    assert forall i :: |s| <= i < |s + digits| ==> (s + digits)[i] == digits[i - |s|];
  }

  lemma LiteralReads(body: string, n: nat)
    requires OneLine(body)
    ensures Literal("{" + body + "}/" + Decimal(n)) == Some((body, n))
  {
    var head, digits := "{" + body + "}/", Decimal(n);
    DecimalIsNumeral(n);
    DecimalReadsBack(n);
    DigitsEnd(head, digits);
    var all := head + digits;
    assert all[|head|..] == digits && all[1..|head| - 2] == body;
    assert all[|head| - 2] == '}' && all[|head| - 1] == '/' && all[0] == '{';
  }

  /** Every vector of integers, zeros and length included, is read back from the literal it is written as. */
  lemma SparsevecReadsBack(other: string -> Option<Number>, values: seq<int>)
    ensures Parsed(other, ToSparsevecLiteral(values)) == Some(AllWhole(values))
  {
    var pairs := Pairs(values, 0);
    PairsFill(other, values, 0);
    JoinedOnOneLine(pairs);
    LiteralReads(Joined(pairs, ','), |values|);
    assert UpTo(values, 0) == Zeros(|values|);
    if pairs != [] {
      JoinedSplits(pairs, ',');
    }
  }
}
