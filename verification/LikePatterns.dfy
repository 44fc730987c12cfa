/** Patterns of section 8.5 of SQL-92 with a backslash to escape by: what they match, and how values become them. */
module LikePatterns {
  import opened Options
  import opened Sequences

  /** One character of a pattern, and whether a backslash escaped it. */
  datatype PatternChar = PatternChar(c: char, escaped: bool)

  predicate IsSpecial(c: char) {
    c in {'\\', '%', '_', '['}
  }

  predicate IsPercent(t: PatternChar) {
    t == PatternChar('%', false)
  }

  predicate IsUnderscore(t: PatternChar) {
    t == PatternChar('_', false)
  }

  /** A pattern read left to right; a last backslash, which escapes nothing, reads as plain. */
  function Tokens(p: string): seq<PatternChar> {
    if p == [] then []
    else if p[0] == '\\' && |p| >= 2 then [PatternChar(p[1], true)] + Tokens(p[2..])
    else [PatternChar(p[0], false)] + Tokens(p[1..])
  }

  /** Section 8.5 of SQL-92: `%` stands for any substring, `_` for any one character, another for itself. */
  predicate MatchTokens(ts: seq<PatternChar>, s: string)
    decreases |ts|
  {
    if ts == [] then s == []
    else if IsPercent(ts[0]) then exists k | 0 <= k <= |s| :: MatchTokens(ts[1..], s[k..])
    else s != [] && (IsUnderscore(ts[0]) || s[0] == ts[0].c) && MatchTokens(ts[1..], s[1..])
  }

  predicate Matches(p: string, s: string) {
    MatchTokens(Tokens(p), s)
  }

  // ----- literals -----

  /** `value` as a pattern of itself. */
  function LikeLiteral(v: string): string {
    if v == [] then []
    else (if IsSpecial(v[0]) then ['\\', v[0]] else [v[0]]) + LikeLiteral(v[1..])
  }

  function LiteralTokens(v: string): seq<PatternChar> {
    seq(|v|, i requires 0 <= i < |v| => PatternChar(v[i], IsSpecial(v[i])))
  }

  lemma TokenEscaped(c: char, rest: string)
    ensures Tokens(['\\', c] + rest) == [PatternChar(c, true)] + Tokens(rest)
  {
    assert (['\\', c] + rest)[2..] == rest;
  }

  lemma TokenPlain(c: char, rest: string)
    requires c != '\\'
    ensures Tokens([c] + rest) == [PatternChar(c, false)] + Tokens(rest)
  {
    assert ([c] + rest)[1..] == rest;
  }

  lemma LiteralTokensCons(v: string)
    requires v != []
    ensures LiteralTokens(v) == [PatternChar(v[0], IsSpecial(v[0]))] + LiteralTokens(v[1..])
  {
  }

  lemma {:induction false} TokensOfLiteral(v: string, rest: string)
    ensures Tokens(LikeLiteral(v) + rest) == LiteralTokens(v) + Tokens(rest)
  {
    if v == [] {
      assert LikeLiteral(v) + rest == rest;
    } else {
      TokensOfLiteral(v[1..], rest);
      LiteralTokensCons(v);
      Regroup([PatternChar(v[0], IsSpecial(v[0]))], LiteralTokens(v[1..]), Tokens(rest));
      if IsSpecial(v[0]) {
        Regroup(['\\', v[0]], LikeLiteral(v[1..]), rest);
        TokenEscaped(v[0], LikeLiteral(v[1..]) + rest);
      } else {
        Regroup([v[0]], LikeLiteral(v[1..]), rest);
        TokenPlain(v[0], LikeLiteral(v[1..]) + rest);
      }
    }
  }

  lemma {:induction false} LiteralConsumes(v: string, ts: seq<PatternChar>, s: string)
    ensures MatchTokens(LiteralTokens(v) + ts, s) <==> v <= s && MatchTokens(ts, s[|v|..])
  {
    if v == [] {
      assert LiteralTokens(v) + ts == ts;
      assert s[|v|..] == s;
    } else {
      var all := LiteralTokens(v) + ts;
      assert all[1..] == LiteralTokens(v[1..]) + ts;
      assert all[0] == PatternChar(v[0], IsSpecial(v[0]));
      if s != [] {
        LiteralConsumes(v[1..], ts, s[1..]);
        if v <= s {
          assert s[1..][|v[1..]|..] == s[|v|..];
        }
        assert v == [v[0]] + v[1..] && s == [s[0]] + s[1..];
      }
    }
  }

  const Percent := PatternChar('%', false)

  lemma PercentMatchesAll(s: string)
    ensures MatchTokens([Percent], s)
  {
    assert MatchTokens([Percent][1..], s[|s|..]);
  }

  /** A literal pattern matches the value it was made of, and nothing else. */
  lemma LiteralMatchesItself(v: string, s: string)
    ensures Matches(LikeLiteral(v), s) <==> s == v
  {
    TokensOfLiteral(v, []);
    assert LikeLiteral(v) + [] == LikeLiteral(v);
    assert LiteralTokens(v) + Tokens([]) == LiteralTokens(v) + [];
    LiteralConsumes(v, [], s);
  }

  predicate IsSuffix(v: string, s: string) {
    |v| <= |s| && s[|s| - |v|..] == v
  }

  predicate IsSubstring(v: string, s: string) {
    exists k | 0 <= k <= |s| :: v <= s[k..]
  }

  lemma StartsWithIsPrefix(v: string, s: string)
    ensures Matches(LikeLiteral(v) + "%", s) <==> v <= s
  {
    TokensOfLiteral(v, "%");
    assert Tokens("%") == [Percent];
    LiteralConsumes(v, [Percent], s);
    if v <= s {
      PercentMatchesAll(s[|v|..]);
    }
  }

  lemma TokensAfterPercent(p: string)
    ensures Tokens("%" + p) == [Percent] + Tokens(p)
  {
    assert ("%" + p)[1..] == p;
  }

  lemma EndsWithIsSuffix(v: string, s: string)
    ensures Matches("%" + LikeLiteral(v), s) <==> IsSuffix(v, s)
  {
    TokensAfterPercent(LikeLiteral(v));
    var ts := [Percent] + Tokens(LikeLiteral(v));
    assert ts[1..] == Tokens(LikeLiteral(v));
    forall k | 0 <= k <= |s| ensures MatchTokens(ts[1..], s[k..]) <==> s[k..] == v {
      LiteralMatchesItself(v, s[k..]);
    }
    if IsSuffix(v, s) {
      assert MatchTokens(ts[1..], s[|s| - |v|..]);
    }
  }

  lemma IncludesIsSubstring(v: string, s: string)
    ensures Matches("%" + LikeLiteral(v) + "%", s) <==> IsSubstring(v, s)
  {
    assert "%" + LikeLiteral(v) + "%" == "%" + (LikeLiteral(v) + "%");
    TokensAfterPercent(LikeLiteral(v) + "%");
    var ts := [Percent] + Tokens(LikeLiteral(v) + "%");
    assert ts[1..] == Tokens(LikeLiteral(v) + "%");
    forall k | 0 <= k <= |s| ensures MatchTokens(ts[1..], s[k..]) <==> v <= s[k..] {
      StartsWithIsPrefix(v, s[k..]);
    }
  }

  // ----- patterns -----

  predicate IsDangling(t: PatternChar) {
    t == PatternChar('\\', false)
  }

  /** Each character written back, `[` with a backslash of its own and an escaped one with the one it had. */
  function Written(ts: seq<PatternChar>): string {
    if ts == [] then []
    else (if ts[0].escaped || ts[0].c == '[' then ['\\', ts[0].c] else [ts[0].c]) + Written(ts[1..])
  }

  /** `pattern` with its `[` escaped, or none where its last backslash has nothing after it. */
  function LikePattern(p: string): Option<string> {
    var ts := Tokens(p);
    if ts != [] && IsDangling(ts[|ts| - 1]) then None else Some(Written(ts))
  }

  function EscapedBrackets(ts: seq<PatternChar>): seq<PatternChar> {
    seq(|ts|, i requires 0 <= i < |ts| => PatternChar(ts[i].c, ts[i].escaped || ts[i].c == '['))
  }

  /** A backslash escaping nothing can only be the last character. */
  lemma {:induction false} DanglingIsLast(p: string, i: nat)
    requires i < |Tokens(p)| && IsDangling(Tokens(p)[i])
    ensures i == |Tokens(p)| - 1
    decreases |p|
  {
    if p[0] == '\\' && |p| >= 2 {
      DanglingIsLast(p[2..], i - 1);
    } else if i > 0 {
      DanglingIsLast(p[1..], i - 1);
    } else {
      assert |p| == 1;
    }
  }

  lemma {:induction false} TokensOfWritten(ts: seq<PatternChar>)
    requires forall t :: t in ts ==> !IsDangling(t)
    ensures Tokens(Written(ts)) == EscapedBrackets(ts)
  {
    if ts != [] {
      assert forall t :: t in ts[1..] ==> t in ts;
      TokensOfWritten(ts[1..]);
      assert ts[0] in ts;
      if ts[0].escaped || ts[0].c == '[' {
        TokenEscaped(ts[0].c, Written(ts[1..]));
      } else {
        TokenPlain(ts[0].c, Written(ts[1..]));
      }
      assert EscapedBrackets(ts) == [EscapedBrackets(ts)[0]] + EscapedBrackets(ts[1..]);
    }
  }

  lemma TokensOfPattern(p: string)
    requires LikePattern(p).Some?
    ensures Tokens(LikePattern(p).value) == EscapedBrackets(Tokens(p))
  {
    forall t | t in Tokens(p) ensures !IsDangling(t) {
      var i :| 0 <= i < |Tokens(p)| && Tokens(p)[i] == t;
      if IsDangling(t) {
        DanglingIsLast(p, i);
      }
    }
    TokensOfWritten(Tokens(p));
  }

  /** A pattern the language takes is written once and for all: taken again, it is as it was. */
  lemma PatternIsIdempotent(p: string)
    requires LikePattern(p).Some?
    ensures LikePattern(LikePattern(p).value) == LikePattern(p)
  {
    TokensOfPattern(p);
    var ts := Tokens(p);
    WrittenIgnoresBrackets(ts);
  }

  lemma {:induction false} WrittenIgnoresBrackets(ts: seq<PatternChar>)
    ensures Written(EscapedBrackets(ts)) == Written(ts)
  {
    if ts != [] {
      WrittenIgnoresBrackets(ts[1..]);
      assert EscapedBrackets(ts)[1..] == EscapedBrackets(ts[1..]);
    }
  }

  /**
   * The language as an engine reads it that opens a character class with a bare `[`: what `classes` says of the
   * pattern from there on and the string left, whatever that is.
   */
  ghost predicate MatchWithClasses(classes: (seq<PatternChar>, string) -> bool, ts: seq<PatternChar>, s: string)
    decreases |ts|
  {
    if ts == [] then s == []
    else if IsPercent(ts[0]) then exists k | 0 <= k <= |s| :: MatchWithClasses(classes, ts[1..], s[k..])
    else if ts[0] == PatternChar('[', false) then classes(ts, s)
    else s != [] && (IsUnderscore(ts[0]) || s[0] == ts[0].c) && MatchWithClasses(classes, ts[1..], s[1..])
  }

  lemma {:induction false} ClassesNeverOpen(
    classes: (seq<PatternChar>, string) -> bool, ts: seq<PatternChar>, s: string)
    ensures MatchWithClasses(classes, EscapedBrackets(ts), s) <==> MatchTokens(ts, s)
    decreases |ts|
  {
    if ts != [] {
      var es := EscapedBrackets(ts);
      assert es[1..] == EscapedBrackets(ts[1..]);
      if IsPercent(ts[0]) {
        forall k | 0 <= k <= |s|
          ensures MatchWithClasses(classes, es[1..], s[k..]) <==> MatchTokens(ts[1..], s[k..])
        {
          ClassesNeverOpen(classes, ts[1..], s[k..]);
        }
      } else if s != [] {
        ClassesNeverOpen(classes, ts[1..], s[1..]);
      }
    }
  }

  /** What is sent matches what was asked for, on an engine that opens a class with `[` and on one that does not. */
  lemma PatternMeansTheSameEverywhere(p: string, s: string, classes: (seq<PatternChar>, string) -> bool)
    requires LikePattern(p).Some?
    ensures Matches(LikePattern(p).value, s) <==> Matches(p, s)
    ensures MatchWithClasses(classes, Tokens(LikePattern(p).value), s) <==> Matches(p, s)
  {
    TokensOfPattern(p);
    ClassesNeverOpen(classes, Tokens(p), s);
    var es := EscapedBrackets(Tokens(p));
    assert EscapedBrackets(es) == es;
    var plain := (ts: seq<PatternChar>, rest: string) => false;
    ClassesNeverOpen(plain, Tokens(p), s);
    ClassesNeverOpen(plain, es, s);
  }

  // ----- regular expressions -----

  /** What {@link LikeRegex} writes: a character, `[\s\S]`, `[\s\S]*`, `^` or `\z`. */
  datatype RegexItem = Chr(c: char) | AnyChar | AnyRun | Start | End

  /** Whether a regex matches `s` from offset `i` on. */
  predicate MatchesAt(items: seq<RegexItem>, s: string, i: nat)
    requires i <= |s|
    decreases |items|
  {
    if items == [] then true
    else match items[0]
      case Start => i == 0 && MatchesAt(items[1..], s, i)
      case End => i == |s| && MatchesAt(items[1..], s, i)
      case Chr(c) => i < |s| && s[i] == c && MatchesAt(items[1..], s, i + 1)
      case AnyChar => i < |s| && MatchesAt(items[1..], s, i + 1)
      case AnyRun => exists j: nat | i <= j <= |s| :: MatchesAt(items[1..], s, j)
  }

  /** Whether a regex is found anywhere in `s`. */
  predicate Found(items: seq<RegexItem>, s: string) {
    exists i: nat | i <= |s| :: MatchesAt(items, s, i)
  }

  function ItemOf(t: PatternChar): RegexItem {
    if IsPercent(t) then AnyRun else if IsUnderscore(t) then AnyChar else Chr(t.c)
  }

  function Items(ts: seq<PatternChar>): seq<RegexItem> {
    seq(|ts|, i requires 0 <= i < |ts| => ItemOf(ts[i]))
  }

  /** The regex of a pattern, an edge `%` dropping its anchor. */
  function LikeRegex(p: string): seq<RegexItem> {
    var items := Items(Tokens(p));
    var open := items != [] && items[0] == AnyRun;
    var closed := items == [] || items[|items| - 1] != AnyRun;
    var from := if open then 1 else 0;
    var to := if closed then |items| else |items| - 1;
    var body := if from <= to then items[from..to] else [];
    (if open then [] else [Start]) + body + (if closed then [End] else [])
  }

  lemma {:induction false} AnchoredTail(ts: seq<PatternChar>, s: string, i: nat)
    requires i <= |s|
    ensures MatchesAt(Items(ts) + [End], s, i) <==> MatchTokens(ts, s[i..])
    decreases |ts|
  {
    var items := Items(ts) + [End];
    if ts == [] {
      assert items == [End];
      assert MatchesAt(items[1..], s, i);
    } else {
      assert items[1..] == Items(ts[1..]) + [End];
      RunSplits(ts, s, i);
      forall j: nat | i <= j <= |s| ensures MatchesAt(items[1..], s, j) <==> MatchTokens(ts[1..], s[j..]) {
        AnchoredTail(ts[1..], s, j);
      }
    }
  }

  lemma {:induction false} OpenTail(ts: seq<PatternChar>, s: string, i: nat)
    requires i <= |s|
    ensures MatchesAt(Items(ts), s, i) <==> MatchTokens(ts + [Percent], s[i..])
    decreases |ts|
  {
    var items := Items(ts);
    if ts == [] {
      assert ts + [Percent] == [Percent];
      PercentMatchesAll(s[i..]);
    } else {
      assert items[1..] == Items(ts[1..]);
      var all := ts + [Percent];
      assert all[1..] == ts[1..] + [Percent];
      forall j: nat | i <= j <= |s| ensures MatchesAt(items[1..], s, j) <==> MatchTokens(all[1..], s[j..]) {
        OpenTail(ts[1..], s, j);
      }
      RunSplits(all, s, i);
    }
  }

  /** A `%` at the front of `ts` read from offset `i` may stop at any later offset. */
  lemma RunSplits(ts: seq<PatternChar>, s: string, i: nat)
    requires ts != [] && i <= |s|
    ensures IsPercent(ts[0]) ==>
              (MatchTokens(ts, s[i..]) <==> exists j: nat | i <= j <= |s| :: MatchTokens(ts[1..], s[j..]))
    ensures !IsPercent(ts[0]) && i < |s| ==>
              (MatchTokens(ts, s[i..]) <==>
               (IsUnderscore(ts[0]) || s[i] == ts[0].c) && MatchTokens(ts[1..], s[i + 1..]))
  {
    var t := s[i..];
    if IsPercent(ts[0]) {
      forall k | 0 <= k <= |t| ensures t[k..] == s[i + k..] {}
      if MatchTokens(ts, t) {
        var k :| 0 <= k <= |t| && MatchTokens(ts[1..], t[k..]);
        assert MatchTokens(ts[1..], s[i + k..]);
      }
      forall j: nat | i <= j <= |s| && MatchTokens(ts[1..], s[j..]) ensures MatchTokens(ts, t) {
        assert t[j - i..] == s[j..];
      }
    } else if i < |s| {
      assert t[1..] == s[i + 1..];
    }
  }

  /** What is left of a pattern from `from` on, an edge `%` at its end dropped with its anchor. */
  lemma TailMatches(ts: seq<PatternChar>, from: nat, closed: bool, s: string, i: nat)
    requires from <= |ts| && i <= |s|
    requires !closed ==> from < |ts| && ts[|ts| - 1] == Percent
    ensures var to := if closed then |ts| else |ts| - 1;
            MatchesAt(Items(ts)[from..to] + (if closed then [End] else []), s, i) <==> MatchTokens(ts[from..], s[i..])
  {
    var to := if closed then |ts| else |ts| - 1;
    var kept := ts[from..to];
    assert Items(ts)[from..to] == Items(kept);
    if closed {
      assert ts[from..] == kept;
      AnchoredTail(kept, s, i);
    } else {
      assert ts[from..] == kept + [Percent];
      assert Items(kept) + [] == Items(kept);
      OpenTail(kept, s, i);
    }
  }

  lemma SearchFrom(ts: seq<PatternChar>, tail: seq<RegexItem>, s: string)
    requires ts != [] && ts[0] == Percent
    requires forall i: nat :: i <= |s| ==> (MatchesAt(tail, s, i) <==> MatchTokens(ts[1..], s[i..]))
    ensures Found(tail, s) <==> MatchTokens(ts, s)
  {
    assert s[0..] == s;
    RunSplits(ts, s, 0);
    if MatchTokens(ts, s) {
      var j: nat :| j <= |s| && MatchTokens(ts[1..], s[j..]);
      assert MatchesAt(tail, s, j);
    }
  }

  lemma StartAnchors(ts: seq<PatternChar>, tail: seq<RegexItem>, s: string)
    requires MatchesAt(tail, s, 0) <==> MatchTokens(ts, s)
    ensures Found([Start] + tail, s) <==> MatchTokens(ts, s)
  {
    var regex := [Start] + tail;
    assert regex[1..] == tail;
    assert MatchesAt(regex, s, 0) <==> MatchesAt(tail, s, 0);
  }

  /** Searching with the regex accepts exactly the strings the pattern matches. */
  lemma RegexMeansPattern(p: string, s: string)
    ensures Found(LikeRegex(p), s) <==> Matches(p, s)
  {
    var ts := Tokens(p);
    var open := ts != [] && ItemOf(ts[0]) == AnyRun;
    var closed := ts == [] || ItemOf(ts[|ts| - 1]) != AnyRun;
    var from := if open then 1 else 0;
    if open && !closed && |ts| == 1 {
      assert ts == [Percent];
      PercentMatchesAll(s);
      assert MatchesAt(LikeRegex(p), s, 0);
    } else {
      var to := if closed then |ts| else |ts| - 1;
      var tail := Items(ts)[from..to] + (if closed then [End] else []);
      forall i: nat | i <= |s| ensures MatchesAt(tail, s, i) <==> MatchTokens(ts[from..], s[i..]) {
        TailMatches(ts, from, closed, s, i);
      }
      if open {
        Regroup([], Items(ts)[from..to], if closed then [End] else []);
        assert [] + tail == tail;
        assert LikeRegex(p) == tail;
        SearchFrom(ts, tail, s);
      } else {
        Regroup([Start], Items(ts)[from..to], if closed then [End] else []);
        assert ts[0..] == ts && s[0..] == s;
        assert MatchesAt(tail, s, 0) <==> MatchTokens(ts, s);
        StartAnchors(ts, tail, s);
      }
    }
  }
}
