/** The text a JSON update is built as is that of the expression whose meaning is proved, read from left to right. */
module JsonRendering {
  import opened Options
  import opened SqlText
  import opened WhereText
  import opened Sequences
  import opened JsonText
  import D = JsonDocuments
  import F = JsonFold
  import J = JsonSql
  import T = JsonFoldTheorem
  import U = JsonUpdates

  // ----- an expression, in the order of its text -----

  function CondText(m: Mode, at: Slot, c: J.Cond, n: nat): Piece {
    match c
    case Is(path, kind) => Plain(IsKindText(at, path, kind))
    case IsNull(path) => Plain(IsNullText(at, path))
    case Contains(path, item) => HoldsText(m, at, path, item, n)
    case Either(left, right) =>
      var l := CondText(m, at, left, n);
      var r := CondText(m, at, right, n + |l.values|);
      Piece(l.text + [KwOr] + r.text, l.values + r.values)
  }

  function WhenText(c: Piece, a: Piece): Piece {
    Piece([Word("CASE WHEN")] + c.text + [Word("THEN")] + a.text + [Word("END")], c.values + a.values)
  }

  function CaseText(c: Piece, a: Piece, b: Piece): Piece {
    Piece([Word("CASE WHEN")] + c.text + [Word("THEN")] + a.text + [Word("ELSE")] + b.text + [Word("END")],
          c.values + a.values + b.values)
  }

  function InsertText(a: Piece, unless: Option<J.Cond>, c: Piece, i: Piece): Piece {
    Piece(InsertTokens(a.text, if unless.None? then None else Some(c.text), i.text), a.values + c.values + i.values)
  }

  function Rendered(m: Mode, at: Slot, sql: J.Sql, n: nat): Piece
    decreases sql
  {
    match sql
    case Current => Plain([Column(at.alias, at.name)])
    case Missing => Plain([Word("NULL")])
    case Constant(v) => Plain(ConstantText(m.dialect.json.flavor, v))
    case Bound(v) => BoundText(m, v, n)
    case BoundArray(item) => ElementArrayText(m, item, n)
    case Extract(path) => Plain(StoredText(at, path))
    case Coalesce(first, second) =>
      var a := Rendered(m, at, first, n);
      Two([Word("COALESCE"), LParen], a, [Comma], Rendered(m, at, second, n + |a.values|), [RParen])
    case Case(when, then', else') =>
      var c := CondText(m, at, when, n);
      var a := Rendered(m, at, then', n + |c.values|);
      if else'.Missing? then WhenText(c, a)
      else CaseText(c, a, Rendered(m, at, else', n + |c.values| + |a.values|))
    case KeptAt(path, pulls) => KeptText(m, at, path, pulls, n)
    case ArrayAppend(whole, item) =>
      var a := Rendered(m, at, whole, n);
      Two([Word("JSON_ARRAY_APPEND"), LParen], a, [Comma, PathText([]), Comma], ElementText(m, item, n + |a.values|),
          [RParen])
    case MergePreserve(whole, added) =>
      var a := Rendered(m, at, whole, n);
      Two([Word("JSON_MERGE_PRESERVE"), LParen], a, [Comma], Rendered(m, at, added, n + |a.values|), [RParen])
    case InsertLast(whole, unless, item) =>
      var a := Rendered(m, at, whole, n);
      var c := if unless.None? then Plain([]) else CondText(m, at, unless.value, n + |a.values|);
      InsertText(a, unless, c, ElementText(m, item, n + |a.values| + |c.values|))
    case Concat(first, second) =>
      var a := Rendered(m, at, first, n);
      Two([], a, [Word("||")], Rendered(m, at, second, n + |a.values|), [])
    case Call(fn, target, args) =>
      var a := Rendered(m, at, target, n);
      var gs := GroupTexts(m, at, fn, args, n + |a.values|);
      Piece(CallText(CallName(m.dialect.json.flavor, fn), a.text, gs.parts), a.values + gs.values)
    case OneCall(fn, target, path, value) =>
      var a := Rendered(m, at, target, n);
      var g := GroupText(fn, path, Rendered(m, at, value, n + |a.values|));
      Piece(OneCallText(fn, a.text, g.text), a.values + g.values)
  }

  /** Each path of a call with its value, one after another. */
  function GroupTexts(m: Mode, at: Slot, fn: J.Fn, args: seq<J.Arg>, n: nat): Pieces
    decreases args
  {
    if args == [] then Pieces([], [])
    else
      var first := GroupText(fn, args[0].path, Rendered(m, at, args[0].value, n));
      var rest := GroupTexts(m, at, fn, args[1..], n + |first.values|);
      Pieces([first.text] + rest.parts, first.values + rest.values)
  }

  // ----- one expression around others -----

  lemma CoalesceUnfolds(m: Mode, at: Slot, first: J.Sql, second: J.Sql, n: nat)
    ensures var a := Rendered(m, at, first, n);
            Rendered(m, at, J.Coalesce(first, second), n)
              == Two([Word("COALESCE"), LParen], a, [Comma], Rendered(m, at, second, n + |a.values|), [RParen])
  {
    hide BoundText, ConstantText, KeptText, StoredText, ElementText, ElementArrayText, GroupTexts, CallText,
    OneCallText, GroupText, CondText, InsertText, CallName, PathText, CaseText, WhenText;
  }

  lemma WhenUnfolds(m: Mode, at: Slot, when: J.Cond, then': J.Sql, n: nat)
    ensures var c := CondText(m, at, when, n);
            Rendered(m, at, J.Case(when, then', J.Missing), n) == WhenText(c, Rendered(m, at, then', n + |c.values|))
  {
    hide CondText, BoundText, ConstantText, KeptText, StoredText, ElementText, ElementArrayText, GroupTexts, CallText,
    OneCallText, GroupText, InsertText, CallName, PathText, Two, CaseText;
  }

  lemma CaseUnfolds(m: Mode, at: Slot, when: J.Cond, then': J.Sql, else': J.Sql, n: nat)
    requires !else'.Missing?
    ensures var c := CondText(m, at, when, n);
            var a := Rendered(m, at, then', n + |c.values|);
            Rendered(m, at, J.Case(when, then', else'), n)
              == CaseText(c, a, Rendered(m, at, else', n + |c.values| + |a.values|))
  {
    hide CondText, BoundText, ConstantText, KeptText, StoredText, ElementText, ElementArrayText, GroupTexts, CallText,
    OneCallText, GroupText, InsertText, CallName, PathText, Two;
  }

  lemma ArrayAppendUnfolds(m: Mode, at: Slot, whole: J.Sql, item: D.Json, n: nat)
    ensures var a := Rendered(m, at, whole, n);
            Rendered(m, at, J.ArrayAppend(whole, item), n)
              == Two([Word("JSON_ARRAY_APPEND"), LParen], a, [Comma, PathText([]), Comma],
                     ElementText(m, item, n + |a.values|), [RParen])
  {
    hide ElementText, BoundText, ConstantText, KeptText, StoredText, ElementArrayText, GroupTexts, CallText,
    OneCallText, GroupText, CondText, InsertText, CallName, PathText, CaseText, WhenText;
  }

  lemma MergeUnfolds(m: Mode, at: Slot, whole: J.Sql, added: J.Sql, n: nat)
    ensures var a := Rendered(m, at, whole, n);
            Rendered(m, at, J.MergePreserve(whole, added), n)
              == Two([Word("JSON_MERGE_PRESERVE"), LParen], a, [Comma], Rendered(m, at, added, n + |a.values|),
                     [RParen])
  {
    hide BoundText, ConstantText, KeptText, StoredText, ElementText, ElementArrayText, GroupTexts, CallText,
    OneCallText, GroupText, CondText, InsertText, CallName, PathText, CaseText, WhenText;
  }

  lemma InsertUnfolds(m: Mode, at: Slot, whole: J.Sql, unless: Option<J.Cond>, item: D.Json, n: nat)
    ensures var a := Rendered(m, at, whole, n);
            var c := if unless.None? then Plain([]) else CondText(m, at, unless.value, n + |a.values|);
            Rendered(m, at, J.InsertLast(whole, unless, item), n)
              == InsertText(a, unless, c, ElementText(m, item, n + |a.values| + |c.values|))
  {
    hide ElementText, CondText, InsertTokens, BoundText, ConstantText, KeptText, StoredText, ElementArrayText,
    GroupTexts, CallText, OneCallText, GroupText, InsertText, CallName, PathText;
  }

  lemma ConcatUnfolds(m: Mode, at: Slot, first: J.Sql, second: J.Sql, n: nat)
    ensures var a := Rendered(m, at, first, n);
            Rendered(m, at, J.Concat(first, second), n)
              == Two([], a, [Word("||")], Rendered(m, at, second, n + |a.values|), [])
  {
    hide BoundText, ConstantText, KeptText, StoredText, ElementText, ElementArrayText, GroupTexts, CallText,
    OneCallText, GroupText, CondText, InsertText, CallName, PathText, CaseText, WhenText;
  }

  lemma CallUnfolds(m: Mode, at: Slot, fn: J.Fn, target: J.Sql, args: seq<J.Arg>, n: nat)
    ensures var a := Rendered(m, at, target, n);
            var gs := GroupTexts(m, at, fn, args, n + |a.values|);
            Rendered(m, at, J.Call(fn, target, args), n)
              == Piece(CallText(CallName(m.dialect.json.flavor, fn), a.text, gs.parts), a.values + gs.values)
  {
    hide GroupTexts, CallText, CallName, BoundText, ConstantText, KeptText, StoredText, ElementText, ElementArrayText,
    OneCallText, GroupText, CondText, InsertText, PathText;
  }

  lemma OneCallUnfolds(m: Mode, at: Slot, fn: J.Fn, target: J.Sql, path: D.Path, value: J.Sql, n: nat)
    ensures var a := Rendered(m, at, target, n);
            var g := GroupText(fn, path, Rendered(m, at, value, n + |a.values|));
            Rendered(m, at, J.OneCall(fn, target, path, value), n)
              == Piece(OneCallText(fn, a.text, g.text), a.values + g.values)
  {
    hide GroupText, OneCallText, BoundText, ConstantText, KeptText, StoredText, ElementText, ElementArrayText,
    GroupTexts, CallText, CondText, InsertText, CallName, PathText;
  }

  // ----- one append -----

  function TestOf(path: D.Path, a: U.Append): Option<J.Cond> {
    if a.unique then Some(J.Contains(path, a.item)) else None
  }

  /** What an append adds, in an array of its own. */
  function AddedText(m: Mode, at: Slot, path: D.Path, a: U.Append, n: nat): Piece {
    var test := TestText(m, at, path, a, n);
    var i := ElementText(m, a.item, n + |test.values|);
    Piece(ItemTokens(m.dialect.json.flavor, if a.unique then Some(test.text) else None, i.text), test.values + i.values)
  }

  lemma AddedIsWritten(m: Mode, at: Slot, path: D.Path, a: U.Append, n: nat)
    ensures Rendered(m, at, U.ItemUnless(a.item, TestOf(path, a)), n) == AddedText(m, at, path, a, n)
  {
    hide ElementText, HoldsText, ConstantText;
    if a.unique {
      var test := HoldsText(m, at, path, a.item, n);
      CaseUnfolds(m, at, J.Contains(path, a.item), J.Constant(D.EMPTY_ARRAY), J.BoundArray(a.item), n);
      NothingAfter(test.values);
    } else {
      NothingBefore(ElementText(m, a.item, n).values);
    }
  }

  lemma TwoShape(a: Tokens, p: Piece, b: Tokens, q: Piece, c: Tokens)
    ensures Two(a, p, b, q, c).text == a + p.text + b + q.text + c && Two(a, p, b, q, c).values == p.values + q.values
  {
  }

  lemma MysqlAppended(m: Mode, at: Slot, whole: J.Sql, path: D.Path, a: U.Append, n: nat)
    requires m.dialect.json.flavor.Mysql?
    ensures var w := Rendered(m, at, whole, n);
            AppendedText(m, at, w, path, a, n + |w.values|)
              == Rendered(m, at, U.Appended(J.Mysql, whole, a.item, TestOf(path, a)), n)
  {
    hide Rendered, ElementText, HoldsText, ItemTokens;
    var w := Rendered(m, at, whole, n);
    var k := n + |w.values|;
    var test := TestText(m, at, path, a, k);
    var i := ElementText(m, a.item, k + |test.values|);
    if a.unique {
      MergeUnfolds(m, at, whole, U.ItemUnless(a.item, TestOf(path, a)), n);
      AddedIsWritten(m, at, path, a, k);
      Regroup(w.values, test.values, i.values);
    } else {
      ArrayAppendUnfolds(m, at, whole, a.item, n);
      NothingAfter(w.values);
    }
  }

  lemma SqliteAppended(m: Mode, at: Slot, whole: J.Sql, path: D.Path, a: U.Append, n: nat)
    requires m.dialect.json.flavor.Sqlite?
    ensures var w := Rendered(m, at, whole, n);
            AppendedText(m, at, w, path, a, n + |w.values|)
              == Rendered(m, at, U.Appended(J.Sqlite, whole, a.item, TestOf(path, a)), n)
  {
    hide Rendered, ElementText, HoldsText, InsertTokens;
    InsertUnfolds(m, at, whole, TestOf(path, a), a.item, n);
  }

  lemma PostgresAppended(m: Mode, at: Slot, whole: J.Sql, path: D.Path, a: U.Append, n: nat)
    requires m.dialect.json.flavor.Postgres?
    ensures var w := Rendered(m, at, whole, n);
            AppendedText(m, at, w, path, a, n + |w.values|)
              == Rendered(m, at, U.Appended(J.Postgres, whole, a.item, TestOf(path, a)), n)
  {
    hide Rendered, ElementText, HoldsText, ItemTokens;
    var w := Rendered(m, at, whole, n);
    var k := n + |w.values|;
    var test := TestText(m, at, path, a, k);
    var added := AddedText(m, at, path, a, k);
    ConcatUnfolds(m, at, whole, U.ItemUnless(a.item, TestOf(path, a)), n);
    AddedIsWritten(m, at, path, a, k);
    Regroup(w.values, test.values, ElementText(m, a.item, k + |test.values|).values);
    NothingBefore(w.text);
    NothingAfter(w.text + [Word("||")] + added.text);
  }

  lemma AppendedIsWritten(m: Mode, at: Slot, whole: J.Sql, path: D.Path, a: U.Append, n: nat)
    ensures var w := Rendered(m, at, whole, n);
            AppendedText(m, at, w, path, a, n + |w.values|)
              == Rendered(m, at, U.Appended(m.dialect.json.flavor, whole, a.item, TestOf(path, a)), n)
  {
    hide Rendered, AppendedText, U.Appended;
    match m.dialect.json.flavor
    case Mysql => MysqlAppended(m, at, whole, path, a, n);
    case Sqlite => SqliteAppended(m, at, whole, path, a, n);
    case Postgres => PostgresAppended(m, at, whole, path, a, n);
  }

  lemma {:induction false} AppendsAreWritten(
    m: Mode, at: Slot, whole: J.Sql, path: D.Path, appends: seq<U.Append>, n: nat)
    ensures AppendedAll(m, at, Rendered(m, at, whole, n), path, appends, n)
         == Rendered(m, at, U.AppendsSql(m.dialect.json.flavor, whole, path, appends), n)
    decreases |appends|
  {
    hide Rendered, AppendedText, U.Appended;
    if appends != [] {
      var a := appends[0];
      AppendedIsWritten(m, at, whole, path, a, n);
      AppendsAreWritten(m, at, U.Appended(m.dialect.json.flavor, whole, a.item, TestOf(path, a)), path, appends[1..],
                        n);
    }
  }

  // ----- one array -----

  lemma WithinAsTwo(a: Tokens, p: Piece, b: Tokens, t: Tokens, c: Tokens)
    ensures Two(a, p, b, Plain(t), c) == Within(a, p, b + t + c)
  {
    RegroupAll(a + p.text, b, t, c);
    Regroup(b, t, c);
    NothingAfter(p.values);
  }

  lemma StartIsWritten(m: Mode, at: Slot, path: D.Path, pulls: seq<D.Json>, n: nat)
    ensures StartText(m, at, path, pulls, n) == Rendered(m, at, U.KeptSql(path, pulls), n)
  {
    hide KeptText, ConstantText, StoredText;
    var f := m.dialect.json.flavor;
    if pulls != [] {
      CoalesceUnfolds(m, at, J.KeptAt(path, pulls), J.Constant(D.EMPTY_ARRAY), n);
      WithinAsTwo([Word("COALESCE"), LParen], KeptText(m, at, path, pulls, n), [Comma], ConstantText(f, D.EMPTY_ARRAY),
                  [RParen]);
    }
  }

  lemma FirstIsWritten(m: Mode, at: Slot, path: D.Path, pulls: seq<D.Json>, n: nat)
    ensures FirstText(m, at, path, pulls, n)
         == Rendered(m, at, J.Case(J.IsNull(path), J.Constant(D.EMPTY_ARRAY), U.KeptSql(path, pulls)), n)
  {
    hide StartText, ConstantText, IsNullText, KeptText, StoredText;
    StartIsWritten(m, at, path, pulls, n);
    CaseUnfolds(m, at, J.IsNull(path), J.Constant(D.EMPTY_ARRAY), U.KeptSql(path, pulls), n);
    NothingBefore(StartText(m, at, path, pulls, n).values);
  }

  lemma WhenIsWritten(m: Mode, at: Slot, when: J.Cond, then': J.Sql, test: Tokens, n: nat)
    requires CondText(m, at, when, n) == Plain(test)
    ensures When(test, Rendered(m, at, then', n)) == Rendered(m, at, J.Case(when, then', J.Missing), n)
  {
    hide CondText, Rendered;
    WhenUnfolds(m, at, when, then', n);
    NothingBefore(Rendered(m, at, then', n).values);
  }

  lemma EitherIsWritten(m: Mode, at: Slot, path: D.Path, n: nat)
    ensures CondText(m, at, J.Either(J.IsNull(path), J.Is(path, J.IsArray)), n)
         == Plain(IsNullText(at, path) + [KwOr] + IsKindText(at, path, J.IsArray))
  {
    hide IsNullText, IsKindText;
  }

  lemma ArrayIsWritten(m: Mode, at: Slot, path: D.Path, w: U.ArrayWrites, n: nat)
    ensures ArrayText(m, at, path, w, n) == Rendered(m, at, U.ArrayWriteSql(m.dialect.json.flavor, path, w), n)
  {
    hide Rendered, StartText, FirstText, AppendedAll, U.AppendsSql, U.KeptSql, When, IsNullText, IsKindText;
    var f := m.dialect.json.flavor;
    if w.appends == [] {
      StartIsWritten(m, at, path, w.pulls, n);
      WhenIsWritten(m, at, J.Is(path, J.IsArray), U.KeptSql(path, w.pulls), IsKindText(at, path, J.IsArray), n);
    } else {
      var start := J.Case(J.IsNull(path), J.Constant(D.EMPTY_ARRAY), U.KeptSql(path, w.pulls));
      FirstIsWritten(m, at, path, w.pulls, n);
      AppendsAreWritten(m, at, start, path, w.appends, n);
      EitherIsWritten(m, at, path, n);
      WhenIsWritten(m, at, J.Either(J.IsNull(path), J.Is(path, J.IsArray)), U.AppendsSql(f, start, path, w.appends),
                    IsNullText(at, path) + [KwOr] + IsKindText(at, path, J.IsArray), n);
    }
  }

  lemma OrStoredIsWritten(m: Mode, at: Slot, path: D.Path, v: J.Sql, n: nat)
    ensures OrStoredText(at, path, Rendered(m, at, v, n)) == Rendered(m, at, U.OrStored(path, v), n)
  {
    hide StoredText;
    CoalesceUnfolds(m, at, v, J.Extract(path), n);
    WithinAsTwo([Word("COALESCE"), LParen], Rendered(m, at, v, n), [Comma], StoredText(at, path), [RParen]);
  }

  /** An array column's update is built as the expression that means it. */
  lemma ArrayUpdateIsWritten(m: Mode, at: Slot, w: U.ArrayWrites, n: nat)
    ensures ArrayUpdateText(m, at, w, n) == Rendered(m, at, U.ArrayUpdateSql(m.dialect.json.flavor, w), n)
  {
    hide Rendered, ArrayText, OrStoredText, U.ArrayWriteSql;
    ArrayIsWritten(m, at, [], w, n);
    OrStoredIsWritten(m, at, [], U.ArrayWriteSql(m.dialect.json.flavor, [], w), n);
  }

  // ----- groups and calls -----

  lemma GroupsUnfold(m: Mode, at: Slot, fn: J.Fn, args: seq<J.Arg>, n: nat)
    requires args != []
    ensures var first := GroupText(fn, args[0].path, Rendered(m, at, args[0].value, n));
            var rest := GroupTexts(m, at, fn, args[1..], n + |first.values|);
            GroupTexts(m, at, fn, args, n) == Pieces([first.text] + rest.parts, first.values + rest.values)
  {
    hide Rendered, GroupText;
  }

  lemma {:induction false} GroupsInTurn(m: Mode, at: Slot, fn: J.Fn, a: seq<J.Arg>, b: seq<J.Arg>, n: nat)
    ensures var x := GroupTexts(m, at, fn, a, n);
            var y := GroupTexts(m, at, fn, b, n + |x.values|);
            GroupTexts(m, at, fn, a + b, n) == Pieces(x.parts + y.parts, x.values + y.values)
    ensures |GroupTexts(m, at, fn, a, n).parts| == |a|
    decreases |a|
  {
    hide Rendered, GroupText, GroupTexts;
    if a == [] {
      NoGroups(m, at, fn, n);
      NothingBefore(b);
    } else {
      var first := GroupText(fn, a[0].path, Rendered(m, at, a[0].value, n));
      HeadAndTail(a, b);
      GroupsUnfold(m, at, fn, a, n);
      GroupsUnfold(m, at, fn, a + b, n);
      GroupsInTurn(m, at, fn, a[1..], b, n + |first.values|);
    }
  }

  lemma NoGroups(m: Mode, at: Slot, fn: J.Fn, n: nat)
    ensures GroupTexts(m, at, fn, [], n) == Pieces([], [])
  {
  }

  /** A piece with groups written around it. */
  function Wrapped(write: Tokens, t: Piece, gs: Pieces): Piece {
    Piece(write, t.values + gs.values)
  }

  lemma {:induction false} ChainIsWritten(
    m: Mode, at: Slot, fn: J.Fn, target: J.Sql, args: seq<J.Arg>, per: nat, n: nat)
    requires per > 0
    ensures var t := Rendered(m, at, target, n);
            var gs := GroupTexts(m, at, fn, args, n + |t.values|);
            Rendered(m, at, J.Nested(fn, target, J.Shares(args, per)), n)
              == Wrapped(ChainTokens(CallName(m.dialect.json.flavor, fn), t.text, gs.parts, per), t, gs)
    decreases |args|
  {
    hide Rendered, GroupTexts, CallText, CallName;
    var t := Rendered(m, at, target, n);
    var gs := GroupTexts(m, at, fn, args, n + |t.values|);
    GroupsInTurn(m, at, fn, args, [], n + |t.values|);
    if args == [] {
      NoGroups(m, at, fn, n + |t.values|);
      NothingAfter(t.values);
    } else if |args| <= per {
      CallUnfolds(m, at, fn, target, args, n);
      OneShare(fn, target, args, per);
    } else {
      ChainStep(m, at, fn, target, args, per, n);
    }
  }

  lemma OneShare(fn: J.Fn, target: J.Sql, args: seq<J.Arg>, per: nat)
    requires per > 0 && 0 < |args| <= per
    ensures J.Nested(fn, target, J.Shares(args, per)) == J.Call(fn, target, args)
  {
    assert J.Shares(args, per) == [args] && [args][1..] == [];
  }

  lemma NextShare(fn: J.Fn, target: J.Sql, args: seq<J.Arg>, per: nat)
    requires 0 < per < |args|
    ensures J.Nested(fn, target, J.Shares(args, per))
         == J.Nested(fn, J.Call(fn, target, args[..per]), J.Shares(args[per..], per))
  {
    HeadOf(args[..per], J.Shares(args[per..], per));
  }

  lemma {:induction false} ChainStep(
    m: Mode, at: Slot, fn: J.Fn, target: J.Sql, args: seq<J.Arg>, per: nat, n: nat)
    requires 0 < per < |args|
    ensures var t := Rendered(m, at, target, n);
            var gs := GroupTexts(m, at, fn, args, n + |t.values|);
            Rendered(m, at, J.Nested(fn, target, J.Shares(args, per)), n)
              == Wrapped(ChainTokens(CallName(m.dialect.json.flavor, fn), t.text, gs.parts, per), t, gs)
    decreases |args|, 0
  {
    hide Rendered, GroupTexts, CallText, CallName, J.Nested, J.Shares;
    var t := Rendered(m, at, target, n);
    var a, b := args[..per], args[per..];
    var x := GroupTexts(m, at, fn, a, n + |t.values|);
    var y := GroupTexts(m, at, fn, b, n + |t.values| + |x.values|);
    assert args == a + b;
    GroupsInTurn(m, at, fn, a, b, n + |t.values|);
    GroupsInTurn(m, at, fn, b, [], n + |t.values| + |x.values|);
    AfterHead(x.parts, y.parts);
    NextShare(fn, target, args, per);
    CallUnfolds(m, at, fn, target, a, n);
    ChainIsWritten(m, at, fn, J.Call(fn, target, a), b, per, n);
    Regroup(t.values, x.values, y.values);
  }

  /** Each value as a strict call takes it. */
  function StrictArgs(fn: J.Fn, args: seq<J.Arg>): seq<J.Arg> {
    if args == [] then [] else [J.Arg(args[0].path, J.Strictly(fn, args[0].value))] + StrictArgs(fn, args[1..])
  }

  lemma {:induction false} OneByOneIsWritten(m: Mode, at: Slot, fn: J.Fn, target: J.Sql, args: seq<J.Arg>, n: nat)
    ensures var t := Rendered(m, at, target, n);
            var gs := GroupTexts(m, at, fn, StrictArgs(fn, args), n + |t.values|);
            Rendered(m, at, J.OneByOne(fn, target, args), n)
              == Wrapped(OneByOneTokens(fn, t.text, gs.parts), t, gs)
    decreases |args|
  {
    hide Rendered, GroupTexts, OneCallText, GroupText, J.Strictly;
    var t := Rendered(m, at, target, n);
    if args == [] {
      NoGroups(m, at, fn, n + |t.values|);
      NothingAfter(t.values);
    } else {
      var v := J.Strictly(fn, args[0].value);
      var g := GroupText(fn, args[0].path, Rendered(m, at, v, n + |t.values|));
      var strict := StrictArgs(fn, args);
      HeadOf(J.Arg(args[0].path, v), StrictArgs(fn, args[1..]));
      GroupsUnfold(m, at, fn, strict, n + |t.values|);
      OneCallUnfolds(m, at, fn, target, args[0].path, v, n);
      OneByOneIsWritten(m, at, fn, J.OneCall(fn, target, args[0].path, v), args[1..], n);
      var rest := GroupTexts(m, at, fn, StrictArgs(fn, args[1..]), n + |t.values| + |g.values|);
      HeadOf(g.text, rest.parts);
      Regroup(t.values, g.values, rest.values);
    }
  }

  /** The groups a write is given, in the form it is written. */
  function GivenArgs(f: J.Flavor, fn: J.Fn, args: seq<J.Arg>): seq<J.Arg> {
    if f.Postgres? then StrictArgs(fn, args) else args
  }

  lemma WriteIsWritten(m: Mode, at: Slot, fn: J.Fn, target: J.Sql, args: seq<J.Arg>, n: nat)
    ensures var t := Rendered(m, at, target, n);
            var gs := GroupTexts(m, at, fn, GivenArgs(m.dialect.json.flavor, fn, args), n + |t.values|);
            Rendered(m, at, J.Written(m.dialect.json, fn, target, args), n)
              == Wrapped(WriteText(m, fn, t.text, gs.parts), t, gs)
  {
    hide Rendered, GroupTexts, StrictArgs, ChainTokens, OneByOneTokens, J.Nested, J.Shares, J.OneByOne, J.PerCall;
    var form := m.dialect.json;
    var t := Rendered(m, at, target, n);
    if form.flavor.Postgres? {
      OneByOneIsWritten(m, at, fn, target, args, n);
    } else {
      GroupsInTurn(m, at, fn, args, [], n + |t.values|);
      ChainIsWritten(m, at, fn, target, args, J.PerCall(form.maxArgs, fn, |args|), n);
    }
  }

  // ----- the groups of an update -----

  lemma {:induction false} StrictOnlyReplacing(fn: J.Fn, args: seq<J.Arg>)
    requires !fn.JsonReplace?
    ensures StrictArgs(fn, args) == args
  {
    if args != [] {
      StrictOnlyReplacing(fn, args[1..]);
      HeadAndTail(args, []);
    }
  }

  function GivenValue(f: J.Flavor, fn: J.Fn, v: J.Sql): J.Sql {
    if f.Postgres? then J.Strictly(fn, v) else v
  }

  lemma GivenUnfolds(f: J.Flavor, fn: J.Fn, a: J.Arg, rest: seq<J.Arg>)
    ensures GivenArgs(f, fn, [a] + rest) == [J.Arg(a.path, GivenValue(f, fn, a.value))] + GivenArgs(f, fn, rest)
  {
    HeadOf(a, rest);
  }

  lemma StrictIsWritten(m: Mode, at: Slot, fn: J.Fn, v: J.Sql, n: nat)
    ensures var f := m.dialect.json.flavor;
            StrictText(f, fn, Rendered(m, at, v, n)) == Rendered(m, at, GivenValue(f, fn, v), n)
  {
    hide ConstantText, BoundText, ElementText, KeptText, GroupTexts, CondText, OneCallText, CallText, CaseText,
    WhenText;
    var f := m.dialect.json.flavor;
    CoalesceUnfolds(m, at, v, J.Constant(D.Null), n);
    WithinAsTwo([Word("COALESCE"), LParen], Rendered(m, at, v, n), [Comma], ConstantText(f, D.Null), [RParen]);
  }

  function KeySql(f: J.Flavor, a: U.KeyWrites): J.Sql {
    U.OrStored([a.key], U.ArrayWriteSql(f, [a.key], a.writes))
  }

  lemma KeyIsWritten(m: Mode, at: Slot, fn: J.Fn, a: U.KeyWrites, n: nat)
    ensures var f := m.dialect.json.flavor;
            KeyText(m, at, fn, a, n) == GroupText(fn, [a.key], Rendered(m, at, GivenValue(f, fn, KeySql(f, a)), n))
  {
    hide Rendered, ArrayText, OrStoredText, StrictText, GroupText, GivenValue, U.OrStored, U.ArrayWriteSql;
    var f := m.dialect.json.flavor;
    ArrayIsWritten(m, at, [a.key], a.writes, n);
    OrStoredIsWritten(m, at, [a.key], U.ArrayWriteSql(f, [a.key], a.writes), n);
    StrictIsWritten(m, at, fn, KeySql(f, a), n);
  }

  lemma {:induction false} KeysAreWritten(m: Mode, at: Slot, arrays: seq<U.KeyWrites>, appending: bool, n: nat)
    ensures var f, fn := m.dialect.json.flavor, if appending then J.JsonSet else J.JsonReplace;
            KeyTexts(m, at, arrays, appending, n)
              == GroupTexts(m, at, fn, GivenArgs(f, fn, U.KeyArgs(f, arrays, appending)), n)
    decreases |arrays|
  {
    hide Rendered, KeyText, GroupTexts, U.ArrayWriteSql, U.OrStored;
    var f, fn := m.dialect.json.flavor, if appending then J.JsonSet else J.JsonReplace;
    if arrays == [] {
      NoGroups(m, at, fn, n);
    } else if (arrays[0].writes.appends != []) != appending {
      KeysAreWritten(m, at, arrays[1..], appending, n);
    } else {
      FirstKeyIsWritten(m, at, arrays, appending, n);
    }
  }

  lemma {:induction false} FirstKeyIsWritten(m: Mode, at: Slot, arrays: seq<U.KeyWrites>, appending: bool, n: nat)
    requires arrays != [] && (arrays[0].writes.appends != []) == appending
    ensures var f, fn := m.dialect.json.flavor, if appending then J.JsonSet else J.JsonReplace;
            KeyTexts(m, at, arrays, appending, n)
              == GroupTexts(m, at, fn, GivenArgs(f, fn, U.KeyArgs(f, arrays, appending)), n)
    decreases |arrays|, 0
  {
    hide Rendered, KeyText, GroupTexts, GroupText, GivenArgs, GivenValue, U.ArrayWriteSql;
    var f, fn := m.dialect.json.flavor, if appending then J.JsonSet else J.JsonReplace;
    var a := arrays[0];
    var first := KeyText(m, at, fn, a, n);
    var rest := U.KeyArgs(f, arrays[1..], appending);
    KeyIsWritten(m, at, fn, a, n);
    KeysAreWritten(m, at, arrays[1..], appending, n + |first.values|);
    KeysThen(m, at, arrays, appending, n, first, KeyTexts(m, at, arrays[1..], appending, n + |first.values|));
    GivenUnfolds(f, fn, J.Arg([a.key], KeySql(f, a)), rest);
    HeadOf(J.Arg([a.key], GivenValue(f, fn, KeySql(f, a))), GivenArgs(f, fn, rest));
    GroupsUnfold(m, at, fn, GivenArgs(f, fn, U.KeyArgs(f, arrays, appending)), n);
  }

  lemma {:induction false} SetsAreWritten(m: Mode, at: Slot, sets: seq<U.Assignment>, n: nat)
    ensures SetTexts(m, sets, n) == GroupTexts(m, at, J.JsonSet, U.SetArgs(sets), n)
    decreases |sets|
  {
    hide GroupTexts, BoundText, GroupText;
    if sets == [] {
      NoGroups(m, at, J.JsonSet, n);
    } else {
      GroupsUnfold(m, at, J.JsonSet, U.SetArgs(sets), n);
      assert U.SetArgs(sets)[1..] == U.SetArgs(sets[1..]);
      SetsAreWritten(m, at, sets[1..], n + |GroupText(J.JsonSet, sets[0].path, BoundText(m, sets[0].value, n)).values|);
    }
  }

  lemma MadeIsWritten(m: Mode, at: Slot, path: D.Path, n: nat)
    ensures Rendered(m, at, J.Case(J.Is(path, J.IsObject), J.Missing, J.Constant(D.EMPTY_OBJECT)), n)
         == Plain(MadeText(m, at, path))
  {
    hide IsKindText, ConstantText;
    CaseUnfolds(m, at, J.Is(path, J.IsObject), J.Missing, J.Constant(D.EMPTY_OBJECT), n);
  }

  lemma ParentIsWritten(m: Mode, at: Slot, path: D.Path, n: nat)
    ensures var made := J.Case(J.Is(path, J.IsObject), J.Missing, J.Constant(D.EMPTY_OBJECT));
            GroupText(J.JsonSet, path, Rendered(m, at, U.OrStored(path, made), n)) == Plain(ParentText(m, at, path))
  {
    hide Rendered, MadeText, U.OrStored, StoredText, PathText;
    var made := J.Case(J.Is(path, J.IsObject), J.Missing, J.Constant(D.EMPTY_OBJECT));
    MadeIsWritten(m, at, path, n);
    OrStoredIsWritten(m, at, path, made, n);
  }

  lemma {:induction false} ParentsAreWritten(m: Mode, at: Slot, parents: seq<D.Path>, n: nat)
    ensures GroupTexts(m, at, J.JsonSet, U.ParentArgs(parents), n) == Pieces(ParentTexts(m, at, parents), [])
    decreases |parents|
  {
    hide Rendered, GroupTexts, ParentText, GroupText, U.OrStored;
    if parents == [] {
      NoGroups(m, at, J.JsonSet, n);
    } else {
      GroupsUnfold(m, at, J.JsonSet, U.ParentArgs(parents), n);
      ParentIsWritten(m, at, parents[0], n);
      assert U.ParentArgs(parents)[1..] == U.ParentArgs(parents[1..]);
      ParentsAreWritten(m, at, parents[1..], n);
    }
  }

  lemma {:induction false} UnsetsAreWritten(m: Mode, at: Slot, paths: seq<D.Path>, n: nat)
    ensures GroupTexts(m, at, J.JsonRemove, U.UnsetArgs(paths), n) == Pieces(UnsetTexts(paths), [])
    decreases |paths|
  {
    hide Rendered, GroupTexts, PathText;
    if paths == [] {
      NoGroups(m, at, J.JsonRemove, n);
    } else {
      GroupsUnfold(m, at, J.JsonRemove, U.UnsetArgs(paths), n);
      assert U.UnsetArgs(paths)[1..] == U.UnsetArgs(paths[1..]);
      UnsetsAreWritten(m, at, paths[1..], n);
    }
  }

  lemma TargetIsWritten(m: Mode, at: Slot, w: U.Writes, notNull: bool, n: nat)
    ensures Rendered(m, at, U.TargetSql(w, notNull), n) == Plain(TargetText(m, at, w, notNull))
  {
    hide ConstantText, U.WritesKeys;
    CoalesceUnfolds(m, at, J.Current, J.Constant(D.EMPTY_OBJECT), n);
  }

  // ----- the whole update -----

  lemma ArraysAreWritten(m: Mode, at: Slot, w: U.Writes, notNull: bool, n: nat)
    ensures var form := m.dialect.json;
            var pulled := KeyTexts(m, at, w.arrays, false, n);
            var appended := KeyTexts(m, at, w.arrays, true, n + |pulled.values|);
            Rendered(m, at, U.ArraysSql(w, notNull, form), n)
              == Piece(ArraysText(WriterOf(m), TargetText(m, at, w, notNull), pulled.parts, appended.parts),
                       pulled.values + appended.values)
  {
    hide Rendered, KeyTexts, GroupTexts, WriteText, TargetText, U.TargetSql, U.KeyArgs, J.Written, GivenArgs;
    var form := m.dialect.json;
    var target := U.TargetSql(w, notNull);
    var pulled := KeyTexts(m, at, w.arrays, false, n);
    TargetIsWritten(m, at, w, notNull, n);
    KeysAreWritten(m, at, w.arrays, false, n);
    KeysAreWritten(m, at, w.arrays, true, n + |pulled.values|);
    WriteIsWritten(m, at, J.JsonReplace, target, U.KeyArgs(form.flavor, w.arrays, false), n);
    NothingBefore(pulled.values);
    WriteIsWritten(m, at, J.JsonSet, J.Written(form, J.JsonReplace, target, U.KeyArgs(form.flavor, w.arrays, false)),
                   U.KeyArgs(form.flavor, w.arrays, true), n);
  }

  /** A set or a removing write is given its groups as they are. */
  lemma PlainWriteIsWritten(m: Mode, at: Slot, fn: J.Fn, target: J.Sql, args: seq<J.Arg>, n: nat)
    requires !fn.JsonReplace?
    ensures var t := Rendered(m, at, target, n);
            var gs := GroupTexts(m, at, fn, args, n + |t.values|);
            Rendered(m, at, J.Written(m.dialect.json, fn, target, args), n)
              == Wrapped(WriterOf(m)(fn, t.text, gs.parts), t, gs)
  {
    hide Rendered, GroupTexts, WriteText, J.Written;
    StrictOnlyReplacing(fn, args);
    WriteIsWritten(m, at, fn, target, args, n);
  }

  lemma SetIsWritten(m: Mode, at: Slot, arrays: J.Sql, set': seq<U.Assignment>, n: nat)
    requires U.SetPathsGiven(set')
    ensures var a := Rendered(m, at, arrays, n);
            var sets := SetTexts(m, set', n + |a.values|);
            Rendered(m, at, U.SetSql(m.dialect.json, arrays, set'), n)
              == Piece(SetText(WriterOf(m), a.text, ParentTexts(m, at, U.Once({}, U.AllAncestors(set'))), sets.parts),
                       a.values + sets.values)
  {
    hide Rendered, GroupTexts, WriterOf, J.Written, U.ParentArgs, U.SetArgs, U.Once, U.AllAncestors, ParentTexts;
    var a := Rendered(m, at, arrays, n);
    NothingAfter(a.values);
    if set' != [] {
      var paths := U.Once({}, U.AllAncestors(set'));
      var made := J.Written(m.dialect.json, J.JsonSet, arrays, U.ParentArgs(paths));
      ParentsAreWritten(m, at, paths, n + |a.values|);
      SetsAreWritten(m, at, set', n + |a.values|);
      PlainWriteIsWritten(m, at, J.JsonSet, arrays, U.ParentArgs(paths), n);
      PlainWriteIsWritten(m, at, J.JsonSet, made, U.SetArgs(set'), n);
    }
  }

  lemma UnsetIsWritten(m: Mode, at: Slot, target: J.Sql, unset: seq<D.Path>, n: nat)
    ensures var t := Rendered(m, at, target, n);
            Rendered(m, at, U.UnsetSql(m.dialect.json, target, unset), n)
              == Piece(UnsetText(WriterOf(m), t.text, UnsetTexts(unset)), t.values)
  {
    hide Rendered, GroupTexts, WriterOf, J.Written, U.UnsetArgs;
    var t := Rendered(m, at, target, n);
    NothingAfter(t.values);
    if unset != [] {
      UnsetsAreWritten(m, at, unset, n + |t.values|);
      PlainWriteIsWritten(m, at, J.JsonRemove, target, U.UnsetArgs(unset), n);
    }
  }

  /**
   * An object's update is built as the expression that means it: what was bound first stands innermost, and is read
   * first.
   */
  lemma UpdateIsWritten(m: Mode, at: Slot, w: U.Writes, notNull: bool, n: nat)
    requires U.PathsGiven(w)
    ensures UpdateText(m, at, w, notNull, n) == Rendered(m, at, U.ObjectUpdateSql(w, notNull, m.dialect.json), n)
  {
    hide Rendered, KeyTexts, SetTexts, ParentTexts, UnsetTexts, ArraysText, SetText, UnsetText, TargetText, WriterOf,
      U.Once, U.AllAncestors, U.ArraysSql, U.SetSql, U.UnsetSql;
    var form := m.dialect.json;
    var arrays := U.ArraysSql(w, notNull, form);
    ArraysAreWritten(m, at, w, notNull, n);
    SetIsWritten(m, at, arrays, w.set', n);
    UnsetIsWritten(m, at, U.SetSql(form, arrays, w.set'), w.unset, n);
  }

  /** The expression a change of a JSON column is. */
  function ChangeSql(form: J.Form, c: F.Change): J.Sql {
    match c
    case OfObject(update, notNull) =>
      T.FoldIsFolded(update);
      U.ObjectUpdateSql(F.Folded(update), notNull, form)
    case OfArray(pulls, pushes, adds) => U.ArrayUpdateSql(form.flavor, F.FoldedArray(pulls, pushes, adds))
  }

  lemma ChangeIsWritten(m: Mode, at: Slot, c: F.Change, n: nat)
    ensures ChangeText(m, at, c, n) == Rendered(m, at, ChangeSql(m.dialect.json, c), n)
  {
    hide Rendered, UpdateText, ArrayUpdateText, F.Folded, F.FoldedArray, U.ObjectUpdateSql, U.ArrayUpdateSql;
    match c
    case OfObject(update, notNull) =>
      T.FoldIsFolded(update);
      UpdateIsWritten(m, at, F.Folded(update), notNull, n);
    case OfArray(pulls, pushes, adds) => ArrayUpdateIsWritten(m, at, F.FoldedArray(pulls, pushes, adds), n);
  }
}
