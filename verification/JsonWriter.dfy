/**
 * A JSON update written into its statement: each part bound before the next, and what is bound first wrapped by the
 * rest.
 */
module JsonWriter {
  import opened Options
  import opened Values
  import opened SqlText
  import opened SqlShapes
  import opened Filters
  import opened WhereText
  import opened QueryContexts
  import opened WhereWriter
  import opened Sequences
  import opened JsonText
  import D = JsonDocuments
  import F = JsonFold
  import J = JsonSql
  import T = JsonFoldTheorem
  import U = JsonUpdates

  // ----- values -----

  method AddEncoded(ctx: SqlQueryContext, v: D.Json) returns (text: Tokens)
    modifies ctx.params
    ensures var p := Encoded(ctx.TheMode(), v, |old(ctx.params.values)|);
            text == p.text && ctx.params.values == old(ctx.params.values) + p.values
  {
    text := ctx.AddValue("", Given(Str(ctx.dialect.encode(v))));
  }

  method AddBound(ctx: SqlQueryContext, v: D.Json) returns (text: Tokens)
    modifies ctx.params
    ensures var p := BoundText(ctx.TheMode(), v, |old(ctx.params.values)|);
            text == p.text && ctx.params.values == old(ctx.params.values) + p.values
  {
    var f := ctx.dialect.json.flavor;
    if f.Postgres? && v.Null? {
      return [Word("'null'::jsonb")];
    }
    var value := AddEncoded(ctx, v);
    match f
    case Mysql => text := [Word("CAST"), LParen] + value + [Word("AS JSON"), RParen];
    case Sqlite => text := [Word("JSON"), LParen] + value + [RParen];
    case Postgres => text := [] + value + [Word("::jsonb")];
  }

  method AddElement(ctx: SqlQueryContext, v: D.Json) returns (text: Tokens)
    modifies ctx.params
    ensures var p := ElementText(ctx.TheMode(), v, |old(ctx.params.values)|);
            text == p.text && ctx.params.values == old(ctx.params.values) + p.values
  {
    if !ctx.dialect.json.flavor.Postgres? {
      text := AddBound(ctx, v);
    } else if v.Null? {
      var value := ctx.AddValue("", Given(Null));
      text := [] + value + [Word("::jsonb")];
    } else {
      var value := AddEncoded(ctx, v);
      text := [] + value + [Word("::jsonb")];
    }
  }

  method AddHolds(ctx: SqlQueryContext, at: Slot, path: D.Path, item: D.Json) returns (text: Tokens)
    modifies ctx.params
    ensures var p := HoldsText(ctx.TheMode(), at, path, item, |old(ctx.params.values)|);
            text == p.text && ctx.params.values == old(ctx.params.values) + p.values
  {
    match ctx.dialect.json.flavor
    case Mysql =>
      var value := AddEncoded(ctx, D.Arr([item]));
      text := [Word("JSON_CONTAINS"), LParen] + StoredText(at, path) + [Comma] + value + [RParen];
    case Sqlite =>
      var value := AddBound(ctx, item);
      text := [KwExists, LParen, Word("SELECT 1 FROM JSON_EACH"), LParen] + StoredText(at, path)
              + [RParen, KwWhere, Word("elem"), Symbol(Eq)] + value + [RParen];
    case Postgres =>
      var value := AddEncoded(ctx, D.Arr([item]));
      text := StoredText(at, path) + [Word("@>")] + value + [Word("::jsonb")];
  }

  // ----- lists of parts -----

  lemma NextPull(m: Mode, pulls: seq<D.Json>, i: nat, n: nat)
    requires i < |pulls|
    ensures var first := PullText(m, pulls[i], n);
            var rest := PullTexts(m, pulls[i + 1..], n + |first.values|);
            PullTexts(m, pulls[i..], n) == Pieces([first.text] + rest.parts, first.values + rest.values)
  {
    hide BoundText;
    assert pulls[i..][0] == pulls[i] && pulls[i..][1..] == pulls[i + 1..];
  }

  /** What each pull leaves out, bound pull by pull. */
  method AddPulls(ctx: SqlQueryContext, pulls: seq<D.Json>) returns (parts: seq<Tokens>)
    modifies ctx.params
    ensures var ps := PullTexts(ctx.TheMode(), pulls, |old(ctx.params.values)|);
            parts == ps.parts && ctx.params.values == old(ctx.params.values) + ps.values
  {
    hide BoundText, PullTexts;
    ghost var m, before := ctx.TheMode(), ctx.params.values;
    ghost var all := PullTexts(m, pulls, |before|);
    parts := [];
    assert pulls[0..] == pulls;
    for i := 0 to |pulls|
      invariant IsWritten(all, parts, before, ctx.params.values, PullTexts(m, pulls[i..], |ctx.params.values|))
    {
      NextPull(m, pulls, i, |ctx.params.values|);
      ghost var first := PullText(m, pulls[i], |ctx.params.values|);
      TakesPiece(all, parts, first, PullTexts(m, pulls[i + 1..], |ctx.params.values| + |first.values|), before,
                 ctx.params.values);
      var value := AddBound(ctx, pulls[i]);
      parts := parts + [[KwNot, LParen, Word("elem"), Symbol(Eq)] + value + [RParen]];
    }
    assert pulls[|pulls|..] == [];
    NoPulls(m, |ctx.params.values|);
    NothingAfter(parts);
    NothingAfter(ctx.params.values);
  }

  lemma NoPulls(m: Mode, n: nat)
    ensures PullTexts(m, [], n) == Pieces([], [])
  {
  }

  // ----- arrays -----

  method AddStart(ctx: SqlQueryContext, at: Slot, path: D.Path, pulls: seq<D.Json>) returns (text: Tokens)
    modifies ctx.params
    ensures var p := StartText(ctx.TheMode(), at, path, pulls, |old(ctx.params.values)|);
            text == p.text && ctx.params.values == old(ctx.params.values) + p.values
  {
    hide PullTexts, Chain;
    if pulls == [] {
      NothingAfter(ctx.params.values);
      return StoredText(at, path);
    }
    var parts := AddPulls(ctx, pulls);
    text := [Word("COALESCE"), LParen]
            + ([LParen, Word("SELECT JSON_ARRAYAGG(elem) FROM JSON_TABLE"), LParen] + StoredText(at, path)
               + [RParen, KwWhere] + Chain(parts, KwAnd) + [RParen])
            + ([Comma] + ConstantText(ctx.dialect.json.flavor, D.EMPTY_ARRAY) + [RParen]);
  }

  /** One append: a unique one's test is bound, and then its item, after what the array has bound so far. */
  method AddAppended(
    ctx: SqlQueryContext, at: Slot, whole: Tokens, path: D.Path, a: U.Append, ghost before: seq<Value>,
    ghost bound: seq<Value>) returns (text: Tokens)
    requires ctx.params.values == before + bound
    modifies ctx.params
    ensures var p := AppendedText(ctx.TheMode(), at, Piece(whole, bound), path, a, |before| + |bound|);
            text == p.text && ctx.params.values == before + p.values
  {
    hide AppendedTokens, HoldsText, ElementText;
    ghost var test := TestText(ctx.TheMode(), at, path, a, |before| + |bound|);
    var shown := None;
    if a.unique {
      var holds := AddHolds(ctx, at, path, a.item);
      shown := Some(holds);
    } else {
      NothingAfter(ctx.params.values);
    }
    var item := AddElement(ctx, a.item);
    text := AppendedTokens(ctx.dialect.json.flavor, whole, shown, item);
    Regroup(before, bound, test.values);
    Regroup(before, bound + test.values, ElementText(ctx.TheMode(), a.item, |before| + |bound| + |test.values|).values);
  }

  method AddAppends(
    ctx: SqlQueryContext, at: Slot, start: Tokens, path: D.Path, appends: seq<U.Append>, ghost before: seq<Value>,
    ghost bound: seq<Value>) returns (text: Tokens)
    requires ctx.params.values == before + bound
    modifies ctx.params
    ensures var p := AppendedAll(ctx.TheMode(), at, Piece(start, bound), path, appends, |before|);
            text == p.text && ctx.params.values == before + p.values
  {
    hide AppendedText;
    ghost var m := ctx.TheMode();
    ghost var all := AppendedAll(m, at, Piece(start, bound), path, appends, |before|);
    ghost var sofar := bound;
    text := start;
    assert appends[0..] == appends;
    for i := 0 to |appends|
      invariant ctx.params.values == before + sofar
      invariant AppendedAll(m, at, Piece(text, sofar), path, appends[i..], |before|) == all
    {
      assert appends[i..][0] == appends[i] && appends[i..][1..] == appends[i + 1..];
      ghost var next := AppendedText(m, at, Piece(text, sofar), path, appends[i], |before| + |sofar|);
      text := AddAppended(ctx, at, text, path, appends[i], before, sofar);
      sofar := next.values;
      assert next == Piece(text, sofar);
    }
    assert appends[|appends|..] == [];
  }

  /** An array's write: what is pulled is bound, and then each append. */
  method AddArray(ctx: SqlQueryContext, at: Slot, path: D.Path, w: U.ArrayWrites) returns (text: Tokens)
    modifies ctx.params
    ensures var p := ArrayText(ctx.TheMode(), at, path, w, |old(ctx.params.values)|);
            text == p.text && ctx.params.values == old(ctx.params.values) + p.values
  {
    hide StartText, AppendedAll, IsKindText, IsNullText;
    ghost var before := ctx.params.values;
    ghost var kept := StartText(ctx.TheMode(), at, path, w.pulls, |before|);
    var start := AddStart(ctx, at, path, w.pulls);
    var isArray := IsKindText(at, path, J.IsArray);
    if w.appends == [] {
      text := [Word("CASE WHEN")] + isArray + [Word("THEN")] + start + [Word("END")];
    } else {
      var isNull := IsNullText(at, path);
      var first := [Word("CASE WHEN")] + isNull + [Word("THEN")] + ConstantText(ctx.dialect.json.flavor, D.EMPTY_ARRAY)
                   + [Word("ELSE")] + start + [Word("END")];
      var appended := AddAppends(ctx, at, first, path, w.appends, before, kept.values);
      text := [Word("CASE WHEN")] + (isNull + [KwOr] + isArray) + [Word("THEN")] + appended + [Word("END")];
    }
  }

  method AddKey(ctx: SqlQueryContext, at: Slot, fn: J.Fn, a: U.KeyWrites) returns (text: Tokens)
    requires !fn.JsonRemove?
    modifies ctx.params
    ensures var p := KeyText(ctx.TheMode(), at, fn, a, |old(ctx.params.values)|);
            text == p.text && ctx.params.values == old(ctx.params.values) + p.values
  {
    hide ArrayText;
    ghost var p := ArrayText(ctx.TheMode(), at, [a.key], a.writes, |ctx.params.values|);
    var shown := AddArray(ctx, at, [a.key], a.writes);
    var f := ctx.dialect.json.flavor;
    assert StrictText(f, fn, OrStoredText(at, [a.key], p)).values == p.values;
    text := GroupText(fn, [a.key], StrictText(f, fn, OrStoredText(at, [a.key], Piece(shown, [])))).text;
  }

  lemma NextKey(m: Mode, at: Slot, arrays: seq<U.KeyWrites>, appending: bool, i: nat, n: nat)
    requires i < |arrays|
    ensures (arrays[i].writes.appends != []) != appending ==>
              KeyTexts(m, at, arrays[i..], appending, n) == KeyTexts(m, at, arrays[i + 1..], appending, n)
    ensures (arrays[i].writes.appends != []) == appending ==>
              var first := KeyText(m, at, if appending then J.JsonSet else J.JsonReplace, arrays[i], n);
              var rest := KeyTexts(m, at, arrays[i + 1..], appending, n + |first.values|);
              KeyTexts(m, at, arrays[i..], appending, n) == Pieces([first.text] + rest.parts, first.values
                                                                   + rest.values)
  {
    hide KeyText;
    assert arrays[i..][0] == arrays[i] && arrays[i..][1..] == arrays[i + 1..];
  }

  lemma NoKeys(m: Mode, at: Slot, appending: bool, n: nat)
    ensures KeyTexts(m, at, [], appending, n) == Pieces([], [])
  {
  }

  /** The keys appended to, or those only pulled from, each bound before the next. */
  method AddKeys(ctx: SqlQueryContext, at: Slot, arrays: seq<U.KeyWrites>, appending: bool) returns (parts: seq<Tokens>)
    modifies ctx.params
    ensures var ps := KeyTexts(ctx.TheMode(), at, arrays, appending, |old(ctx.params.values)|);
            parts == ps.parts && ctx.params.values == old(ctx.params.values) + ps.values
  {
    hide KeyText, KeyTexts;
    ghost var m, before := ctx.TheMode(), ctx.params.values;
    ghost var all := KeyTexts(m, at, arrays, appending, |before|);
    var fn := if appending then J.JsonSet else J.JsonReplace;
    parts := [];
    assert arrays[0..] == arrays;
    for i := 0 to |arrays|
      invariant IsWritten(all, parts, before, ctx.params.values,
                             KeyTexts(m, at, arrays[i..], appending, |ctx.params.values|))
    {
      NextKey(m, at, arrays, appending, i, |ctx.params.values|);
      if (arrays[i].writes.appends != []) == appending {
        ghost var first := KeyText(m, at, fn, arrays[i], |ctx.params.values|);
        TakesPiece(all, parts, first, KeyTexts(m, at, arrays[i + 1..], appending, |ctx.params.values| + |first.values|),
                   before, ctx.params.values);
        var key := AddKey(ctx, at, fn, arrays[i]);
        parts := parts + [key];
      }
    }
    assert arrays[|arrays|..] == [];
    NoKeys(m, at, appending, |ctx.params.values|);
    NothingAfter(parts);
    NothingAfter(ctx.params.values);
  }

  // ----- what is set -----

  lemma NextSet(m: Mode, sets: seq<U.Assignment>, i: nat, n: nat)
    requires i < |sets|
    ensures var first := GroupText(J.JsonSet, sets[i].path, BoundText(m, sets[i].value, n));
            var rest := SetTexts(m, sets[i + 1..], n + |first.values|);
            SetTexts(m, sets[i..], n) == Pieces([first.text] + rest.parts, first.values + rest.values)
  {
    hide BoundText;
    assert sets[i..][0] == sets[i] && sets[i..][1..] == sets[i + 1..];
  }

  lemma NoSets(m: Mode, n: nat)
    ensures SetTexts(m, [], n) == Pieces([], [])
  {
  }

  method AddSets(ctx: SqlQueryContext, sets: seq<U.Assignment>) returns (parts: seq<Tokens>)
    modifies ctx.params
    ensures var ps := SetTexts(ctx.TheMode(), sets, |old(ctx.params.values)|);
            parts == ps.parts && ctx.params.values == old(ctx.params.values) + ps.values
  {
    hide BoundText, SetTexts;
    ghost var m, before := ctx.TheMode(), ctx.params.values;
    ghost var all := SetTexts(m, sets, |before|);
    parts := [];
    assert sets[0..] == sets;
    for i := 0 to |sets|
      invariant IsWritten(all, parts, before, ctx.params.values, SetTexts(m, sets[i..], |ctx.params.values|))
    {
      NextSet(m, sets, i, |ctx.params.values|);
      ghost var first := GroupText(J.JsonSet, sets[i].path, BoundText(m, sets[i].value, |ctx.params.values|));
      TakesPiece(all, parts, first, SetTexts(m, sets[i + 1..], |ctx.params.values| + |first.values|), before,
                 ctx.params.values);
      var value := AddBound(ctx, sets[i].value);
      parts := parts + [[PathText(sets[i].path), Comma] + value + []];
    }
    assert sets[|sets|..] == [];
    NoSets(m, |ctx.params.values|);
    NothingAfter(parts);
    NothingAfter(ctx.params.values);
  }

  // ----- calls -----

  /** Groups written through as few calls as their arguments allow, each around the one before it. */
  method ChainCalls(fn: Token, target: Tokens, groups: seq<Tokens>, per: nat) returns (call: Tokens)
    requires per > 0
    ensures call == ChainTokens(fn, target, groups, per)
  {
    hide CallText;
    call := target;
    var at := 0;
    assert groups[0..] == groups;
    while at < |groups|
      invariant 0 <= at
      invariant ChainTokens(fn, call, if at <= |groups| then groups[at..] else [], per)
             == ChainTokens(fn, target, groups, per)
    {
      var end := if at + per < |groups| then at + per else |groups|;
      ghost var left := groups[at..];
      assert |left| <= per ==> left == groups[at..end];
      assert |left| > per ==> left[..per] == groups[at..end] && left[per..] == groups[end..];
      call := CallText(fn, call, groups[at..end]);
      at := at + per;
    }
  }

  method NestCalls(fn: J.Fn, target: Tokens, groups: seq<Tokens>) returns (call: Tokens)
    ensures call == OneByOneTokens(fn, target, groups)
  {
    hide OneCallText;
    call := target;
    assert groups[0..] == groups;
    for i := 0 to |groups|
      invariant OneByOneTokens(fn, call, groups[i..]) == OneByOneTokens(fn, target, groups)
    {
      assert groups[i..][0] == groups[i] && groups[i..][1..] == groups[i + 1..];
      call := OneCallText(fn, call, groups[i]);
    }
  }

  method WriteGroups(ctx: SqlQueryContext, fn: J.Fn, target: Tokens, groups: seq<Tokens>) returns (text: Tokens)
    ensures text == WriteText(ctx.TheMode(), fn, target, groups)
  {
    var form := ctx.dialect.json;
    if form.flavor.Postgres? {
      text := NestCalls(fn, target, groups);
    } else {
      text := ChainCalls(CallName(form.flavor, fn), target, groups, J.PerCall(form.maxArgs, fn, |groups|));
    }
  }

  // ----- the whole update -----

  /**
   * An object's update: the arrays only pulled from, those appended to and what is set, each bound before the next,
   * and each written around what was written before it.
   */
  method AddUpdate(ctx: SqlQueryContext, at: Slot, w: U.Writes, notNull: bool) returns (text: Tokens)
    requires U.PathsGiven(w)
    modifies ctx.params
    ensures var p := UpdateText(ctx.TheMode(), at, w, notNull, |old(ctx.params.values)|);
            text == p.text && ctx.params.values == old(ctx.params.values) + p.values
  {
    hide KeyTexts, SetTexts, WriteText, TargetText, ParentTexts, UnsetTexts, U.Once, U.AllAncestors;
    var m := ctx.TheMode();
    ghost var before := ctx.params.values;
    ghost var p := KeyTexts(m, at, w.arrays, false, |before|);
    ghost var a := KeyTexts(m, at, w.arrays, true, |before| + |p.values|);
    ghost var s := SetTexts(m, w.set', |before| + |p.values| + |a.values|);
    SetsHold(m, w.set', |before| + |p.values| + |a.values|);
    UnsetsHold(w.unset);
    NothingAfter(p.values + a.values);
    var pulled := AddKeys(ctx, at, w.arrays, false);
    text := WriteGroups(ctx, J.JsonReplace, TargetText(m, at, w, notNull), pulled);
    var appended := AddKeys(ctx, at, w.arrays, true);
    text := WriteGroups(ctx, J.JsonSet, text, appended);
    if w.set' != [] {
      text := WriteGroups(ctx, J.JsonSet, text, ParentTexts(m, at, U.Once({}, U.AllAncestors(w.set'))));
      var sets := AddSets(ctx, w.set');
      text := WriteGroups(ctx, J.JsonSet, text, sets);
    }
    if w.unset != [] {
      text := WriteGroups(ctx, J.JsonRemove, text, UnsetTexts(w.unset));
    }
    Regroup(before, p.values, a.values);
    Regroup(before, p.values + a.values, s.values);
  }

  lemma SetsHold(m: Mode, sets: seq<U.Assignment>, n: nat)
    ensures sets == [] <==> SetTexts(m, sets, n).parts == []
    ensures sets == [] ==> SetTexts(m, sets, n).values == []
  {
    hide BoundText;
  }

  lemma UnsetsHold(paths: seq<D.Path>)
    ensures paths == [] <==> UnsetTexts(paths) == []
  {
  }

  /** An array column's update. */
  method AddArrayUpdate(ctx: SqlQueryContext, at: Slot, w: U.ArrayWrites) returns (text: Tokens)
    modifies ctx.params
    ensures var p := ArrayUpdateText(ctx.TheMode(), at, w, |old(ctx.params.values)|);
            text == p.text && ctx.params.values == old(ctx.params.values) + p.values
  {
    hide ArrayText;
    var shown := AddArray(ctx, at, [], w);
    text := [Word("COALESCE"), LParen] + shown + ([Comma] + StoredText(at, []) + [RParen]);
  }

  /** A JSON column's change, its operators folded to a write a path and then written. */
  method AddChange(ctx: SqlQueryContext, at: Slot, c: F.Change) returns (text: Tokens)
    modifies ctx.params
    ensures var p := ChangeText(ctx.TheMode(), at, c, |old(ctx.params.values)|);
            text == p.text && ctx.params.values == old(ctx.params.values) + p.values
  {
    hide UpdateText, ArrayUpdateText, F.Folded, F.FoldedArray;
    match c
    case OfObject(update, notNull) =>
      T.FoldIsFolded(update);
      var w := F.FoldJsonUpdate(update);
      text := AddUpdate(ctx, at, w, notNull);
    case OfArray(pulls, pushes, adds) =>
      var w := F.FoldJsonArrayUpdate(pulls, pushes, adds);
      text := AddArrayUpdate(ctx, at, w);
  }
}
