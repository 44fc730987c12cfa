/** The text a JSON update is written as, the values it binds, and the order in which it binds them. */
module JsonText {
  import opened Options
  import opened Values
  import opened SqlText
  import opened SqlShapes
  import opened Filters
  import opened WhereText
  import opened PlaceholderOrder
  import opened Sequences
  import D = JsonDocuments
  import F = JsonFold
  import J = JsonSql
  import T = JsonFoldTheorem
  import U = JsonUpdates

  // ----- pieces -----

  /** A piece with text that binds nothing before it and after it. */
  function Within(a: Tokens, p: Piece, b: Tokens): Piece {
    Piece(a + p.text + b, p.values)
  }

  /** Two pieces, the second bound after the first. */
  function Two(a: Tokens, p: Piece, b: Tokens, q: Piece, c: Tokens): Piece {
    Piece(a + p.text + b + q.text + c, p.values + q.values)
  }

  function Plain(t: Tokens): Piece {
    Piece(t, [])
  }

  // ----- values -----

  /** A column of a table, whose JSON is read. */
  datatype Slot = Slot(alias: string, name: string)

  function Encoded(m: Mode, v: D.Json, n: nat): Piece {
    ValueText(m, "", Given(Str(m.dialect.encode(v))), n)
  }

  /** A value bound and read as JSON; PostgreSQL spells a null one. */
  function BoundText(m: Mode, v: D.Json, n: nat): Piece {
    match m.dialect.json.flavor
    case Mysql => Within([Word("CAST"), LParen], Encoded(m, v, n), [Word("AS JSON"), RParen])
    case Sqlite => Within([Word("JSON"), LParen], Encoded(m, v, n), [RParen])
    case Postgres =>
      if v.Null? then Plain([Word("'null'::jsonb")]) else Within([], Encoded(m, v, n), [Word("::jsonb")])
  }

  /** An item as an array takes it; PostgreSQL binds a null one as NULL. */
  function ElementText(m: Mode, v: D.Json, n: nat): Piece {
    if !m.dialect.json.flavor.Postgres? then BoundText(m, v, n)
    else Within([], if v.Null? then ValueText(m, "", Given(Null), n) else Encoded(m, v, n), [Word("::jsonb")])
  }

  function ArrayName(f: J.Flavor): Token {
    Word(if f.Postgres? then "JSONB_BUILD_ARRAY" else "JSON_ARRAY")
  }

  function ElementArrayText(m: Mode, v: D.Json, n: nat): Piece {
    Within([ArrayName(m.dialect.json.flavor), LParen], ElementText(m, v, n), [RParen])
  }

  function Dotted(path: D.Path): string {
    if path == [] then "" else "." + path[0] + Dotted(path[1..])
  }

  function PathText(path: D.Path): Token {
    Literal(Str("$" + Dotted(path)))
  }

  /** What is stored at a path, the whole column at none. */
  function StoredText(at: Slot, path: D.Path): Tokens {
    if path == [] then [Column(at.alias, at.name)] else [JsonPath(at.alias, at.name, Dotted(path))]
  }

  function ConstantText(f: J.Flavor, v: D.Json): Tokens {
    if v.Obj? then (if f.Postgres? then [Word("'{}'::jsonb")] else [Word("JSON_OBJECT"), LParen, RParen])
    else if v.Arr? then (if f.Postgres? then [Word("'[]'::jsonb")] else [ArrayName(f), LParen, RParen])
    else [Word("'null'::jsonb")]
  }

  // ----- conditions -----

  /** The array stored holds an item. */
  function HoldsText(m: Mode, at: Slot, path: D.Path, item: D.Json, n: nat): Piece {
    match m.dialect.json.flavor
    case Mysql =>
      Within([Word("JSON_CONTAINS"), LParen] + StoredText(at, path) + [Comma], Encoded(m, D.Arr([item]), n), [RParen])
    case Sqlite =>
      Within([KwExists, LParen, Word("SELECT 1 FROM JSON_EACH"), LParen] + StoredText(at, path)
          + [RParen, KwWhere, Word("elem"), Symbol(Eq)], BoundText(m, item, n), [RParen])
    case Postgres => Within(StoredText(at, path) + [Word("@>")], Encoded(m, D.Arr([item]), n), [Word("::jsonb")])
  }

  function IsKindText(at: Slot, path: D.Path, kind: J.Kind): Tokens {
    [Word("JSON_TYPE"), LParen] + StoredText(at, path) + [RParen, Symbol(Eq),
                                                          Word(if kind.IsArray? then "ARRAY" else "OBJECT")]
  }

  function IsNullText(at: Slot, path: D.Path): Tokens {
    [Word("COALESCE"), LParen, Word("JSON_TYPE"), LParen] + StoredText(at, path)
    + [RParen, Comma, Word("NULL"), RParen, Symbol(Eq), Word("NULL")]
  }

  // ----- expressions -----

  function PullText(m: Mode, v: D.Json, n: nat): Piece {
    Within([KwNot, LParen, Word("elem"), Symbol(Eq)], BoundText(m, v, n), [RParen])
  }

  function PullTexts(m: Mode, pulls: seq<D.Json>, n: nat): Pieces {
    if pulls == [] then Pieces([], [])
    else
      var first := PullText(m, pulls[0], n);
      var rest := PullTexts(m, pulls[1..], n + |first.values|);
      Pieces([first.text] + rest.parts, first.values + rest.values)
  }

  /** The elements stored that equal none of what is pulled, as one array. */
  function KeptText(m: Mode, at: Slot, path: D.Path, pulls: seq<D.Json>, n: nat): Piece {
    var ps := PullTexts(m, pulls, n);
    Piece([LParen, Word("SELECT JSON_ARRAYAGG(elem) FROM JSON_TABLE"), LParen] + StoredText(at, path)
          + [RParen, KwWhere] + Chain(ps.parts, KwAnd) + [RParen], ps.values)
  }

  function CallName(f: J.Flavor, fn: J.Fn): Token {
    Word(match fn
         case JsonSet => if f.Postgres? then "JSONB_SET" else "JSON_SET"
         case JsonReplace => if f.Postgres? then "JSONB_SET" else "JSON_REPLACE"
         case JsonRemove => if f.Postgres? then "#-" else "JSON_REMOVE")
  }

  function CallText(fn: Token, target: Tokens, groups: seq<Tokens>): Tokens {
    [fn, LParen] + target + [Comma] + Join(groups, Comma) + [RParen]
  }

  /** A call of one path; a replacing one says that it creates nothing, and a removal is an operator. */
  function OneCallText(fn: J.Fn, target: Tokens, group: Tokens): Tokens {
    if fn.JsonRemove? then Parens(target) + [CallName(J.Postgres, fn)] + group
    else [CallName(J.Postgres, fn), LParen] + target + [Comma] + group + CallEnd(fn)
  }

  function CallEnd(fn: J.Fn): Tokens {
    if fn.JsonReplace? then [Comma, Literal(Bool(false)), RParen] else [RParen]
  }

  function GroupText(fn: J.Fn, path: D.Path, value: Piece): Piece {
    if fn.JsonRemove? then Plain([PathText(path)]) else Within([PathText(path), Comma], value, [])
  }

  /** SQLite's append, at a path that is no array's where the item is not to go in. */
  function InsertTokens(whole: Tokens, test: Option<Tokens>, item: Tokens): Tokens {
    [Word("JSON_INSERT"), LParen] + whole + [Comma] + (InsertPath(test) + [Comma] + item) + [RParen]
  }

  function InsertPath(test: Option<Tokens>): Tokens {
    var last := [Literal(Str("$[#]"))];
    if test.None? then last
    else
      [Word("CASE WHEN")] + test.value + [Word("THEN")] + [Literal(Str("$._skip"))] + [Word("ELSE")] + last
      + [Word("END")]
  }

  // ----- the update, as it is built -----

  /** The test of a unique item, which is none of another's. */
  function TestText(m: Mode, at: Slot, path: D.Path, a: U.Append, n: nat): Piece {
    if a.unique then HoldsText(m, at, path, a.item, n) else Plain([])
  }

  /** An array with an item more: the test of a unique one is bound before the item, and both after the array. */
  function AppendedText(m: Mode, at: Slot, whole: Piece, path: D.Path, a: U.Append, n: nat): Piece {
    var test := TestText(m, at, path, a, n);
    var item := ElementText(m, a.item, n + |test.values|);
    Piece(AppendedTokens(m.dialect.json.flavor, whole.text, if a.unique then Some(test.text) else None, item.text),
          whole.values + test.values + item.values)
  }

  /** `item`, in an array of its own, or an empty one where `test` holds. */
  function ItemTokens(f: J.Flavor, test: Option<Tokens>, item: Tokens): Tokens {
    var added := [ArrayName(f), LParen] + item + [RParen];
    if test.None? then added
    else [Word("CASE WHEN")] + test.value + [Word("THEN")] + ConstantText(f, D.EMPTY_ARRAY) + [Word("ELSE")] + added
         + [Word("END")]
  }

  function AppendedTokens(f: J.Flavor, whole: Tokens, test: Option<Tokens>, item: Tokens): Tokens {
    match f
    case Mysql =>
      if test.None? then [Word("JSON_ARRAY_APPEND"), LParen] + whole + [Comma, PathText([]), Comma] + item + [RParen]
      else [Word("JSON_MERGE_PRESERVE"), LParen] + whole + [Comma] + ItemTokens(f, test, item) + [RParen]
    case Sqlite => InsertTokens(whole, test, item)
    case Postgres => whole + [Word("||")] + ItemTokens(f, test, item)
  }

  function AppendedAll(m: Mode, at: Slot, whole: Piece, path: D.Path, appends: seq<U.Append>, n: nat): Piece
    decreases |appends|
  {
    if appends == [] then whole
    else
      var next := AppendedText(m, at, whole, path, appends[0], n + |whole.values|);
      AppendedAll(m, at, next, path, appends[1..], n)
  }

  /** The array at a path without what is pulled. */
  function StartText(m: Mode, at: Slot, path: D.Path, pulls: seq<D.Json>, n: nat): Piece {
    if pulls == [] then Plain(StoredText(at, path))
    else
      Within([Word("COALESCE"), LParen], KeptText(m, at, path, pulls, n),
          [Comma] + ConstantText(m.dialect.json.flavor, D.EMPTY_ARRAY) + [RParen])
  }

  function When(test: Tokens, p: Piece): Piece {
    Within([Word("CASE WHEN")] + test + [Word("THEN")], p, [Word("END")])
  }

  /** The array appends are made to: an empty one in place of none. */
  function FirstText(m: Mode, at: Slot, path: D.Path, pulls: seq<D.Json>, n: nat): Piece {
    Within([Word("CASE WHEN")] + IsNullText(at, path) + [Word("THEN")]
           + ConstantText(m.dialect.json.flavor, D.EMPTY_ARRAY)
        + [Word("ELSE")], StartText(m, at, path, pulls, n), [Word("END")])
  }

  /** An array as its writes leave it: what is pulled is bound first, and then each append. */
  function ArrayText(m: Mode, at: Slot, path: D.Path, w: U.ArrayWrites, n: nat): Piece {
    var isArray := IsKindText(at, path, J.IsArray);
    if w.appends == [] then When(isArray, StartText(m, at, path, w.pulls, n))
    else
      When(IsNullText(at, path) + [KwOr] + isArray,
           AppendedAll(m, at, FirstText(m, at, path, w.pulls, n), path, w.appends, n))
  }

  function OrStoredText(at: Slot, path: D.Path, p: Piece): Piece {
    Within([Word("COALESCE"), LParen], p, [Comma] + StoredText(at, path) + [RParen])
  }

  /** A value as PostgreSQL's replacing call takes it, which none may be. */
  function StrictText(f: J.Flavor, fn: J.Fn, p: Piece): Piece {
    if f.Postgres? && fn.JsonReplace?
    then Within([Word("COALESCE"), LParen], p, [Comma] + ConstantText(f, D.Null) + [RParen])
    else p
  }

  function KeyText(m: Mode, at: Slot, fn: J.Fn, a: U.KeyWrites, n: nat): Piece {
    var path := [a.key];
    GroupText(fn, path, StrictText(m.dialect.json.flavor, fn,
                                   OrStoredText(at, path, ArrayText(m, at, path, a.writes, n))))
  }

  /** The keys whose arrays are appended to, or those only pulled from, each with its value. */
  function KeyTexts(m: Mode, at: Slot, arrays: seq<U.KeyWrites>, appending: bool, n: nat): Pieces
    decreases |arrays|
  {
    if arrays == [] then Pieces([], [])
    else if (arrays[0].writes.appends != []) != appending then KeyTexts(m, at, arrays[1..], appending, n)
    else
      var first := KeyText(m, at, if appending then J.JsonSet else J.JsonReplace, arrays[0], n);
      var rest := KeyTexts(m, at, arrays[1..], appending, n + |first.values|);
      Pieces([first.text] + rest.parts, first.values + rest.values)
  }

  function MadeText(m: Mode, at: Slot, path: D.Path): Tokens {
    [Word("CASE WHEN")] + IsKindText(at, path, J.IsObject) + [Word("THEN")] + [Word("NULL")] + [Word("ELSE")]
    + ConstantText(m.dialect.json.flavor, D.EMPTY_OBJECT) + [Word("END")]
  }

  /** A parent of a path set: made where it is no object, and the one stored where it is. */
  function ParentText(m: Mode, at: Slot, path: D.Path): Tokens {
    GroupText(J.JsonSet, path, OrStoredText(at, path, Plain(MadeText(m, at, path)))).text
  }

  function ParentTexts(m: Mode, at: Slot, parents: seq<D.Path>): seq<Tokens> {
    if parents == [] then [] else [ParentText(m, at, parents[0])] + ParentTexts(m, at, parents[1..])
  }

  function SetTexts(m: Mode, sets: seq<U.Assignment>, n: nat): Pieces {
    if sets == [] then Pieces([], [])
    else
      var first := GroupText(J.JsonSet, sets[0].path, BoundText(m, sets[0].value, n));
      var rest := SetTexts(m, sets[1..], n + |first.values|);
      Pieces([first.text] + rest.parts, first.values + rest.values)
  }

  function UnsetTexts(paths: seq<D.Path>): seq<Tokens> {
    if paths == [] then [] else [[PathText(paths[0])]] + UnsetTexts(paths[1..])
  }

  /** Groups shared among calls, each around the one before. */
  function ChainTokens(fn: Token, target: Tokens, groups: seq<Tokens>, per: nat): Tokens
    requires per > 0
    decreases |groups|
  {
    if groups == [] then target
    else if |groups| <= per then CallText(fn, target, groups)
    else ChainTokens(fn, CallText(fn, target, groups[..per]), groups[per..], per)
  }

  function OneByOneTokens(fn: J.Fn, target: Tokens, groups: seq<Tokens>): Tokens
    decreases |groups|
  {
    if groups == [] then target else OneByOneTokens(fn, OneCallText(fn, target, groups[0]), groups[1..])
  }

  function WriteText(m: Mode, fn: J.Fn, target: Tokens, groups: seq<Tokens>): Tokens {
    var form := m.dialect.json;
    if form.flavor.Postgres? then OneByOneTokens(fn, target, groups)
    else ChainTokens(CallName(form.flavor, fn), target, groups, J.PerCall(form.maxArgs, fn, |groups|))
  }

  function TargetText(m: Mode, at: Slot, w: U.Writes, notNull: bool): Tokens {
    var current := [Column(at.alias, at.name)];
    if !U.WritesKeys(w) || notNull then current
    else [Word("COALESCE"), LParen] + current + [Comma] + ConstantText(m.dialect.json.flavor, D.EMPTY_OBJECT) + [RParen]
  }

  /** How groups are written around a target. */
  type Writer = (J.Fn, Tokens, seq<Tokens>) -> Tokens

  function WriterOf(m: Mode): Writer {
    (fn: J.Fn, target: Tokens, groups: seq<Tokens>) => WriteText(m, fn, target, groups)
  }

  function ArraysText(write: Writer, target: Tokens, pulled: seq<Tokens>, appended: seq<Tokens>): Tokens {
    write(J.JsonSet, write(J.JsonReplace, target, pulled), appended)
  }

  /** What is set written around the arrays, its parents first. */
  function SetText(write: Writer, arrays: Tokens, parents: seq<Tokens>, sets: seq<Tokens>): Tokens {
    if sets == [] then arrays else write(J.JsonSet, write(J.JsonSet, arrays, parents), sets)
  }

  function UnsetText(write: Writer, target: Tokens, unset: seq<Tokens>): Tokens {
    if unset == [] then target else write(J.JsonRemove, target, unset)
  }

  /** The parts of an update, in the order in which they are bound. */
  datatype Parts = Parts(
    target: Tokens, pulled: Pieces, appended: Pieces, parents: seq<Tokens>, sets: Pieces, unset: seq<Tokens>)

  function Assembled(write: Writer, p: Parts): Piece {
    var arrays := ArraysText(write, p.target, p.pulled.parts, p.appended.parts);
    Piece(UnsetText(write, SetText(write, arrays, p.parents, p.sets.parts), p.unset),
          p.pulled.values + p.appended.values + p.sets.values)
  }

  function PartsOf(m: Mode, at: Slot, w: U.Writes, notNull: bool, n: nat): Parts
    requires U.PathsGiven(w)
  {
    var pulled := KeyTexts(m, at, w.arrays, false, n);
    var appended := KeyTexts(m, at, w.arrays, true, n + |pulled.values|);
    var sets := SetTexts(m, w.set', n + |pulled.values| + |appended.values|);
    Parts(TargetText(m, at, w, notNull), pulled, appended,
          ParentTexts(m, at, U.Once({}, U.AllAncestors(w.set'))), sets, UnsetTexts(w.unset))
  }

  /** An object's update: pulled arrays are bound first, then those appended to, and then what is set. */
  function UpdateText(m: Mode, at: Slot, w: U.Writes, notNull: bool, n: nat): Piece
    requires U.PathsGiven(w)
  {
    Assembled(WriterOf(m), PartsOf(m, at, w, notNull, n))
  }

  /** An array column's update. */
  function ArrayUpdateText(m: Mode, at: Slot, w: U.ArrayWrites, n: nat): Piece {
    OrStoredText(at, [], ArrayText(m, at, [], w, n))
  }

  /** A JSON column's change, folded and then written. */
  function ChangeText(m: Mode, at: Slot, c: F.Change, n: nat): Piece {
    match c
    case OfObject(update, notNull) =>
      T.FoldIsFolded(update);
      UpdateText(m, at, F.Folded(update), notNull, n)
    case OfArray(pulls, pushes, adds) => ArrayUpdateText(m, at, F.FoldedArray(pulls, pushes, adds), n)
  }

  // ----- the order of what is bound -----

  ghost predicate InOrder(p: Piece, n: nat) {
    Indices(p.text) == After(n, |p.values|)
  }

  ghost predicate AllInOrder(ps: Pieces, n: nat) {
    IndicesOf(ps.parts) == After(n, |ps.values|)
  }

  lemma WithinInOrder(a: Tokens, p: Piece, b: Tokens, n: nat)
    requires Indices(a) == [] && Indices(b) == [] && InOrder(p, n)
    ensures InOrder(Within(a, p, b), n)
  {
    IndicesAppend(a, p.text);
    IndicesAppend(a + p.text, b);
    NothingBefore(Indices(p.text));
    NothingAfter(Indices(p.text));
  }

  lemma PlainInOrder(t: Tokens, n: nat)
    requires Indices(t) == []
    ensures InOrder(Plain(t), n)
  {
  }

  lemma EncodedInOrder(m: Mode, v: D.Json, n: nat)
    ensures InOrder(Encoded(m, v, n), n)
  {
    ValueOrdered(m, "", Given(Str(m.dialect.encode(v))), n);
  }

  lemma BoundInOrder(m: Mode, v: D.Json, n: nat)
    ensures InOrder(BoundText(m, v, n), n)
  {
    EncodedInOrder(m, v, n);
    match m.dialect.json.flavor
    case Mysql =>
      NoIndices([Word("CAST"), LParen]);
      NoIndices([Word("AS JSON"), RParen]);
      WithinInOrder([Word("CAST"), LParen], Encoded(m, v, n), [Word("AS JSON"), RParen], n);
    case Sqlite =>
      NoIndices([Word("JSON"), LParen]);
      NoIndices([RParen]);
      WithinInOrder([Word("JSON"), LParen], Encoded(m, v, n), [RParen], n);
    case Postgres =>
      NoIndices([Word("'null'::jsonb")]);
      NoIndices([Word("::jsonb")]);
      WithinInOrder([], Encoded(m, v, n), [Word("::jsonb")], n);
  }

  lemma ElementInOrder(m: Mode, v: D.Json, n: nat)
    ensures InOrder(ElementText(m, v, n), n)
  {
    BoundInOrder(m, v, n);
    EncodedInOrder(m, v, n);
    ValueOrdered(m, "", Given(Null), n);
    NoIndices([Word("::jsonb")]);
    WithinInOrder([], if v.Null? then ValueText(m, "", Given(Null), n) else Encoded(m, v, n), [Word("::jsonb")], n);
  }

  lemma HoldsInOrder(m: Mode, at: Slot, path: D.Path, item: D.Json, n: nat)
    ensures InOrder(HoldsText(m, at, path, item, n), n)
  {
    EncodedInOrder(m, D.Arr([item]), n);
    match m.dialect.json.flavor
    case Mysql =>
      NoIndices([Word("JSON_CONTAINS"), LParen] + StoredText(at, path) + [Comma]);
      NoIndices([RParen]);
      WithinInOrder([Word("JSON_CONTAINS"), LParen] + StoredText(at, path) + [Comma], Encoded(m, D.Arr([item]), n),
                    [RParen], n);
    case Sqlite =>
      var a := [KwExists, LParen, Word("SELECT 1 FROM JSON_EACH"), LParen] + StoredText(at, path)
               + [RParen, KwWhere, Word("elem"), Symbol(Eq)];
      NoIndices(a);
      NoIndices([RParen]);
      BoundInOrder(m, item, n);
      WithinInOrder(a, BoundText(m, item, n), [RParen], n);
    case Postgres =>
      NoIndices(StoredText(at, path) + [Word("@>")]);
      NoIndices([Word("::jsonb")]);
      WithinInOrder(StoredText(at, path) + [Word("@>")], Encoded(m, D.Arr([item]), n), [Word("::jsonb")], n);
  }

  lemma {:induction false} PullsInOrder(m: Mode, pulls: seq<D.Json>, n: nat)
    ensures AllInOrder(PullTexts(m, pulls, n), n)
    decreases |pulls|
  {
    if pulls != [] {
      var v := BoundText(m, pulls[0], n);
      var first := PullText(m, pulls[0], n);
      BoundInOrder(m, pulls[0], n);
      NoIndices([KwNot, LParen, Word("elem"), Symbol(Eq)]);
      NoIndices([RParen]);
      WithinInOrder([KwNot, LParen, Word("elem"), Symbol(Eq)], v, [RParen], n);
      PullsInOrder(m, pulls[1..], n + |first.values|);
      PieceThen(first, PullTexts(m, pulls[1..], n + |first.values|), PullTexts(m, pulls, n), n);
    }
  }

  lemma KeptInOrder(m: Mode, at: Slot, path: D.Path, pulls: seq<D.Json>, n: nat)
    ensures InOrder(KeptText(m, at, path, pulls, n), n)
  {
    hide Indices, Chain, PullTexts, After;
    var ps := PullTexts(m, pulls, n);
    PullsInOrder(m, pulls, n);
    ChainKeeps(ps.parts, KwAnd);
    var a := [LParen, Word("SELECT JSON_ARRAYAGG(elem) FROM JSON_TABLE"), LParen] + StoredText(at, path)
      + [RParen, KwWhere];
    NoIndices(a);
    NoIndices([RParen]);
    WithinInOrder(a, Piece(Chain(ps.parts, KwAnd), ps.values), [RParen], n);
  }

  // ----- appends -----

  lemma ConstantBindsNothing(f: J.Flavor, v: D.Json)
    ensures Indices(ConstantText(f, v)) == []
  {
    NoIndices(ConstantText(f, v));
  }

  /** The numbers of a test where there is one. */
  function TestIndices(test: Option<Tokens>): seq<nat> {
    if test.None? then [] else Indices(test.value)
  }

  lemma ChosenKeeps(test: Tokens, then': Tokens, else': Tokens)
    requires Indices(then') == []
    ensures Indices([Word("CASE WHEN")] + test + [Word("THEN")] + then' + [Word("ELSE")] + else' + [Word("END")])
         == Indices(test) + Indices(else')
  {
    var a := [Word("CASE WHEN")] + test + [Word("THEN")];
    NoIndices([Word("CASE WHEN")]);
    NoIndices([Word("THEN")]);
    NoIndices([Word("ELSE")]);
    NoIndices([Word("END")]);
    IndicesAppend([Word("CASE WHEN")], test);
    IndicesAppend([Word("CASE WHEN")] + test, [Word("THEN")]);
    IndicesAppend(a, then');
    IndicesAppend(a + then', [Word("ELSE")]);
    IndicesAppend(a + then' + [Word("ELSE")], else');
    IndicesAppend(a + then' + [Word("ELSE")] + else', [Word("END")]);
  }

  lemma ItemTokensKeep(f: J.Flavor, test: Option<Tokens>, item: Tokens)
    ensures Indices(ItemTokens(f, test, item)) == TestIndices(test) + Indices(item)
  {
    Around([ArrayName(f), LParen], item, [RParen]);
    NothingBefore(Indices(item));
    if test.Some? {
      ConstantBindsNothing(f, D.EMPTY_ARRAY);
      ChosenKeeps(test.value, ConstantText(f, D.EMPTY_ARRAY), [ArrayName(f), LParen] + item + [RParen]);
    }
  }

  lemma CallKeeps(name: string, whole: Tokens, middle: Tokens, last: Tokens)
    requires Indices(middle) == []
    ensures Indices([Word(name), LParen] + whole + middle + last + [RParen]) == Indices(whole) + Indices(last)
  {
    NoIndices([Word(name), LParen]);
    NoIndices([RParen]);
    IndicesAppend([Word(name), LParen], whole);
    IndicesAppend([Word(name), LParen] + whole, middle);
    IndicesAppend([Word(name), LParen] + whole + middle, last);
    IndicesAppend([Word(name), LParen] + whole + middle + last, [RParen]);
    NothingBefore(Indices(whole));
    NothingAfter(Indices(whole));
    NothingAfter(Indices(whole) + Indices(last));
  }

  lemma InsertPathKeeps(test: Option<Tokens>)
    ensures Indices(InsertPath(test)) == TestIndices(test)
  {
    var last := [Literal(Str("$[#]"))];
    NoIndices(last);
    if test.Some? {
      NoIndices([Literal(Str("$._skip"))]);
      ChosenKeeps(test.value, [Literal(Str("$._skip"))], last);
      NothingAfter(Indices(test.value));
    }
  }

  lemma InsertTokensKeep(whole: Tokens, test: Option<Tokens>, item: Tokens)
    ensures Indices(InsertTokens(whole, test, item)) == Indices(whole) + TestIndices(test) + Indices(item)
  {
    var path := InsertPath(test);
    var a := [Word("JSON_INSERT"), LParen] + whole + [Comma];
    InsertPathKeeps(test);
    NoIndices([Comma]);
    CallKeeps("JSON_INSERT", whole, [Comma], path + [Comma] + item);
    IndicesAppend(path, [Comma]);
    IndicesAppend(path + [Comma], item);
    NothingAfter(Indices(path));
    Regroup(Indices(whole), Indices(path), Indices(item));
    RegroupAll(a, path, [Comma], item);
    Regroup(path, [Comma], item);
  }

  lemma AppendedTokensKeep(f: J.Flavor, whole: Tokens, test: Option<Tokens>, item: Tokens)
    ensures Indices(AppendedTokens(f, whole, test, item)) == Indices(whole) + TestIndices(test) + Indices(item)
  {
    ItemTokensKeep(f, test, item);
    Regroup(Indices(whole), TestIndices(test), Indices(item));
    match f
    case Mysql =>
      NoIndices([Comma, PathText([]), Comma]);
      NoIndices([Comma]);
      CallKeeps("JSON_ARRAY_APPEND", whole, [Comma, PathText([]), Comma], item);
      CallKeeps("JSON_MERGE_PRESERVE", whole, [Comma], ItemTokens(f, test, item));
      NothingAfter(Indices(whole));
    case Sqlite => InsertTokensKeep(whole, test, item);
    case Postgres => BothKeep(whole, Word("||"), ItemTokens(f, test, item));
  }

  lemma TestInOrder(m: Mode, at: Slot, path: D.Path, a: U.Append, n: nat)
    ensures InOrder(TestText(m, at, path, a, n), n)
  {
    if a.unique {
      HoldsInOrder(m, at, path, a.item, n);
    }
  }

  lemma ThreeInOrder(f: J.Flavor, whole: Piece, unique: bool, test: Piece, item: Piece, n: nat)
    requires InOrder(whole, n) && InOrder(test, n + |whole.values|)
    requires InOrder(item, n + |whole.values| + |test.values|) && (!unique ==> test == Plain([]))
    ensures InOrder(Piece(AppendedTokens(f, whole.text, if unique then Some(test.text) else None, item.text),
                          whole.values + test.values + item.values), n)
  {
    AppendedTokensKeep(f, whole.text, if unique then Some(test.text) else None, item.text);
    ThreeFollow(whole, test, item, n);
  }

  lemma ThreeFollow(whole: Piece, test: Piece, item: Piece, n: nat)
    requires InOrder(whole, n) && InOrder(test, n + |whole.values|) && InOrder(item, n + |whole.values| + |test.values|)
    ensures Indices(whole.text) + Indices(test.text) + Indices(item.text)
         == After(n, |whole.values + test.values + item.values|)
  {
    AfterAppends(n, |whole.values|, |test.values|);
    AfterAppends(n, |whole.values| + |test.values|, |item.values|);
  }

  /** After the array, an append binds its test and then its item, where the text reads them. */
  lemma AppendedInOrder(m: Mode, at: Slot, whole: Piece, path: D.Path, a: U.Append, n: nat)
    requires InOrder(whole, n)
    ensures InOrder(AppendedText(m, at, whole, path, a, n + |whole.values|), n)
  {
    hide Indices, IndicesOf, KeyTexts, SetTexts, ParentTexts, UnsetTexts, After;
    var k := n + |whole.values|;
    var test := TestText(m, at, path, a, k);
    var item := ElementText(m, a.item, k + |test.values|);
    TestInOrder(m, at, path, a, k);
    ElementInOrder(m, a.item, k + |test.values|);
    ThreeInOrder(m.dialect.json.flavor, whole, a.unique, test, item, n);
  }

  lemma {:induction false} AppendedAllInOrder(
    m: Mode, at: Slot, whole: Piece, path: D.Path, appends: seq<U.Append>, n: nat)
    requires InOrder(whole, n)
    ensures InOrder(AppendedAll(m, at, whole, path, appends, n), n)
    decreases |appends|
  {
    hide Indices, AppendedText, After;
    if appends != [] {
      AppendedInOrder(m, at, whole, path, appends[0], n);
      AppendedAllInOrder(m, at, AppendedText(m, at, whole, path, appends[0], n + |whole.values|), path, appends[1..],
                         n);
    }
  }

  // ----- arrays -----

  lemma StartInOrder(m: Mode, at: Slot, path: D.Path, pulls: seq<D.Json>, n: nat)
    ensures InOrder(StartText(m, at, path, pulls, n), n)
  {
    hide KeptText;
    var f := m.dialect.json.flavor;
    NoIndices(StoredText(at, path));
    KeptInOrder(m, at, path, pulls, n);
    NoIndices([Word("COALESCE"), LParen]);
    NoIndices([Comma] + ConstantText(f, D.EMPTY_ARRAY) + [RParen]);
    WithinInOrder([Word("COALESCE"), LParen], KeptText(m, at, path, pulls, n),
               [Comma] + ConstantText(f, D.EMPTY_ARRAY) + [RParen], n);
  }

  lemma WhenInOrder(test: Tokens, p: Piece, n: nat)
    requires Indices(test) == [] && InOrder(p, n)
    ensures InOrder(When(test, p), n)
  {
    NoIndices([Word("CASE WHEN")]);
    NoIndices([Word("THEN")]);
    NoIndices([Word("END")]);
    IndicesAppend([Word("CASE WHEN")], test);
    IndicesAppend([Word("CASE WHEN")] + test, [Word("THEN")]);
    WithinInOrder([Word("CASE WHEN")] + test + [Word("THEN")], p, [Word("END")], n);
  }

  lemma TestsBindNothing(at: Slot, path: D.Path, kind: J.Kind)
    ensures Indices(IsKindText(at, path, kind)) == [] && Indices(IsNullText(at, path)) == []
    ensures Indices(StoredText(at, path)) == []
  {
    NoIndices(IsKindText(at, path, kind));
    NoIndices(IsNullText(at, path));
    NoIndices(StoredText(at, path));
  }

  lemma ArrayInOrder(m: Mode, at: Slot, path: D.Path, w: U.ArrayWrites, n: nat)
    ensures InOrder(ArrayText(m, at, path, w, n), n)
  {
    var isArray, isNull := IsKindText(at, path, J.IsArray), IsNullText(at, path);
    StartInOrder(m, at, path, w.pulls, n);
    TestsBindNothing(at, path, J.IsArray);
    WhenInOrder(isArray, StartText(m, at, path, w.pulls, n), n);
    if w.appends != [] {
      FirstInOrder(m, at, path, w.pulls, n);
      AppendedAllInOrder(m, at, FirstText(m, at, path, w.pulls, n), path, w.appends, n);
      NoIndices([KwOr]);
      IndicesAppend(isNull, [KwOr]);
      IndicesAppend(isNull + [KwOr], isArray);
      WhenInOrder(isNull + [KwOr] + isArray,
                  AppendedAll(m, at, FirstText(m, at, path, w.pulls, n), path, w.appends, n), n);
    }
  }

  lemma FirstInOrder(m: Mode, at: Slot, path: D.Path, pulls: seq<D.Json>, n: nat)
    ensures InOrder(FirstText(m, at, path, pulls, n), n)
  {
    var kept := StartText(m, at, path, pulls, n);
    StartInOrder(m, at, path, pulls, n);
    TestsBindNothing(at, path, J.IsArray);
    ConstantBindsNothing(m.dialect.json.flavor, D.EMPTY_ARRAY);
    ChosenKeeps(IsNullText(at, path), ConstantText(m.dialect.json.flavor, D.EMPTY_ARRAY), kept.text);
    NothingBefore(Indices(kept.text));
  }

  lemma OrStoredInOrder(at: Slot, path: D.Path, p: Piece, n: nat)
    requires InOrder(p, n)
    ensures InOrder(OrStoredText(at, path, p), n)
  {
    NoIndices([Word("COALESCE"), LParen]);
    NoIndices([Comma] + StoredText(at, path) + [RParen]);
    WithinInOrder([Word("COALESCE"), LParen], p, [Comma] + StoredText(at, path) + [RParen], n);
  }

  lemma GroupInOrder(fn: J.Fn, path: D.Path, p: Piece, n: nat)
    requires !fn.JsonRemove? && InOrder(p, n)
    ensures InOrder(GroupText(fn, path, p), n)
  {
    NoIndices([PathText(path), Comma]);
    WithinInOrder([PathText(path), Comma], p, [], n);
  }

  lemma KeyInOrder(m: Mode, at: Slot, fn: J.Fn, a: U.KeyWrites, n: nat)
    requires !fn.JsonRemove?
    ensures InOrder(KeyText(m, at, fn, a, n), n)
  {
    hide Indices, ArrayText, After;
    var f, path := m.dialect.json.flavor, [a.key];
    var p := OrStoredText(at, path, ArrayText(m, at, path, a.writes, n));
    ArrayInOrder(m, at, path, a.writes, n);
    OrStoredInOrder(at, path, ArrayText(m, at, path, a.writes, n), n);
    NoIndices([Word("COALESCE"), LParen]);
    NoIndices([Comma] + ConstantText(f, D.Null) + [RParen]);
    WithinInOrder([Word("COALESCE"), LParen], p, [Comma] + ConstantText(f, D.Null) + [RParen], n);
    GroupInOrder(fn, path, StrictText(f, fn, p), n);
  }

  lemma KeysThen(
    m: Mode, at: Slot, arrays: seq<U.KeyWrites>, appending: bool, n: nat, first: Piece, rest: Pieces)
    requires arrays != [] && (arrays[0].writes.appends != []) == appending
    requires first == KeyText(m, at, if appending then J.JsonSet else J.JsonReplace, arrays[0], n)
    requires rest == KeyTexts(m, at, arrays[1..], appending, n + |first.values|)
    ensures KeyTexts(m, at, arrays, appending, n) == Pieces([first.text] + rest.parts, first.values + rest.values)
  {
  }

  lemma {:induction false} KeysInOrder(m: Mode, at: Slot, arrays: seq<U.KeyWrites>, appending: bool, n: nat)
    ensures AllInOrder(KeyTexts(m, at, arrays, appending, n), n)
    decreases |arrays|
  {
    if arrays == [] {
    } else if (arrays[0].writes.appends != []) != appending {
      KeysInOrder(m, at, arrays[1..], appending, n);
    } else {
      FirstKeyInOrder(m, at, arrays, appending, n);
    }
  }

  lemma {:induction false} FirstKeyInOrder(m: Mode, at: Slot, arrays: seq<U.KeyWrites>, appending: bool, n: nat)
    requires arrays != [] && (arrays[0].writes.appends != []) == appending
    ensures AllInOrder(KeyTexts(m, at, arrays, appending, n), n)
    decreases |arrays|, 0
  {
    var fn := if appending then J.JsonSet else J.JsonReplace;
    var first := KeyText(m, at, fn, arrays[0], n);
    var rest := KeyTexts(m, at, arrays[1..], appending, n + |first.values|);
    KeyInOrder(m, at, fn, arrays[0], n);
    KeysInOrder(m, at, arrays[1..], appending, n + |first.values|);
    KeysThen(m, at, arrays, appending, n, first, rest);
    PieceThen(first, rest, Pieces([first.text] + rest.parts, first.values + rest.values), n);
  }

  lemma {:induction false} SetsInOrder(m: Mode, sets: seq<U.Assignment>, n: nat)
    ensures AllInOrder(SetTexts(m, sets, n), n)
    decreases |sets|
  {
    hide Indices, BoundText;
    if sets != [] {
      var first := GroupText(J.JsonSet, sets[0].path, BoundText(m, sets[0].value, n));
      BoundInOrder(m, sets[0].value, n);
      GroupInOrder(J.JsonSet, sets[0].path, BoundText(m, sets[0].value, n), n);
      SetsInOrder(m, sets[1..], n + |first.values|);
      PieceThen(first, SetTexts(m, sets[1..], n + |first.values|), SetTexts(m, sets, n), n);
    }
  }

  // ----- what binds nothing -----

  lemma ParentBindsNothing(m: Mode, at: Slot, path: D.Path)
    ensures Indices(ParentText(m, at, path)) == []
  {
    var f := m.dialect.json.flavor;
    var made := MadeText(m, at, path);
    TestsBindNothing(at, path, J.IsObject);
    ConstantBindsNothing(f, D.EMPTY_OBJECT);
    NoIndices([Word("NULL")]);
    ChosenKeeps(IsKindText(at, path, J.IsObject), [Word("NULL")], ConstantText(f, D.EMPTY_OBJECT));
    OrStoredInOrder(at, path, Plain(made), 0);
    GroupInOrder(J.JsonSet, path, OrStoredText(at, path, Plain(made)), 0);
  }

  lemma {:induction false} ParentsBindNothing(m: Mode, at: Slot, parents: seq<D.Path>)
    ensures IndicesOf(ParentTexts(m, at, parents)) == []
    decreases |parents|
  {
    if parents != [] {
      ParentBindsNothing(m, at, parents[0]);
      ParentsBindNothing(m, at, parents[1..]);
    }
  }

  lemma {:induction false} UnsetsBindNothing(paths: seq<D.Path>)
    ensures IndicesOf(UnsetTexts(paths)) == []
    decreases |paths|
  {
    if paths != [] {
      NoIndices([PathText(paths[0])]);
      UnsetsBindNothing(paths[1..]);
    }
  }

  lemma TargetBindsNothing(m: Mode, at: Slot, w: U.Writes, notNull: bool)
    ensures Indices(TargetText(m, at, w, notNull)) == []
  {
    NoIndices(TargetText(m, at, w, notNull));
  }

  // ----- calls -----

  lemma CallsKeep(fn: Token, target: Tokens, groups: seq<Tokens>)
    requires !fn.Placeholder?
    ensures Indices(CallText(fn, target, groups)) == Indices(target) + IndicesOf(groups)
  {
    JoinKeeps(groups, Comma);
    NoIndices([fn, LParen]);
    NoIndices([RParen]);
    NoIndices([Comma]);
    IndicesAppend([fn, LParen], target);
    IndicesAppend([fn, LParen] + target, [Comma]);
    IndicesAppend([fn, LParen] + target + [Comma], Join(groups, Comma));
    IndicesAppend([fn, LParen] + target + [Comma] + Join(groups, Comma), [RParen]);
    NothingBefore(Indices(target));
    NothingAfter(Indices(target));
    NothingAfter(Indices(target) + IndicesOf(groups));
  }

  /** However groups are shared among calls, their placeholders follow the target's in order. */
  lemma {:induction false} ChainTokensKeep(fn: Token, target: Tokens, groups: seq<Tokens>, per: nat)
    requires per > 0 && !fn.Placeholder?
    ensures Indices(ChainTokens(fn, target, groups, per)) == Indices(target) + IndicesOf(groups)
    decreases |groups|
  {
    if groups == [] {
      NothingAfter(Indices(target));
    } else if |groups| <= per {
      CallsKeep(fn, target, groups);
    } else {
      CallsKeep(fn, target, groups[..per]);
      ChainTokensKeep(fn, CallText(fn, target, groups[..per]), groups[per..], per);
      IndicesOfAppend(groups[..per], groups[per..]);
      assert groups == groups[..per] + groups[per..];
      Regroup(Indices(target), IndicesOf(groups[..per]), IndicesOf(groups[per..]));
    }
  }

  lemma SetCallKeeps(name: Token, target: Tokens, group: Tokens, end: Tokens)
    requires !name.Placeholder? && Indices(end) == []
    ensures Indices([name, LParen] + target + [Comma] + group + end) == Indices(target) + Indices(group)
  {
    NoIndices([name, LParen]);
    NoIndices([Comma]);
    IndicesAppend([name, LParen], target);
    IndicesAppend([name, LParen] + target, [Comma]);
    IndicesAppend([name, LParen] + target + [Comma], group);
    IndicesAppend([name, LParen] + target + [Comma] + group, end);
    NothingBefore(Indices(target));
    NothingAfter(Indices(target));
    NothingAfter(Indices(target) + Indices(group));
  }

  lemma OneCallKeeps(fn: J.Fn, target: Tokens, group: Tokens)
    ensures Indices(OneCallText(fn, target, group)) == Indices(target) + Indices(group)
  {
    var name := CallName(J.Postgres, fn);
    if fn.JsonRemove? {
      ParensKeep(target);
      BothKeep(Parens(target), name, group);
    } else {
      NoIndices(CallEnd(fn));
      SetCallKeeps(name, target, group, CallEnd(fn));
    }
  }

  lemma {:induction false} OneByOneTokensKeep(fn: J.Fn, target: Tokens, groups: seq<Tokens>)
    ensures Indices(OneByOneTokens(fn, target, groups)) == Indices(target) + IndicesOf(groups)
    decreases |groups|
  {
    if groups == [] {
      NothingAfter(Indices(target));
    } else {
      OneCallKeeps(fn, target, groups[0]);
      OneByOneTokensKeep(fn, OneCallText(fn, target, groups[0]), groups[1..]);
      Regroup(Indices(target), Indices(groups[0]), IndicesOf(groups[1..]));
    }
  }

  lemma WriteKeeps(m: Mode, fn: J.Fn, target: Tokens, groups: seq<Tokens>)
    ensures Indices(WriteText(m, fn, target, groups)) == Indices(target) + IndicesOf(groups)
  {
    var form := m.dialect.json;
    if form.flavor.Postgres? {
      OneByOneTokensKeep(fn, target, groups);
    } else {
      ChainTokensKeep(CallName(form.flavor, fn), target, groups, J.PerCall(form.maxArgs, fn, |groups|));
    }
  }

  // ----- the whole update -----

  ghost predicate WriterKeeps(write: Writer) {
    forall fn: J.Fn, target: Tokens, groups: seq<Tokens> ::
      Indices(write(fn, target, groups)) == Indices(target) + IndicesOf(groups)
  }

  lemma WriterOfKeeps(m: Mode)
    ensures WriterKeeps(WriterOf(m))
  {
    var write := WriterOf(m);
    forall fn: J.Fn, target: Tokens, groups: seq<Tokens>
      ensures Indices(write(fn, target, groups)) == Indices(target) + IndicesOf(groups)
    {
      WriteKeeps(m, fn, target, groups);
    }
  }

  /** What a `Parts` binds, in order from `n`, and what it does not. */
  ghost predicate PartsInOrder(p: Parts, n: nat) {
    && Indices(p.target) == [] && IndicesOf(p.parents) == [] && IndicesOf(p.unset) == []
    && AllInOrder(p.pulled, n)
    && AllInOrder(p.appended, n + |p.pulled.values|)
    && AllInOrder(p.sets, n + |p.pulled.values| + |p.appended.values|)
  }

  lemma AssembledInOrder(write: Writer, p: Parts, n: nat)
    requires WriterKeeps(write) && PartsInOrder(p, n)
    ensures InOrder(Assembled(write, p), n)
  {
    var pulled := write(J.JsonReplace, p.target, p.pulled.parts);
    var arrays := write(J.JsonSet, pulled, p.appended.parts);
    var made := write(J.JsonSet, arrays, p.parents);
    var set' := SetText(write, arrays, p.parents, p.sets.parts);
    assert Indices(pulled) == IndicesOf(p.pulled.parts);
    assert Indices(made) == Indices(arrays) + [];
    assert Indices(set') == Indices(arrays) + IndicesOf(p.sets.parts);
    assert Indices(UnsetText(write, set', p.unset)) == Indices(set') + [];
    AfterAppends(n, |p.pulled.values|, |p.appended.values|);
    AfterAppends(n, |p.pulled.values| + |p.appended.values|, |p.sets.values|);
  }

  lemma SomeInOrder(target: Tokens, pulled: Pieces, appended: Pieces, parents: seq<Tokens>, sets: Pieces,
                    unset: seq<Tokens>, n: nat)
    requires Indices(target) == [] && IndicesOf(parents) == [] && IndicesOf(unset) == []
    requires AllInOrder(pulled, n) && AllInOrder(appended, n + |pulled.values|)
    requires AllInOrder(sets, n + |pulled.values| + |appended.values|)
    ensures PartsInOrder(Parts(target, pulled, appended, parents, sets, unset), n)
  {
  }

  lemma PartsOfInOrder(m: Mode, at: Slot, w: U.Writes, notNull: bool, n: nat)
    requires U.PathsGiven(w)
    ensures PartsInOrder(PartsOf(m, at, w, notNull, n), n)
  {
    hide Indices, IndicesOf, KeyTexts, SetTexts, ParentTexts, UnsetTexts, After;
    var pulled := KeyTexts(m, at, w.arrays, false, n);
    var appended := KeyTexts(m, at, w.arrays, true, n + |pulled.values|);
    var sets := SetTexts(m, w.set', n + |pulled.values| + |appended.values|);
    var paths := U.Once({}, U.AllAncestors(w.set'));
    TargetBindsNothing(m, at, w, notNull);
    KeysInOrder(m, at, w.arrays, false, n);
    KeysInOrder(m, at, w.arrays, true, n + |pulled.values|);
    ParentsBindNothing(m, at, paths);
    SetsInOrder(m, w.set', n + |pulled.values| + |appended.values|);
    UnsetsBindNothing(w.unset);
    SomeInOrder(TargetText(m, at, w, notNull), pulled, appended, ParentTexts(m, at, paths), sets, UnsetTexts(w.unset),
                n);
  }

  /**
   * A JSON update of an object carries its placeholders in the order its values are bound, though a later write's text
   * is around an earlier one's: a `?` reads its own.
   */
  lemma UpdateInOrder(m: Mode, at: Slot, w: U.Writes, notNull: bool, n: nat)
    requires U.PathsGiven(w)
    ensures InOrder(UpdateText(m, at, w, notNull, n), n)
  {
    PartsOfInOrder(m, at, w, notNull, n);
    WriterOfKeeps(m);
    AssembledInOrder(WriterOf(m), PartsOf(m, at, w, notNull, n), n);
  }

  lemma ArrayUpdateInOrder(m: Mode, at: Slot, w: U.ArrayWrites, n: nat)
    ensures InOrder(ArrayUpdateText(m, at, w, n), n)
  {
    ArrayInOrder(m, at, [], w, n);
    OrStoredInOrder(at, [], ArrayText(m, at, [], w, n), n);
  }

  lemma ChangeInOrder(m: Mode, at: Slot, c: F.Change, n: nat)
    ensures InOrder(ChangeText(m, at, c, n), n)
  {
    hide UpdateText, ArrayUpdateText, F.Folded, F.FoldedArray;
    match c
    case OfObject(update, notNull) =>
      T.FoldIsFolded(update);
      UpdateInOrder(m, at, F.Folded(update), notNull, n);
    case OfArray(pulls, pushes, adds) => ArrayUpdateInOrder(m, at, F.FoldedArray(pulls, pushes, adds), n);
  }

  // ----- what is bound -----

  function Sent(m: Mode, v: D.Json): seq<Value> {
    if m.inlined || (m.dialect.json.flavor.Postgres? && v.Null?) then [] else [Str(m.dialect.encode(v))]
  }

  function SentItem(m: Mode, v: D.Json): seq<Value> {
    if m.inlined then [] else [if m.dialect.json.flavor.Postgres? && v.Null? then Null else Str(m.dialect.encode(v))]
  }

  /** A unique item is bound twice: for the test that the array stored lacks it, and then to be appended. */
  function SentAppend(m: Mode, a: U.Append): seq<Value> {
    (if !a.unique || m.inlined then []
     else [Str(m.dialect.encode(if m.dialect.json.flavor.Sqlite? then a.item else D.Arr([a.item])))])
    + SentItem(m, a.item)
  }

  function SentPulls(m: Mode, pulls: seq<D.Json>): seq<Value> {
    if pulls == [] then [] else Sent(m, pulls[0]) + SentPulls(m, pulls[1..])
  }

  function SentAppends(m: Mode, appends: seq<U.Append>): seq<Value> {
    if appends == [] then [] else SentAppend(m, appends[0]) + SentAppends(m, appends[1..])
  }

  function SentArrays(m: Mode, arrays: seq<U.KeyWrites>): seq<Value> {
    if arrays == [] then []
    else (SentPulls(m, arrays[0].writes.pulls) + SentAppends(m, arrays[0].writes.appends)) + SentArrays(m, arrays[1..])
  }

  function SentSets(m: Mode, sets: seq<U.Assignment>): seq<Value> {
    if sets == [] then [] else Sent(m, sets[0].value) + SentSets(m, sets[1..])
  }

  lemma BoundSends(m: Mode, v: D.Json, n: nat)
    ensures BoundText(m, v, n).values == Sent(m, v)
  {
  }

  lemma AppendSends(m: Mode, at: Slot, whole: Piece, path: D.Path, a: U.Append, n: nat)
    ensures AppendedText(m, at, whole, path, a, n).values == whole.values + SentAppend(m, a)
  {
    var test := TestText(m, at, path, a, n);
    BoundSends(m, a.item, n);
    assert ElementText(m, a.item, n + |test.values|).values == SentItem(m, a.item);
    Regroup(whole.values, test.values, SentItem(m, a.item));
  }

  lemma {:induction false} AppendsSend(m: Mode, at: Slot, whole: Piece, path: D.Path, appends: seq<U.Append>, n: nat)
    ensures AppendedAll(m, at, whole, path, appends, n).values == whole.values + SentAppends(m, appends)
    decreases |appends|
  {
    hide AppendedText, SentAppend;
    if appends == [] {
      NothingAfter(whole.values);
    } else {
      var next := AppendedText(m, at, whole, path, appends[0], n + |whole.values|);
      AppendSends(m, at, whole, path, appends[0], n + |whole.values|);
      AppendsSend(m, at, next, path, appends[1..], n);
      Regroup(whole.values, SentAppend(m, appends[0]), SentAppends(m, appends[1..]));
    }
  }

  lemma {:induction false} PullsSend(m: Mode, pulls: seq<D.Json>, n: nat)
    ensures PullTexts(m, pulls, n).values == SentPulls(m, pulls)
    decreases |pulls|
  {
    hide BoundText, Sent;
    if pulls != [] {
      BoundSends(m, pulls[0], n);
      PullsSend(m, pulls[1..], n + |Sent(m, pulls[0])|);
    }
  }

  lemma KeySends(m: Mode, at: Slot, fn: J.Fn, a: U.KeyWrites, n: nat)
    requires !fn.JsonRemove?
    ensures KeyText(m, at, fn, a, n).values == ArrayText(m, at, [a.key], a.writes, n).values
  {
    hide ArrayText;
  }

  lemma ArraySends(m: Mode, at: Slot, path: D.Path, w: U.ArrayWrites, n: nat)
    ensures ArrayText(m, at, path, w, n).values == SentPulls(m, w.pulls) + SentAppends(m, w.appends)
  {
    PullsSend(m, w.pulls, n);
    assert StartText(m, at, path, w.pulls, n).values == SentPulls(m, w.pulls);
    AppendsSend(m, at, FirstText(m, at, path, w.pulls, n), path, w.appends, n);
    NothingAfter(SentPulls(m, w.pulls));
  }

  lemma {:induction false} KeysSend(m: Mode, at: Slot, arrays: seq<U.KeyWrites>, appending: bool, n: nat)
    ensures KeyTexts(m, at, arrays, appending, n).values == SentArrays(m, U.Those(arrays, appending))
    decreases |arrays|
  {
    if arrays == [] {
    } else if (arrays[0].writes.appends != []) != appending {
      KeysSend(m, at, arrays[1..], appending, n);
    } else {
      FirstKeySends(m, at, arrays, appending, n);
    }
  }

  lemma {:induction false} FirstKeySends(m: Mode, at: Slot, arrays: seq<U.KeyWrites>, appending: bool, n: nat)
    requires arrays != [] && (arrays[0].writes.appends != []) == appending
    ensures KeyTexts(m, at, arrays, appending, n).values == SentArrays(m, U.Those(arrays, appending))
    decreases |arrays|, 0
  {
    hide KeyText;
    var fn := if appending then J.JsonSet else J.JsonReplace;
    var first := KeyText(m, at, fn, arrays[0], n);
    KeySends(m, at, fn, arrays[0], n);
    ArraySends(m, at, [arrays[0].key], arrays[0].writes, n);
    KeysSend(m, at, arrays[1..], appending, n + |first.values|);
    KeysThen(m, at, arrays, appending, n, first, KeyTexts(m, at, arrays[1..], appending, n + |first.values|));
    HeadOf(arrays[0], U.Those(arrays[1..], appending));
  }

  lemma {:induction false} SetsSend(m: Mode, sets: seq<U.Assignment>, n: nat)
    ensures SetTexts(m, sets, n).values == SentSets(m, sets)
    decreases |sets|
  {
    if sets != [] {
      BoundSends(m, sets[0].value, n);
      SetsSend(m, sets[1..], n + |Sent(m, sets[0].value)|);
    }
  }

  /**
   * A JSON update binds what is pulled from the arrays nothing is appended to, then each appended array's pulls and its
   * appends, a unique one's test before its item, and last what is set; parents and removals bind nothing.
   */
  lemma UpdateBinds(m: Mode, at: Slot, w: U.Writes, notNull: bool, n: nat)
    requires U.PathsGiven(w)
    ensures UpdateText(m, at, w, notNull, n).values
         == SentArrays(m, U.Those(w.arrays, false)) + SentArrays(m, U.Those(w.arrays, true)) + SentSets(m, w.set')
  {
    hide KeyTexts, SetTexts, ParentTexts, UnsetTexts, ArraysText, SetText, UnsetText, SentArrays, SentSets, U.Those,
    TargetText, WriterOf, U.Once, U.AllAncestors;
    var pulled := KeyTexts(m, at, w.arrays, false, n);
    var appended := KeyTexts(m, at, w.arrays, true, n + |pulled.values|);
    KeysSend(m, at, w.arrays, false, n);
    KeysSend(m, at, w.arrays, true, n + |pulled.values|);
    SetsSend(m, w.set', n + |pulled.values| + |appended.values|);
  }
}
