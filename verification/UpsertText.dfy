/** The text of an upsert, and the order in which it binds what it writes. */
module UpsertText {
  import opened Options
  import opened Values
  import opened SqlText
  import opened Filters
  import opened WhereText
  import opened PlaceholderOrder
  import opened QueryContexts
  import opened WhereWriter
  import opened Sequences
  import JsonText
  import JsonWriter
  import Upserts

  // ----- the list -----

  /** A condition, rendered for the first free placeholder and the aliases taken where it comes to stand. */
  type Rendering = (nat, set<string>) -> Fragment

  function RenderingOf(m: Mode, table: string, where: Where): Rendering {
    (n: nat, taken: set<string>) => WhereFragment(m, table, true, Bare, where, n, taken)
  }

  function GuardOf(m: Mode, table: string, guard: Option<Where>): Option<Rendering> {
    match guard
    case None => None
    case Some(where) => Some(RenderingOf(m, table, where))
  }

  function AmountText(m: Mode, table: string, amount: Upserts.Amount, n: nat): Piece {
    match amount
    case Amount(v) => ValueText(m, table, Given(v), n)
    case AmountOf(raw, _) =>
      var p := RawText(m, table, raw, n);
      Piece(Parens(p.text), p.values)
  }

  function Increased(table: string, e: Upserts.Entry, op: string, amount: Piece): Piece {
    Piece([Word("COALESCE"), LParen, Column(table, e.column), Comma, Literal(Num(0)), RParen, Word(op)] + amount.text,
          amount.values)
  }

  /** A column of the row inserted: through the name that row is given, or as `VALUE(column)` where it is given none. */
  function IncomingText(incoming: Option<string>, column: string): Tokens {
    match incoming
    case Some(row) => [Column(row, column)]
    case None => [Word("VALUE"), LParen, Column("", column), RParen]
  }

  /** What an assignment sets its column to, what reads the row found reading it through the table's name. */
  function AssignedText(m: Mode, table: string, incoming: Option<string>, e: Upserts.Entry, n: nat): Piece {
    match e.value
    case Constant(v) => ValueText(m, table, Given(v), n)
    case Incoming(c) => Piece(IncomingText(incoming, c), [])
    case Arithmetic(op, operand) => Increased(table, e, op, AmountText(m, table, operand, n))
    case Computed(raw, _) => RawText(m, table, raw, n)
    case Changed(change) => JsonText.ChangeText(m, JsonText.Slot(table, e.column), change, n)
  }

  function Plain(column: string, v: Piece, taken: set<string>): Fragment {
    Fragment([Word(column), Symbol(Eq)] + v.text, v.values, taken)
  }

  function Guarded(table: string, column: string, guard: Fragment, v: Piece): Fragment {
    Fragment([Word(column), Symbol(Eq), Word("CASE WHEN")] + guard.text + [Word("THEN")] + v.text
             + [Word("ELSE"), Column(table, column), Word("END")],
             guard.values + v.values, guard.taken)
  }

  /** `col = value`, or `col = CASE WHEN guard THEN value ELSE table.col END`. */
  function AssignmentText(
    m: Mode, table: string, incoming: Option<string>, guard: Option<Rendering>, e: Upserts.Entry, n: nat,
    taken: set<string>): Fragment
  {
    match guard
    case None => Plain(e.column, AssignedText(m, table, incoming, e, n), taken)
    case Some(rendering) =>
      var g := rendering(n, taken);
      Guarded(table, e.column, g, AssignedText(m, table, incoming, e, n + |g.values|))
  }

  function Opening(first: bool): Tokens {
    if first then [] else [Comma]
  }

  function Following(first: bool, a: Fragment, rest: Fragment): Fragment {
    Fragment(Opening(first) + a.text + rest.text, a.values + rest.values, rest.taken)
  }

  /** How each entry of a list is written where it comes to stand. */
  type Assigning = (Upserts.Entry, nat, set<string>) -> Fragment

  function AssigningOf(m: Mode, table: string, incoming: Option<string>, guard: Option<Rendering>): Assigning {
    (e: Upserts.Entry, n: nat, taken: set<string>) => AssignmentText(m, table, incoming, guard, e, n, taken)
  }

  /** Each assignment after the one before it, `first` with no comma. */
  function AssignmentsText(
    assign: Assigning, entries: seq<Upserts.Entry>, first: bool, n: nat, taken: set<string>): Fragment
    decreases |entries|
  {
    if entries == [] then Fragment([], [], taken)
    else
      var a := assign(entries[0], n, taken);
      Following(first, a, AssignmentsText(assign, entries[1..], false, n + |a.values|, a.taken))
  }

  // ----- the statements -----

  /** What a row inserted holds in a column: a value, SQL, or the keyword for a column it leaves out. */
  datatype Cell = Held(value: Value) | HeldSql(raw: RawSql) | Omitted(keyword: string)

  type Cells = seq<Cell>

  function CellText(m: Mode, cell: Cell, n: nat): Piece {
    match cell
    case Held(v) => ValueText(m, "", Given(v), n)
    case HeldSql(raw) => RawText(m, "", raw, n)
    case Omitted(keyword) => Piece([Word(keyword)], [])
  }

  function CellTexts(m: Mode, row: Cells, n: nat): Pieces {
    if row == [] then Pieces([], [])
    else
      var first := CellText(m, row[0], n);
      var rest := CellTexts(m, row[1..], n + |first.values|);
      Pieces([first.text] + rest.parts, first.values + rest.values)
  }

  function RowThen(row: Pieces, rest: Piece): Piece {
    Piece(Parens(Join(row.parts, Comma)) + rest.text, row.values + rest.values)
  }

  /** The rows inserted, in the values list. */
  function RowsText(m: Mode, rows: seq<Cells>, n: nat): Piece {
    if rows == [] then Piece([], [])
    else
      var row := CellTexts(m, rows[0], n);
      RowThen(row, RowsText(m, rows[1..], n + |row.values|))
  }

  function RowsOf(m: Mode, rows: seq<Cells>): Rendering {
    (n: nat, taken: set<string>) => var p := RowsText(m, rows, n); Fragment(p.text, p.values, taken)
  }

  function ListOf(assign: Assigning, entries: seq<Upserts.Entry>): Rendering {
    (n: nat, taken: set<string>) => AssignmentsText(assign, entries, true, n, taken)
  }

  function Prefixed(word: Token, text: Tokens): Tokens {
    if text == [] then [] else [word] + text
  }

  /** `key = LAST_INSERT_ID(key),` where the header of an upsert of one row is to report the key of a row it finds. */
  function HeaderOf(table: string, key: Option<string>, rows: seq<Cells>): Tokens {
    if key.None? || |rows| != 1 then []
    else
      var column := Column(table, key.value);
      [column, Symbol(Eq), Word("LAST_INSERT_ID"), LParen, column, RParen, Comma]
  }

  /** What an upsert adds after its rows: the list, with the header before it, where the list assigns anything. */
  function OnDuplicate(newRow: Option<string>, header: Tokens, list: Tokens): Tokens {
    if list == [] then []
    else
      (if newRow.Some? then [Word("AS"), Word(newRow.value)] else []) + [Word("ON DUPLICATE KEY UPDATE")] + header
      + list
  }

  /** An insert of nothing to assign skips a row that is there. */
  function InsertWord(list: Tokens): Token {
    Word(if list == [] then "INSERT IGNORE" else "INSERT")
  }

  function InsertThenUpdate(newRow: Option<string>, insert: Fragment, header: Tokens, list: Fragment): Fragment {
    Fragment([InsertWord(list.text)] + insert.text + OnDuplicate(newRow, header, list.text),
             insert.values + list.values, list.taken)
  }

  /** MySQL's statement: the rows come first, in the text and among what is bound, and the list after them. */
  function MysqlText(
    newRow: Option<string>, rows: Rendering, header: Tokens, list: Rendering, n: nat, taken: set<string>): Fragment {
    var insert := rows(n, taken);
    InsertThenUpdate(newRow, insert, header, list(n + |insert.values|, insert.taken))
  }

  /** What a found row takes, and under what. */
  datatype Found = Found(list: Fragment, condition: Fragment)

  /** What a found row takes where the update has a `WHERE` of its own: the list, and then the condition. */
  function FoundRow(list: Rendering, where: Rendering, n: nat, taken: set<string>): Found {
    var f := list(n, taken);
    Found(f, if f.text == [] then Fragment([], [], f.taken) else where(n + |f.values|, f.taken))
  }

  function OnConflict(insert: Fragment, found: Found): Fragment {
    Fragment([Word("INSERT")] + insert.text
             + ([Word(if found.list.text == [] then "DO NOTHING" else "DO UPDATE SET")]
                + found.list.text + Prefixed(KwWhere, found.condition.text)),
             insert.values + (found.list.values + found.condition.values), found.condition.taken)
  }

  /** `INSERT ... ON CONFLICT ... DO UPDATE SET list WHERE condition`. */
  function ConflictText(rows: Rendering, list: Rendering, where: Rendering, n: nat, taken: set<string>): Fragment {
    var insert := rows(n, taken);
    OnConflict(insert, FoundRow(list, where, n + |insert.values|, insert.taken))
  }

  function Matched(found: Found): Tokens {
    if found.list.text == [] then []
    else [Word("WHEN MATCHED")] + Prefixed(KwAnd, found.condition.text) + [Word("THEN UPDATE SET")] + found.list.text
  }

  function WhenMatched(source: Fragment, found: Found): Fragment {
    Fragment([Word("MERGE")] + source.text + Matched(found),
             (found.list.values + found.condition.values) + source.values, source.taken)
  }

  /** `MERGE ... USING rows ... WHEN MATCHED AND condition THEN UPDATE SET list`, what a found row takes bound first. */
  function MergeText(rows: Rendering, list: Rendering, where: Rendering, n: nat, taken: set<string>): Fragment {
    var found := FoundRow(list, where, n, taken);
    WhenMatched(rows(n + |found.list.values| + |found.condition.values|, found.condition.taken), found)
  }

  // ----- the order of what is bound -----

  /** A text that carries a placeholder for each value it binds, in the order it binds them. */
  ghost predicate IsOrdered(f: Fragment, n: nat) {
    Indices(f.text) == After(n, |f.values|)
  }

  ghost predicate AlwaysOrdered(rendering: Rendering) {
    forall n: nat, taken: set<string> :: IsOrdered(rendering(n, taken), n)
  }

  ghost predicate GuardOrdered(guard: Option<Rendering>) {
    guard.Some? ==> AlwaysOrdered(guard.value)
  }

  lemma RenderingOrdered(m: Mode, table: string, where: Where)
    ensures AlwaysOrdered(RenderingOf(m, table, where))
  {
    var rendering := RenderingOf(m, table, where);
    forall n: nat, taken: set<string> ensures IsOrdered(rendering(n, taken), n) {
      WhereOrdered(m, table, true, Bare, where, n, taken);
    }
  }

  lemma AmountOrdered(m: Mode, table: string, amount: Upserts.Amount, n: nat)
    ensures var p := AmountText(m, table, amount, n); Indices(p.text) == After(n, |p.values|)
  {
    match amount
    case Amount(v) => ValueOrdered(m, table, Given(v), n);
    case AmountOf(raw, _) =>
      RawOrdered(m, table, raw, n);
      ParensKeep(RawText(m, table, raw, n).text);
  }

  /** What is assigned binds in order, SQL's own values and a JSON change's among it. */
  lemma AssignedOrdered(m: Mode, table: string, incoming: Option<string>, e: Upserts.Entry, n: nat)
    ensures var p := AssignedText(m, table, incoming, e, n); Indices(p.text) == After(n, |p.values|)
  {
    hide RawText, JsonText.ChangeText, AmountText;
    match e.value
    case Constant(v) => ValueOrdered(m, table, Given(v), n);
    case Incoming(c) => NoIndices(IncomingText(incoming, c));
    case Arithmetic(op, operand) =>
      AmountOrdered(m, table, operand, n);
      Around([Word("COALESCE"), LParen, Column(table, e.column), Comma, Literal(Num(0)), RParen, Word(op)],
             AmountText(m, table, operand, n).text, []);
    case Computed(raw, _) => RawOrdered(m, table, raw, n);
    case Changed(change) => JsonText.ChangeInOrder(m, JsonText.Slot(table, e.column), change, n);
  }

  /** One text bound after another. */
  lemma BoundInTurn(x: Tokens, y: Tokens, n: nat, j: nat, k: nat)
    requires Indices(x) == After(n, j) && Indices(y) == After(n + j, k)
    ensures Indices(x + y) == After(n, j + k)
  {
    IndicesAppend(x, y);
    AfterAppends(n, j, k);
  }

  lemma PlainOrdered(column: string, v: Piece, taken: set<string>, n: nat)
    requires Indices(v.text) == After(n, |v.values|)
    ensures var f := Plain(column, v, taken); Indices(f.text) == After(n, |f.values|)
  {
    Around([Word(column), Symbol(Eq)], v.text, []);
  }

  lemma GuardedOrdered(table: string, column: string, guard: Fragment, v: Piece, n: nat)
    requires Indices(guard.text) == After(n, |guard.values|)
    requires Indices(v.text) == After(n + |guard.values|, |v.values|)
    ensures var f := Guarded(table, column, guard, v); Indices(f.text) == After(n, |f.values|)
  {
    var a := [Word(column), Symbol(Eq), Word("CASE WHEN")];
    var c := [Word("ELSE"), Column(table, column), Word("END")];
    Around(a, guard.text, [Word("THEN")]);
    BoundInTurn(a + guard.text + [Word("THEN")], v.text, n, |guard.values|, |v.values|);
    Around([], a + guard.text + [Word("THEN")] + v.text, c);
    NothingBefore(a + guard.text + [Word("THEN")] + v.text);
  }

  lemma AssignmentOrdered(
    m: Mode, table: string, incoming: Option<string>, guard: Option<Rendering>, e: Upserts.Entry, n: nat,
    taken: set<string>)
    requires GuardOrdered(guard)
    ensures var f := AssignmentText(m, table, incoming, guard, e, n, taken); Indices(f.text) == After(n, |f.values|)
  {
    hide AssignedText, Guarded, Plain, Indices, After;
    match guard
    case None =>
      AssignedOrdered(m, table, incoming, e, n);
      PlainOrdered(e.column, AssignedText(m, table, incoming, e, n), taken, n);
    case Some(rendering) =>
      var g := rendering(n, taken);
      assert IsOrdered(g, n);
      AssignedOrdered(m, table, incoming, e, n + |g.values|);
      GuardedOrdered(table, e.column, g, AssignedText(m, table, incoming, e, n + |g.values|), n);
  }

  lemma FollowingOrdered(first: bool, a: Fragment, rest: Fragment, n: nat)
    requires Indices(a.text) == After(n, |a.values|)
    requires Indices(rest.text) == After(n + |a.values|, |rest.values|)
    ensures var f := Following(first, a, rest); Indices(f.text) == After(n, |f.values|)
  {
    Around(Opening(first), a.text, []);
    BoundInTurn(Opening(first) + a.text, rest.text, n, |a.values|, |rest.values|);
  }

  ghost predicate AssigningOrdered(assign: Assigning) {
    forall e: Upserts.Entry, n: nat, taken: set<string> :: IsOrdered(assign(e, n, taken), n)
  }

  lemma {:induction false} AssignmentsOrdered(
    assign: Assigning, entries: seq<Upserts.Entry>, first: bool, n: nat, taken: set<string>)
    requires AssigningOrdered(assign)
    ensures IsOrdered(AssignmentsText(assign, entries, first, n, taken), n)
    decreases |entries|
  {
    if entries != [] {
      var a := assign(entries[0], n, taken);
      assert IsOrdered(a, n);
      AssignmentsOrdered(assign, entries[1..], false, n + |a.values|, a.taken);
      FollowingOrdered(first, a, AssignmentsText(assign, entries[1..], false, n + |a.values|, a.taken), n);
    }
  }

  lemma CellOrdered(m: Mode, cell: Cell, n: nat)
    ensures var p := CellText(m, cell, n); Indices(p.text) == After(n, |p.values|)
  {
    hide RawText;
    match cell
    case Held(v) => ValueOrdered(m, "", Given(v), n);
    case HeldSql(raw) => RawOrdered(m, "", raw, n);
    case Omitted(keyword) => NoIndices([Word(keyword)]);
  }

  lemma {:induction false} CellsOrdered(m: Mode, row: Cells, n: nat)
    ensures var ps := CellTexts(m, row, n); IndicesOf(ps.parts) == After(n, |ps.values|)
    decreases |row|
  {
    hide CellText;
    if row != [] {
      var first := CellText(m, row[0], n);
      CellOrdered(m, row[0], n);
      CellsOrdered(m, row[1..], n + |first.values|);
      PieceThen(first, CellTexts(m, row[1..], n + |first.values|), CellTexts(m, row, n), n);
    }
  }

  lemma RowThenOrdered(row: Pieces, rest: Piece, n: nat)
    requires IndicesOf(row.parts) == After(n, |row.values|)
    requires Indices(rest.text) == After(n + |row.values|, |rest.values|)
    ensures var p := RowThen(row, rest); Indices(p.text) == After(n, |p.values|)
  {
    JoinKeeps(row.parts, Comma);
    ParensKeep(Join(row.parts, Comma));
    BoundInTurn(Parens(Join(row.parts, Comma)), rest.text, n, |row.values|, |rest.values|);
  }

  lemma RowsUnfold(m: Mode, rows: seq<Cells>, i: nat, n: nat)
    requires i < |rows|
    ensures var row := CellTexts(m, rows[i], n);
            RowsText(m, rows[i..], n) == RowThen(row, RowsText(m, rows[i + 1..], n + |row.values|))
  {
    assert rows[i..][0] == rows[i] && rows[i..][1..] == rows[i + 1..];
  }

  lemma RowsThen(m: Mode, rows: seq<Cells>, n: nat, row: Pieces, rest: Piece)
    requires rows != [] && row == CellTexts(m, rows[0], n) && rest == RowsText(m, rows[1..], n + |row.values|)
    requires IndicesOf(row.parts) == After(n, |row.values|)
    requires Indices(rest.text) == After(n + |row.values|, |rest.values|)
    ensures var p := RowsText(m, rows, n); Indices(p.text) == After(n, |p.values|)
  {
    RowThenOrdered(row, rest, n);
    assert RowsText(m, rows, n) == RowThen(row, rest);
  }

  lemma {:induction false} RowsTextOrdered(m: Mode, rows: seq<Cells>, n: nat)
    ensures var p := RowsText(m, rows, n); Indices(p.text) == After(n, |p.values|)
    decreases |rows|
  {
    if rows != [] {
      var row := CellTexts(m, rows[0], n);
      CellsOrdered(m, rows[0], n);
      RowsTextOrdered(m, rows[1..], n + |row.values|);
      RowsThen(m, rows, n, row, RowsText(m, rows[1..], n + |row.values|));
    }
  }

  /** The rows inserted bind in order. */
  lemma RowsOrdered(m: Mode, rows: seq<Cells>)
    ensures AlwaysOrdered(RowsOf(m, rows))
  {
    var rendering := RowsOf(m, rows);
    forall n: nat, taken: set<string> ensures IsOrdered(rendering(n, taken), n) {
      RowsTextOrdered(m, rows, n);
    }
  }

  lemma AssigningIsOrdered(m: Mode, table: string, incoming: Option<string>, guard: Option<Rendering>)
    requires GuardOrdered(guard)
    ensures AssigningOrdered(AssigningOf(m, table, incoming, guard))
  {
    var assign := AssigningOf(m, table, incoming, guard);
    forall e: Upserts.Entry, n: nat, taken: set<string> ensures IsOrdered(assign(e, n, taken), n) {
      AssignmentOrdered(m, table, incoming, guard, e, n, taken);
    }
  }

  /** So does a `SET` list, each assignment's guard bound again before its value. */
  lemma ListOrdered(assign: Assigning, entries: seq<Upserts.Entry>)
    requires AssigningOrdered(assign)
    ensures AlwaysOrdered(ListOf(assign, entries))
  {
    var rendering := ListOf(assign, entries);
    forall n: nat, taken: set<string> ensures IsOrdered(rendering(n, taken), n) {
      AssignmentsOrdered(assign, entries, true, n, taken);
    }
  }

  ghost predicate FoundOrdered(found: Found, n: nat) {
    && IsOrdered(found.list, n)
    && IsOrdered(found.condition, n + |found.list.values|)
    && (found.list.text == [] ==> found.condition.text == [])
  }

  lemma FoundRowOrdered(list: Rendering, where: Rendering, n: nat, taken: set<string>)
    requires AlwaysOrdered(list) && AlwaysOrdered(where)
    ensures FoundOrdered(FoundRow(list, where, n, taken), n)
  {
    var f := list(n, taken);
    assert IsOrdered(f, n);
    assert f.text != [] ==> IsOrdered(where(n + |f.values|, f.taken), n + |f.values|);
  }

  lemma PrefixKeeps(word: Token, text: Tokens)
    requires !word.Placeholder?
    ensures Indices(Prefixed(word, text)) == Indices(text)
  {
    Around([word], text, []);
  }

  lemma OnDuplicateKeeps(newRow: Option<string>, header: Tokens, list: Tokens)
    requires Indices(header) == []
    ensures Indices(OnDuplicate(newRow, header, list)) == Indices(list)
  {
    var word := (if newRow.Some? then [Word("AS"), Word(newRow.value)] else []) + [Word("ON DUPLICATE KEY UPDATE")];
    NoIndices(word);
    IndicesAppend(word, header);
    IndicesAppend(word + header, list);
    NothingBefore(Indices(list));
  }

  lemma HeaderBindsNothing(table: string, key: Option<string>, rows: seq<Cells>)
    ensures Indices(HeaderOf(table, key, rows)) == []
  {
    NoIndices(HeaderOf(table, key, rows));
  }

  lemma InsertThenUpdateOrdered(newRow: Option<string>, insert: Fragment, header: Tokens, list: Fragment, n: nat)
    requires IsOrdered(insert, n) && IsOrdered(list, n + |insert.values|) && Indices(header) == []
    ensures IsOrdered(InsertThenUpdate(newRow, insert, header, list), n)
  {
    hide Indices, OnDuplicate;
    OnDuplicateKeeps(newRow, header, list.text);
    Around([InsertWord(list.text)], insert.text, []);
    BoundInTurn([InsertWord(list.text)] + insert.text, OnDuplicate(newRow, header, list.text), n, |insert.values|,
                |list.values|);
  }

  lemma OrderedPositional(f: Fragment, n: nat)
    requires IsOrdered(f, n)
    ensures Positional(f.text, n) == f.text
  {
    OrderedIsPositional(f.text, n, |f.values|);
  }

  /** MySQL's upsert carries a placeholder for each value it binds, in the order it binds them: a `?` reads its own. */
  lemma MysqlOrdered(
    newRow: Option<string>, rows: Rendering, header: Tokens, list: Rendering, n: nat, taken: set<string>)
    requires AlwaysOrdered(rows) && AlwaysOrdered(list) && Indices(header) == []
    ensures var f := MysqlText(newRow, rows, header, list, n, taken); IsOrdered(f, n) && Positional(f.text, n) == f.text
  {
    hide InsertWord, OnDuplicate, Indices;
    var insert := rows(n, taken);
    assert IsOrdered(insert, n);
    var update := list(n + |insert.values|, insert.taken);
    assert IsOrdered(update, n + |insert.values|);
    InsertThenUpdateOrdered(newRow, insert, header, update, n);
    OrderedPositional(InsertThenUpdate(newRow, insert, header, update), n);
  }

  lemma OnConflictOrdered(insert: Fragment, found: Found, n: nat)
    requires IsOrdered(insert, n) && FoundOrdered(found, n + |insert.values|)
    ensures IsOrdered(OnConflict(insert, found), n)
  {
    hide Indices, IndicesOf;
    var word := [Word(if found.list.text == [] then "DO NOTHING" else "DO UPDATE SET")];
    var under := Prefixed(KwWhere, found.condition.text);
    var k := |found.list.values| + |found.condition.values|;
    PrefixKeeps(KwWhere, found.condition.text);
    Around(word, found.list.text, []);
    BoundInTurn(word + found.list.text, under, n + |insert.values|, |found.list.values|, |found.condition.values|);
    Around([Word("INSERT")], insert.text, []);
    BoundInTurn([Word("INSERT")] + insert.text, word + found.list.text + under, n, |insert.values|, k);
  }

  /** So does one with a `WHERE` of its own, the condition bound after the list it follows. */
  lemma ConflictOrdered(rows: Rendering, list: Rendering, where: Rendering, n: nat, taken: set<string>)
    requires AlwaysOrdered(rows) && AlwaysOrdered(list) && AlwaysOrdered(where)
    ensures var f := ConflictText(rows, list, where, n, taken); IsOrdered(f, n) && Positional(f.text, n) == f.text
  {
    var insert := rows(n, taken);
    assert IsOrdered(insert, n);
    var found := FoundRow(list, where, n + |insert.values|, insert.taken);
    FoundRowOrdered(list, where, n + |insert.values|, insert.taken);
    OnConflictOrdered(insert, found, n);
    OrderedPositional(OnConflict(insert, found), n);
  }

  lemma MatchedNumbers(found: Found, n: nat)
    requires FoundOrdered(found, n)
    ensures var l, c := |found.list.values|, |found.condition.values|;
            Indices(Matched(found)) == After(n + l, c) + After(n, l)
  {
    hide Indices;
    var under, sets := Prefixed(KwAnd, found.condition.text), [Word("THEN UPDATE SET")];
    NoIndices([]);
    PrefixKeeps(KwAnd, found.condition.text);
    Around([Word("WHEN MATCHED")], under, sets);
    IndicesAppend([Word("WHEN MATCHED")] + under + sets, found.list.text);
  }

  lemma WhenMatchedNumbers(source: Fragment, found: Found, n: nat)
    requires FoundOrdered(found, n)
    requires IsOrdered(source, n + |found.list.values| + |found.condition.values|)
    ensures var l, c := |found.list.values|, |found.condition.values|;
            Indices(WhenMatched(source, found).text) == After(n + l + c, |source.values|)
              + (After(n + l, c) + After(n, l))
  {
    MatchedNumbers(found, n);
    Around([Word("MERGE")], source.text, []);
    IndicesAppend([Word("MERGE")] + source.text, Matched(found));
  }

  /** Rows bound after what a found row takes are not read in the order they are bound. */
  lemma LaterFirst(n: nat, j: nat, k: nat, rest: seq<nat>)
    requires j > 0 && k > 0
    ensures After(n + k, j) + rest != After(n, k + j)
  {
    assert (After(n + k, j) + rest)[0] == n + k + 1 && After(n, k + j)[0] == n + 1;
  }

  /**
   * `MERGE` binds what a found row takes before the rows its text opens with: each placeholder names its value by
   * number, and where both bind any, no engine that counts its placeholders by place would read them.
   */
  lemma MergeIsNumbered(rows: Rendering, list: Rendering, where: Rendering, n: nat, taken: set<string>)
    requires AlwaysOrdered(rows) && AlwaysOrdered(list) && AlwaysOrdered(where)
    ensures var found := FoundRow(list, where, n, taken);
            var l, c := |found.list.values|, |found.condition.values|;
            var source := rows(n + l + c, found.condition.taken);
            var f := MergeText(rows, list, where, n, taken);
            && Indices(f.text) == After(n + l + c, |source.values|) + (After(n + l, c) + After(n, l))
            && (l + c > 0 && source.values != [] ==> !IsOrdered(f, n))
  {
    hide Indices, Matched;
    var found := FoundRow(list, where, n, taken);
    var l, c := |found.list.values|, |found.condition.values|;
    var source := rows(n + l + c, found.condition.taken);
    FoundRowOrdered(list, where, n, taken);
    assert IsOrdered(source, n + l + c);
    WhenMatchedNumbers(source, found, n);
    MergeUnordered(WhenMatched(source, found), source, found, n);
  }

  lemma MergeUnordered(f: Fragment, source: Fragment, found: Found, n: nat)
    requires var l, c := |found.list.values|, |found.condition.values|;
             && |f.values| == l + c + |source.values|
             && Indices(f.text) == After(n + l + c, |source.values|) + (After(n + l, c) + After(n, l))
    ensures |found.list.values| + |found.condition.values| > 0 && source.values != [] ==> !IsOrdered(f, n)
  {
    var l, c := |found.list.values|, |found.condition.values|;
    if l + c > 0 && source.values != [] {
      LaterFirst(n, |source.values|, l + c, After(n + l, c) + After(n, l));
    }
  }

  /** What MySQL's upsert sets under a guard or none. */
  function MysqlList(
    m: Mode, newRow: Option<string>, table: string, guard: Option<Where>, entries: seq<Upserts.Entry>): Rendering {
    ListOf(AssigningOf(m, table, newRow, GuardOf(m, table, guard)), entries)
  }

  /** MySQL's upsert of rows and entries, under a guard or none, the key of a row found reported or not. */
  lemma MysqlUpsertOrdered(
    m: Mode, newRow: Option<string>, table: string, key: Option<string>, rows: seq<Cells>, guard: Option<Where>,
    entries: seq<Upserts.Entry>, n: nat, taken: set<string>)
    ensures var f := MysqlText(newRow, RowsOf(m, rows), HeaderOf(table, key, rows),
                               MysqlList(m, newRow, table, guard, entries), n,
                              taken);
            IsOrdered(f, n) && Positional(f.text, n) == f.text
  {
    if guard.Some? {
      RenderingOrdered(m, table, guard.value);
    }
    RowsOrdered(m, rows);
    AssigningIsOrdered(m, table, newRow, GuardOf(m, table, guard));
    ListOrdered(AssigningOf(m, table, newRow, GuardOf(m, table, guard)), entries);
    HeaderBindsNothing(table, key, rows);
    MysqlOrdered(newRow, RowsOf(m, rows), HeaderOf(table, key, rows), MysqlList(m, newRow, table, guard, entries), n,
                 taken);
  }

  /** And one with a `WHERE` of its own. */
  lemma ConflictUpsertOrdered(
    m: Mode, table: string, rows: seq<Cells>, where: Where, entries: seq<Upserts.Entry>, n: nat, taken: set<string>)
    ensures var list := ListOf(AssigningOf(m, table, Some("EXCLUDED"), None), entries);
            var f := ConflictText(RowsOf(m, rows), list, RenderingOf(m, table, where), n, taken);
            IsOrdered(f, n) && Positional(f.text, n) == f.text
  {
    RenderingOrdered(m, table, where);
    RowsOrdered(m, rows);
    AssigningIsOrdered(m, table, Some("EXCLUDED"), None);
    ListOrdered(AssigningOf(m, table, Some("EXCLUDED"), None), entries);
    ConflictOrdered(RowsOf(m, rows), ListOf(AssigningOf(m, table, Some("EXCLUDED"), None), entries),
                    RenderingOf(m, table, where), n, taken);
  }

  // ----- the list as it is written -----

  method AddAmount(ctx: SqlQueryContext, table: string, amount: Upserts.Amount) returns (text: Tokens)
    modifies ctx.params
    ensures var p := AmountText(ctx.TheMode(), table, amount, |old(ctx.params.values)|);
            text == p.text && ctx.params.values == old(ctx.params.values) + p.values
  {
    match amount
    case Amount(v) => text := ctx.AddValue(table, Given(v));
    case AmountOf(raw, _) =>
      var shown := RawCondition(ctx, table, raw);
      text := Parens(shown);
  }

  /** What an assignment sets its column to, bound as it is rendered. */
  method AssignedValue(
    ctx: SqlQueryContext, table: string, incoming: Option<string>, e: Upserts.Entry) returns (text: Tokens)
    modifies ctx.params
    ensures var p := AssignedText(ctx.TheMode(), table, incoming, e, |old(ctx.params.values)|);
            text == p.text && ctx.params.values == old(ctx.params.values) + p.values
  {
    hide JsonText.ChangeText;
    match e.value
    case Constant(v) => text := ctx.AddValue(table, Given(v));
    case Incoming(c) => text := IncomingText(incoming, c);
    case Arithmetic(op, operand) =>
      var v := AddAmount(ctx, table, operand);
      text := [Word("COALESCE"), LParen, Column(table, e.column), Comma, Literal(Num(0)), RParen, Word(op)] + v;
    case Computed(raw, _) => text := RawCondition(ctx, table, raw);
    case Changed(change) => text := JsonWriter.AddChange(ctx, JsonText.Slot(table, e.column), change);
  }

  /** A guard, rendered in a fragment of the statement; not `ok` where it is refused. */
  method GuardText(ctx: SqlQueryContext, table: string, guard: Where) returns (ok: bool, text: Tokens)
    requires ctx.Valid()
    modifies ctx.params, ctx.Root()`tableAliases
    ensures ok == !ClausesRefused(ctx.dialect, guard.clauses)
    ensures var f := WhereFragment(ctx.TheMode(), table, true, Bare, guard,
                                   |old(ctx.params.values)|, old(ctx.Root().tableAliases));
            ok ==>
              && text == f.text
              && ctx.params.values == old(ctx.params.values) + f.values
              && ctx.Root().tableAliases == f.taken
  {
    var fragment := ctx.CreateFragment();
    ok := RenderWhere(fragment, table, true, Bare, guard);
    text := fragment.Sql();
    if ok {
      NothingBefore(WhereFragment(ctx.TheMode(), table, true, Bare, guard, |old(ctx.params.values)|,
                                  old(ctx.Root().tableAliases)).text);
    }
  }

  predicate Unrefused(dialect: Dialect, guard: Option<Where>) {
    guard.Some? ==> !ClausesRefused(dialect, guard.value.clauses)
  }

  /** One assignment; not `ok` where its guard is refused. */
  method AppendAssignment(
    ctx: SqlQueryContext, table: string, incoming: Option<string>, guard: Option<Where>, e: Upserts.Entry)
    returns (ok: bool, text: Tokens)
    requires ctx.Valid()
    modifies ctx.params, ctx.Root()`tableAliases
    ensures ok == Unrefused(ctx.dialect, guard)
    ensures var f := AssignmentText(ctx.TheMode(), table, incoming, GuardOf(ctx.TheMode(), table, guard), e,
                                    |old(ctx.params.values)|, old(ctx.Root().tableAliases));
            ok ==>
              && text == f.text
              && ctx.params.values == old(ctx.params.values) + f.values
              && ctx.Root().tableAliases == f.taken
  {
    hide AssignedText, WhereFragment;
    ok := true;
    if guard.None? {
      var v := AssignedValue(ctx, table, incoming, e);
      text := [Word(e.column), Symbol(Eq)] + v;
    } else {
      ghost var before := ctx.params.values;
      ghost var g := WhereFragment(ctx.TheMode(), table, true, Bare, guard.value, |before|, ctx.Root().tableAliases);
      var shown;
      ok, shown := GuardText(ctx, table, guard.value);
      if ok {
        ghost var p := AssignedText(ctx.TheMode(), table, incoming, e, |before| + |g.values|);
        var v := AssignedValue(ctx, table, incoming, e);
        text := [Word(e.column), Symbol(Eq), Word("CASE WHEN")] + shown + [Word("THEN")] + v
                + [Word("ELSE"), Column(table, e.column), Word("END")];
        Regroup(before, g.values, p.values);
      } else {
        text := [];
      }
    }
  }

  /** `assign` is how the statement writes each entry under `guard`. */
  ghost predicate Writes(assign: Assigning, m: Mode, table: string, incoming: Option<string>, guard: Option<Where>) {
    forall e: Upserts.Entry, n: nat, taken: set<string>
      {:trigger AssignmentText(m, table, incoming, GuardOf(m, table, guard), e, n, taken)} ::
      assign(e, n, taken) == AssignmentText(m, table, incoming, GuardOf(m, table, guard), e, n, taken)
  }

  /** One assignment of a list, after a comma where it is not the first. */
  method AppendNext(
    ctx: SqlQueryContext, table: string, incoming: Option<string>, guard: Option<Where>, e: Upserts.Entry, first: bool,
    ghost assign: Assigning) returns (ok: bool)
    requires ctx.Valid() && Writes(assign, ctx.TheMode(), table, incoming, guard)
    modifies ctx`sqlChunks, ctx.params, ctx.Root()`tableAliases
    ensures ok == Unrefused(ctx.dialect, guard)
    ensures var a := assign(e, |old(ctx.params.values)|, old(ctx.Root().tableAliases));
            ok ==>
              && ctx.Sql() == old(ctx.Sql()) + Opening(first) + a.text
              && ctx.params.values == old(ctx.params.values) + a.values
              && ctx.Root().tableAliases == a.taken
  {
    ctx.Append(Opening(first));
    var shown;
    ok, shown := AppendAssignment(ctx, table, incoming, guard, e);
    if ok {
      ctx.Append(shown);
    }
  }

  /** What is written and bound so far, and what is left of it. */
  ghost predicate Written(
    text: Tokens, before: seq<Value>, all: Fragment, sql: Tokens, values: seq<Value>, left: Fragment)
  {
    && text + all.text == sql + left.text
    && before + all.values == values + left.values
    && all.taken == left.taken
  }

  lemma WritesNext(
    text: Tokens, before: seq<Value>, all: Fragment, sql: Tokens, values: seq<Value>, first: bool, a: Fragment,
    rest: Fragment)
    requires Written(text, before, all, sql, values, Following(first, a, rest))
    ensures Written(text, before, all, sql + Opening(first) + a.text, values + a.values, rest)
  {
    Regroup(sql + Opening(first), a.text, rest.text);
    Regroup(sql, Opening(first), a.text + rest.text);
    Regroup(Opening(first), a.text, rest.text);
    Regroup(values, a.values, rest.values);
  }

  /** A `SET` list, each assignment appended after the one before it. */
  method AppendAssignments(
    ctx: SqlQueryContext, table: string, incoming: Option<string>, guard: Option<Where>, entries: seq<Upserts.Entry>,
    ghost assign: Assigning) returns (ok: bool)
    requires ctx.Valid() && Writes(assign, ctx.TheMode(), table, incoming, guard)
    modifies ctx`sqlChunks, ctx.params, ctx.Root()`tableAliases
    ensures ok == (entries == [] || Unrefused(ctx.dialect, guard))
    ensures var f := AssignmentsText(assign, entries, true, |old(ctx.params.values)|, old(ctx.Root().tableAliases));
            ok ==>
              && ctx.Sql() == old(ctx.Sql()) + f.text
              && ctx.params.values == old(ctx.params.values) + f.values
              && ctx.Root().tableAliases == f.taken
  {
    hide AssignmentText;
    ok := true;
    ghost var text, before := ctx.Sql(), ctx.params.values;
    ghost var all := AssignmentsText(assign, entries, true, |before|, ctx.Root().tableAliases);
    assert entries[0..] == entries;
    for i := 0 to |entries|
      invariant ok && (i > 0 ==> Unrefused(ctx.dialect, guard))
      invariant Written(text, before, all, ctx.Sql(), ctx.params.values,
                        AssignmentsText(assign, entries[i..], i == 0, |ctx.params.values|, ctx.Root().tableAliases))
    {
      assert entries[i..][0] == entries[i] && entries[i..][1..] == entries[i + 1..];
      ghost var a := assign(entries[i], |ctx.params.values|, ctx.Root().tableAliases);
      WritesNext(text, before, all, ctx.Sql(), ctx.params.values, i == 0, a,
                 AssignmentsText(assign, entries[i + 1..], false, |ctx.params.values| + |a.values|, a.taken));
      ok := AppendNext(ctx, table, incoming, guard, entries[i], i == 0, assign);
      if !ok {
        return;
      }
    }
    NothingAfter(ctx.Sql());
    NothingAfter(ctx.params.values);
  }

  /** `list` is how the statement writes all of `entries`. */
  ghost predicate Lists(list: Rendering, assign: Assigning, entries: seq<Upserts.Entry>) {
    forall n: nat, taken: set<string> {:trigger AssignmentsText(assign, entries, true, n, taken), list(n, taken)} ::
      list(n, taken) == AssignmentsText(assign, entries, true, n, taken)
  }

  /** A `SET` list, written in a fragment of the statement. */
  method ListText(
    ctx: SqlQueryContext, table: string, incoming: Option<string>, guard: Option<Where>, entries: seq<Upserts.Entry>,
    ghost assign: Assigning, ghost list: Rendering) returns (ok: bool, text: Tokens)
    requires ctx.Valid() && Writes(assign, ctx.TheMode(), table, incoming, guard) && Lists(list, assign, entries)
    modifies ctx.params, ctx.Root()`tableAliases
    ensures ok == (entries == [] || Unrefused(ctx.dialect, guard))
    ensures var f := list(|old(ctx.params.values)|, old(ctx.Root().tableAliases));
            ok ==>
              && text == f.text
              && ctx.params.values == old(ctx.params.values) + f.values
              && ctx.Root().tableAliases == f.taken
  {
    ghost var f := list(|ctx.params.values|, ctx.Root().tableAliases);
    var fragment := ctx.CreateFragment();
    ok := AppendAssignments(fragment, table, incoming, guard, entries, assign);
    NothingBefore(f.text);
    text := fragment.Sql();
  }

  lemma NextCell(m: Mode, row: Cells, i: nat, n: nat)
    requires i < |row|
    ensures var first := CellText(m, row[i], n);
            var rest := CellTexts(m, row[i + 1..], n + |first.values|);
            CellTexts(m, row[i..], n) == Pieces([first.text] + rest.parts, first.values + rest.values)
  {
    hide CellText;
    assert row[i..][0] == row[i] && row[i..][1..] == row[i + 1..];
  }

  method AddCell(ctx: SqlQueryContext, cell: Cell) returns (text: Tokens)
    modifies ctx.params
    ensures var p := CellText(ctx.TheMode(), cell, |old(ctx.params.values)|);
            text == p.text && ctx.params.values == old(ctx.params.values) + p.values
  {
    match cell
    case Held(v) => text := ctx.AddValue("", Given(v));
    case HeldSql(raw) => text := RawCondition(ctx, "", raw);
    case Omitted(keyword) => text := [Word(keyword)];
  }

  method AddCells(ctx: SqlQueryContext, row: Cells) returns (parts: seq<Tokens>)
    modifies ctx.params
    ensures var ps := CellTexts(ctx.TheMode(), row, |old(ctx.params.values)|);
            parts == ps.parts && ctx.params.values == old(ctx.params.values) + ps.values
  {
    hide CellText, CellTexts;
    ghost var m, before := ctx.TheMode(), ctx.params.values;
    ghost var all := CellTexts(m, row, |before|);
    parts := [];
    assert row[0..] == row;
    for i := 0 to |row|
      invariant IsWritten(all, parts, before, ctx.params.values, CellTexts(m, row[i..], |ctx.params.values|))
    {
      NextCell(m, row, i, |ctx.params.values|);
      ghost var first := CellText(m, row[i], |ctx.params.values|);
      TakesPiece(all, parts, first, CellTexts(m, row[i + 1..], |ctx.params.values| + |first.values|), before,
                 ctx.params.values);
      var part := AddCell(ctx, row[i]);
      parts := parts + [part];
    }
    assert row[|row|..] == [];
    NoCells(m, |ctx.params.values|);
    NothingAfter(parts);
    NothingAfter(ctx.params.values);
  }

  lemma NoCells(m: Mode, n: nat)
    ensures CellTexts(m, [], n) == Pieces([], [])
  {
  }

  /** The row at `i`, and what is left of the rows once it is written. */
  method AppendRow(
    ctx: SqlQueryContext, rows: seq<Cells>, i: nat, ghost text: Tokens, ghost before: seq<Value>, ghost all: Piece)
    requires ctx.Valid() && i < |rows|
    requires RowsWritten(text, before, all, ctx.Sql(), ctx.params.values,
                         RowsText(ctx.TheMode(), rows[i..], |ctx.params.values|))
    modifies ctx`sqlChunks, ctx.params
    ensures RowsWritten(text, before, all, ctx.Sql(), ctx.params.values,
                        RowsText(ctx.TheMode(), rows[i + 1..], |ctx.params.values|))
  {
    ghost var m := ctx.TheMode();
    ghost var row := CellTexts(m, rows[i], |ctx.params.values|);
    ghost var rest := RowsText(m, rows[i + 1..], |ctx.params.values| + |row.values|);
    RowsUnfold(m, rows, i, |ctx.params.values|);
    WritesRow(text, before, all, ctx.Sql(), ctx.params.values, row, rest);
    var parts := AddCells(ctx, rows[i]);
    assert parts == row.parts && |ctx.params.values| == |old(ctx.params.values)| + |row.values|;
    ctx.Append(Parens(Join(parts, Comma)));
    assert ctx.Sql() == old(ctx.Sql()) + Parens(Join(row.parts, Comma));
  }

  /** The rows inserted, bound row by row. */
  method AppendRows(ctx: SqlQueryContext, rows: seq<Cells>)
    requires ctx.Valid()
    modifies ctx`sqlChunks, ctx.params
    ensures var p := RowsText(ctx.TheMode(), rows, |old(ctx.params.values)|);
            ctx.Sql() == old(ctx.Sql()) + p.text && ctx.params.values == old(ctx.params.values) + p.values
  {
    ghost var m, text, before := ctx.TheMode(), ctx.Sql(), ctx.params.values;
    ghost var all := RowsText(m, rows, |before|);
    assert rows[0..] == rows;
    for i := 0 to |rows|
      invariant RowsWritten(text, before, all, ctx.Sql(), ctx.params.values,
                            RowsText(m, rows[i..], |ctx.params.values|))
    {
      AppendRow(ctx, rows, i, text, before, all);
    }
    NothingAfter(ctx.Sql());
    NothingAfter(ctx.params.values);
  }

  ghost predicate RowsWritten(
    text: Tokens, before: seq<Value>, all: Piece, sql: Tokens, values: seq<Value>, left: Piece)
  {
    text + all.text == sql + left.text && before + all.values == values + left.values
  }

  lemma WritesRow(
    text: Tokens, before: seq<Value>, all: Piece, sql: Tokens, values: seq<Value>, row: Pieces, rest: Piece)
    requires RowsWritten(text, before, all, sql, values, RowThen(row, rest))
    ensures RowsWritten(text, before, all, sql + Parens(Join(row.parts, Comma)), values + row.values, rest)
  {
    Regroup(sql, Parens(Join(row.parts, Comma)), rest.text);
    Regroup(values, row.values, rest.values);
  }

  /** `inserted` is how the statement writes `rows`. */
  ghost predicate Inserts(inserted: Rendering, m: Mode, rows: seq<Cells>) {
    forall n: nat, taken: set<string> {:trigger RowsText(m, rows, n), inserted(n, taken)} ::
      var p := RowsText(m, rows, n);
      inserted(n, taken) == Fragment(p.text, p.values, taken)
  }

  method InsertText(ctx: SqlQueryContext, rows: seq<Cells>, ghost inserted: Rendering) returns (text: Tokens)
    requires ctx.Valid() && Inserts(inserted, ctx.TheMode(), rows)
    modifies ctx.params
    ensures var f := inserted(|old(ctx.params.values)|, ctx.Root().tableAliases);
            && text == f.text
            && ctx.params.values == old(ctx.params.values) + f.values
            && ctx.Root().tableAliases == f.taken
  {
    ghost var f := inserted(|ctx.params.values|, ctx.Root().tableAliases);
    var fragment := ctx.CreateFragment();
    AppendRows(fragment, rows);
    NothingBefore(f.text);
    text := fragment.Sql();
  }

  /** MySQL's upsert of `rows`, a found row taking `entries` under `guard`; not `ok` where the guard is refused. */
  method AppendUpsert(
    ctx: SqlQueryContext, newRow: Option<string>, table: string, key: Option<string>, rows: seq<Cells>,
    guard: Option<Where>,
    entries: seq<Upserts.Entry>, ghost assign: Assigning, ghost list: Rendering, ghost inserted: Rendering)
    returns (ok: bool)
    requires ctx.Valid() && Writes(assign, ctx.TheMode(), table, newRow, guard)
    requires Lists(list, assign, entries) && Inserts(inserted, ctx.TheMode(), rows)
    modifies ctx`sqlChunks, ctx.params, ctx.Root()`tableAliases
    ensures ok == (entries == [] || Unrefused(ctx.dialect, guard))
    ensures var f := MysqlText(newRow, inserted, HeaderOf(table, key, rows), list, |old(ctx.params.values)|,
                               old(ctx.Root().tableAliases));
            ok ==>
              && ctx.Sql() == old(ctx.Sql()) + f.text
              && ctx.params.values == old(ctx.params.values) + f.values
              && ctx.Root().tableAliases == f.taken
  {
    hide OnDuplicate, InsertWord, HeaderOf, RowsText, AssignmentsText, AssignmentText;
    ghost var before, taken := ctx.params.values, ctx.Root().tableAliases;
    ghost var p := inserted(|before|, taken);
    ghost var f := list(|before| + |p.values|, p.taken);
    var insert := InsertText(ctx, rows, inserted);
    assert |ctx.params.values| == |before| + |p.values| && ctx.Root().tableAliases == p.taken;
    var update;
    ok, update := ListText(ctx, table, newRow, guard, entries, assign, list);
    if ok {
      Regroup(before, p.values, f.values);
      assert ctx.params.values == before + (p.values + f.values);
      ctx.Append([InsertWord(update)] + insert + OnDuplicate(newRow, HeaderOf(table, key, rows), update));
    }
  }

  lemma WaysAgree(m: Mode, newRow: Option<string>, table: string, rows: seq<Cells>, guard: Option<Where>)
    ensures Inserts(RowsOf(m, rows), m, rows)
    ensures Writes(AssigningOf(m, table, newRow, GuardOf(m, table, guard)), m, table, newRow, guard)
  {
  }

  /**
   * MySQL's upsert, guarded where the condition names rows, with `key` the generated key its header reports, if it
   * reports one: not `ok` where the condition is refused, or reads two
   * columns its update sets.
   */
  method UpsertMysql(
    ctx: SqlQueryContext, newRow: Option<string>, table: string, key: Option<string>, rows: seq<Cells>,
    entries: seq<Upserts.Entry>,
    where: seq<Clause>) returns (ok: bool)
    requires ctx.Valid()
    modifies ctx`sqlChunks, ctx.params, ctx.Root()`tableAliases
    ensures var update := Upserts.FoundRowUpdate(entries, where);
            && ok == (update.Listed? && (update.entries == [] || Unrefused(ctx.dialect, GuardIn(update))))
            && (ok ==>
                  var m := ctx.TheMode();
                  var f := MysqlText(newRow, RowsOf(m, rows), HeaderOf(table, key, rows),
                                     MysqlList(m, newRow, table, GuardIn(update), update.entries),
                                     |old(ctx.params.values)|,
                                     old(ctx.Root().tableAliases));
                  && ctx.Sql() == old(ctx.Sql()) + f.text
                  && ctx.params.values == old(ctx.params.values) + f.values
                  && ctx.Root().tableAliases == f.taken)
  {
    var update := Upserts.FoundRowUpdate(entries, where);
    if update.Refused? {
      return false;
    }
    var guard := GuardIn(update);
    ghost var m := ctx.TheMode();
    ghost var assign := AssigningOf(m, table, newRow, GuardOf(m, table, guard));
    WaysAgree(m, newRow, table, rows, guard);
    ok := AppendUpsert(ctx, newRow, table, key, rows, guard, update.entries, assign, ListOf(assign, update.entries),
                       RowsOf(m, rows));
  }

  /** The guard each assignment of MySQL's list holds, none where its condition names no rows. */
  function GuardIn(update: Upserts.MysqlUpdate): Option<Where> {
    if update.Listed? && update.guard != [] then Some(Where(update.guard)) else None
  }
}
