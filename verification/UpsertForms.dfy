/** What the upserts leave of a row they find, read off the text they write, and exactly when they leave the same. */
module UpsertForms {
  import opened Options
  import opened Ternary
  import opened Values
  import opened SqlText
  import opened SqlShapes
  import opened Filters
  import opened FieldsRead
  import opened NamedRows
  import opened WhereText
  import opened PredicateReading
  import opened WhereTheorem
  import opened NegatedNothing
  import opened UpsertText
  import opened Sequences
  import U = Upserts

  // ----- a condition, read -----

  /** `text` reads as one condition before `end`, none of it left over and none of `end` taken. */
  predicate ReadsUpTo(text: Tokens, end: Tokens) {
    ParseOr(text + end).Read? && ParseOr(text + end).rest == end
  }

  /** What ends a condition in a statement: nothing, or a word that is no part of one. */
  predicate IsEnd(end: Tokens) {
    end == [] || end[0].Word?
  }

  lemma HoleNeverReadsUpTo(text: Tokens, end: Tokens)
    requires HasHole(text)
    ensures !ReadsUpTo(text, end)
  {
    if ReadsUpTo(text, end) {
      OrTook(text + end);
      AfterHead(text, end);
      assert false;
    }
  }

  /** Values enough for a fragment's placeholders to read their own. */
  function Padded(n: nat, values: seq<Value>): (bound: seq<Value>)
    ensures Holds(bound, n, values)
  {
    seq(n, i => Null) + values
  }

  /** A condition is read as it is meant, wherever it stands as an operand. */
  lemma OperandReads(
    m: Mode, w: World, table: string, where: Where, n: nat, taken: set<string>, bound: seq<Value>, end: Tokens)
    requires m.dialect == w.dialect && !ClausesRefused(m.dialect, where.clauses) && !ClausesNegateNothing(where.clauses)
    requires Holds(bound, n, WhereFragment(m, table, true, Bare, where, n, taken).values)
    requires WhereFragment(m, table, true, Bare, where, n, taken).text != [] && IsEnd(end)
    ensures var text := WhereFragment(m, table, true, Bare, where, n, taken).text;
            ReadsUpTo(text, end)
            && forall scope :: WhereMeaning(w, RowAt(scope, table), where)
                               == Condition(Eval(w, bound, scope, ParseOr(text + end).value))
  {
    var text := WhereFragment(m, table, true, Bare, where, n, taken).text;
    var cs := WhereReads(m, w, table, true, where, n, taken, bound);
    assert Fits(true, Kept(text)[0], cs[0]);
    FactorFits(false, text, cs[0]);
    forall scope ensures WhereMeaning(w, RowAt(scope, table), where) == Condition(Eval(w, bound, scope, cs[0])) {
      assert Evals(w, bound, scope, cs) == [Eval(w, bound, scope, cs[0])];
    }
  }

  /**
   * An upsert's condition reads as one exactly where something it holds is written and no field's `$not` in it is of an
   * empty map. Written nowhere at all, it leaves `CASE WHEN THEN`.
   */
  lemma ConditionReadsExactlyWhere(m: Mode, table: string, where: Where, n: nat, taken: set<string>, end: Tokens)
    requires !ClausesRefused(m.dialect, where.clauses) && IsEnd(end)
    ensures ReadsUpTo(WhereFragment(m, table, true, Bare, where, n, taken).text, end)
            <==> Emitting(Leaves(where.clauses)) && !ClausesNegateNothing(where.clauses)
  {
    var f := WhereFragment(m, table, true, Bare, where, n, taken);
    WhereEmits(m, table, true, Bare, where, n, taken);
    if f.text == [] {
      NothingBefore(end);
    } else if ClausesNegateNothing(where.clauses) {
      WhereHole(m, table, true, Bare, where, n, taken);
      HoleNeverReadsUpTo(f.text, end);
    } else {
      OperandReads(m, U.EmptyWorld(m.dialect), table, where, n, taken, Padded(n, f.values), end);
    }
  }

  // ----- what a list leaves -----

  /** What is bound and named where a stretch of a statement comes to stand, and all that the statement binds. */
  datatype Place = Place(n: nat, taken: set<string>, bound: seq<Value>)

  function ScopeOf(table: string, row: Row): Scope {
    map[CaseFolded(table) := row]
  }

  /** What follows the guard of an assignment in its text. */
  function AfterGuard(table: string, column: string, v: Tokens): Tokens {
    [Word("THEN")] + v + [Word("ELSE"), Column(table, column), Word("END")]
  }

  /** The truth of a condition over a row, or none where its text does not read as one. */
  ghost function TruthOf(w: World, bound: seq<Value>, table: string, row: Row, text: Tokens, end: Tokens): Option<Tri> {
    if ReadsUpTo(text, end) then Some(Eval(w, bound, ScopeOf(table, row), ParseOr(text + end).value)) else None
  }

  /**
   * The row MySQL's list leaves, each assignment's guard read off the text it is written in: none where one does not
   * read, as the statement then runs not at all.
   */
  ghost function RunText(
    m: Mode, w: World, engine: U.Engine, table: string, newRow: Option<string>, entries: seq<U.Entry>, guard: Where,
    row: Row, incoming: Row, at: Place): Option<Row>
    decreases |entries|
  {
    if entries == [] then Some(row)
    else
      var e := entries[0];
      var g := WhereFragment(m, table, true, Bare, guard, at.n, at.taken);
      var v := AssignedText(m, table, newRow, e, at.n + |g.values|);
      var truth := TruthOf(w, at.bound, table, row, g.text, AfterGuard(table, e.column, v.text));
      if truth.None? then None
      else
        var left := if truth.value == True then U.AssignedValue(engine, e, row, incoming) else ColumnOf(row, e.column);
        RunText(m, w, engine, table, newRow, entries[1..], guard, row[e.column := left], incoming,
                Place(at.n + |g.values| + |v.values|, g.taken, at.bound))
  }

  /** The guard is what is read of an assignment: its text is the guard's, and what follows it. */
  lemma GuardStands(
    m: Mode, table: string, newRow: Option<string>, guard: Where, e: U.Entry, n: nat, taken: set<string>)
    ensures var g := WhereFragment(m, table, true, Bare, guard, n, taken);
            var v := AssignedText(m, table, newRow, e, n + |g.values|);
            AssignmentText(m, table, newRow, GuardOf(m, table, Some(guard)), e, n, taken)
              == Fragment([Word(e.column), Symbol(Eq), Word("CASE WHEN")]
                          + (g.text + AfterGuard(table, e.column, v.text)),
                          g.values + v.values, g.taken)
  {
    hide WhereFragment, AssignedText;
    var g := WhereFragment(m, table, true, Bare, guard, n, taken);
    var v := AssignedText(m, table, newRow, e, n + |g.values|);
    var a := [Word(e.column), Symbol(Eq), Word("CASE WHEN")];
    var z := [Word("ELSE"), Column(table, e.column), Word("END")];
    Regroup([Word("THEN")], v.text, z);
    RegroupAll(a + g.text, [Word("THEN")], v.text, z);
    Regroup(a, g.text, AfterGuard(table, e.column, v.text));
  }

  lemma GuardTakes(
    m: Mode, w: World, table: string, guard: Where, row: Row, at: Place, end: Tokens)
    requires m.dialect == w.dialect && !ClausesRefused(m.dialect, guard.clauses) && IsEnd(end)
    requires Holds(at.bound, at.n, WhereFragment(m, table, true, Bare, guard, at.n, at.taken).values)
    ensures var truth := TruthOf(w, at.bound, table, row, WhereFragment(m, table, true, Bare, guard, at.n,
        at.taken).text, end);
            && (truth.Some? <==> Emitting(Leaves(guard.clauses)) && !ClausesNegateNothing(guard.clauses))
            && (truth.Some? ==> (truth.value == True <==> U.Takes(w, row, guard.clauses)))
  {
    hide WhereFragment;
    ConditionReadsExactlyWhere(m, table, guard, at.n, at.taken, end);
    if Emitting(Leaves(guard.clauses)) && !ClausesNegateNothing(guard.clauses) {
      WhereEmits(m, table, true, Bare, guard, at.n, at.taken);
      OperandReads(m, w, table, guard, at.n, at.taken, at.bound, end);
      assert RowAt(ScopeOf(table, row), table) == row;
      assert Where(guard.clauses) == guard;
    }
  }

  lemma ListUnfolds(assign: Assigning, entries: seq<U.Entry>, first: bool, n: nat, taken: set<string>)
    requires entries != []
    ensures var a := assign(entries[0], n, taken);
            AssignmentsText(assign, entries, first, n, taken).values
              == a.values + AssignmentsText(assign, entries[1..], false, n + |a.values|, a.taken).values
  {
  }

  /** MySQL's guarded list leaves what its guard's meaning says, if it reads, or nothing reads and nothing is run. */
  lemma {:induction false} GuardedRun(
    m: Mode, w: World, engine: U.Engine, table: string, newRow: Option<string>, entries: seq<U.Entry>, guard: Where,
    row: Row, incoming: Row, first: bool, at: Place)
    requires m.dialect == w.dialect && !ClausesRefused(m.dialect, guard.clauses)
    requires var assign := AssigningOf(m, table, newRow, GuardOf(m, table, Some(guard)));
             Holds(at.bound, at.n, AssignmentsText(assign, entries, first, at.n, at.taken).values)
    ensures RunText(m, w, engine, table, newRow, entries, guard, row, incoming, at)
         == if entries == [] || (Emitting(Leaves(guard.clauses)) && !ClausesNegateNothing(guard.clauses))
            then Some(U.RunGuarded(w, engine, entries, guard.clauses, row, incoming)) else None
    decreases |entries|
  {
    hide WhereFragment, AssignedText, AssignmentText, AssignmentsText, TruthOf, U.AssignedValue, U.Takes;
    if entries != [] {
      var e := entries[0];
      var assign := AssigningOf(m, table, newRow, GuardOf(m, table, Some(guard)));
      var g := WhereFragment(m, table, true, Bare, guard, at.n, at.taken);
      var v := AssignedText(m, table, newRow, e, at.n + |g.values|);
      var a := assign(e, at.n, at.taken);
      GuardStands(m, table, newRow, guard, e, at.n, at.taken);
      ListUnfolds(assign, entries, first, at.n, at.taken);
      HoldsSplits(at.bound, at.n, a.values, AssignmentsText(assign, entries[1..], false, at.n + |a.values|,
                                                            a.taken).values);
      HoldsSplits(at.bound, at.n, g.values, v.values);
      GuardTakes(m, w, table, guard, row, at, AfterGuard(table, e.column, v.text));
      var left := if U.Takes(w, row, guard.clauses) then U.AssignedValue(engine, e, row, incoming)
        else ColumnOf(row, e.column);
      GuardedRun(m, w, engine, table, newRow, entries[1..], guard, row[e.column := left], incoming, false,
                 Place(at.n + |g.values| + |v.values|, g.taken, at.bound));
    }
  }

  // ----- the two forms -----

  /** An upsert's update: how and into what it is written, and what follows the condition of a form that has one. */
  datatype Upsert = Upsert(
    m: Mode, table: string, newRow: Option<string>, entries: seq<U.Entry>, where: seq<Clause>, end: Tokens)

  /** One that is written: no operator of its condition is refused, nor its list, and it sets no column twice. */
  ghost predicate IsSent(u: Upsert, w: World) {
    && u.m.dialect == w.dialect && !ClausesRefused(u.m.dialect, u.where) && IsEnd(u.end)
    && U.Distinct(u.entries) && U.FoundRowUpdate(u.entries, u.where).Listed?
  }

  function TheList(u: Upsert): U.MysqlUpdate {
    U.FoundRowUpdate(u.entries, u.where)
  }

  ghost predicate ListBinds(u: Upsert, at: Place) {
    var assign := AssigningOf(u.m, u.table, u.newRow, GuardOf(u.m, u.table, GuardIn(TheList(u))));
    TheList(u).Listed? ==> Holds(at.bound, at.n, AssignmentsText(assign, TheList(u).entries, true, at.n,
                                                                 at.taken).values)
  }

  /** The row MySQL's statement leaves of `found`, or none where what it is sent does not read. */
  ghost function MysqlLeaves(u: Upsert, w: World, engine: U.Engine, found: Row, incoming: Row, at: Place): Option<Row>
    requires TheList(u).Listed?
  {
    if TheList(u).guard == [] then Some(U.RunGuarded(w, engine, TheList(u).entries, [], found, incoming))
    else RunText(u.m, w, engine, u.table, u.newRow, TheList(u).entries, Where(TheList(u).guard), found, incoming, at)
  }

  function ConditionOf(u: Upsert, at: Place): Fragment {
    WhereFragment(u.m, u.table, true, Bare, Where(u.where), at.n, at.taken)
  }

  ghost predicate ConditionBinds(u: Upsert, at: Place) {
    Holds(at.bound, at.n, ConditionOf(u, at).values)
  }

  /** The row a form with a condition of its own leaves: no condition is written where it has no text. */
  ghost function ConflictLeaves(
    u: Upsert, w: World, engine: U.Engine, found: Row, incoming: Row, at: Place): Option<Row> {
    var text := ConditionOf(u, at).text;
    if u.entries == [] then Some(found)
    else if text == [] then Some(U.SetAll(engine, u.entries, found, incoming))
    else
      var truth := TruthOf(w, at.bound, u.table, found, text, u.end);
      if truth.None? then None
      else Some(if truth.value == True then U.SetAll(engine, u.entries, found, incoming) else found)
  }

  /** Both rows are the same, or neither statement is run. */
  ghost predicate SameOutcome(a: Option<Row>, b: Option<Row>) {
    (a.Some? <==> b.Some?) && (a.Some? ==> U.SameRow(a.value, b.value))
  }

  /** The forms do the same to every row found, for every engine and row inserted, wherever each comes to stand. */
  ghost predicate FormsAgree(u: Upsert, w: World)
    requires IsSent(u, w)
  {
    forall engine, found, incoming, a, b | ListBinds(u, a) && ConditionBinds(u, b) ::
      SameOutcome(MysqlLeaves(u, w, engine, found, incoming, a), ConflictLeaves(u, w, engine, found, incoming, b))
  }

  /** The condition is written, and reads. */
  predicate IsReadable(where: seq<Clause>) {
    Emitting(Leaves(where)) && !ClausesNegateNothing(where)
  }

  lemma MysqlRuns(u: Upsert, w: World, engine: U.Engine, found: Row, incoming: Row, at: Place)
    requires IsSent(u, w) && ListBinds(u, at)
    ensures MysqlLeaves(u, w, engine, found, incoming, at)
         == if u.entries == [] || !NamesRows(u.where) || IsReadable(u.where)
            then Some(U.RunGuarded(w, engine, TheList(u).entries, TheList(u).guard, found, incoming)) else None
  {
    hide RunText, AssignmentsText, U.RunGuarded;
    U.ListIsSafe(u.entries, u.where);
    U.EmptyTogether(TheList(u).entries, u.entries);
    if NamesRows(u.where) {
      GuardedRun(u.m, w, engine, u.table, u.newRow, TheList(u).entries, Where(u.where), found, incoming, true, at);
    }
  }

  lemma ConflictRuns(u: Upsert, w: World, engine: U.Engine, found: Row, incoming: Row, at: Place)
    requires IsSent(u, w) && ConditionBinds(u, at)
    ensures ConflictLeaves(u, w, engine, found, incoming, at)
         == if u.entries == [] then Some(found)
            else if Emitting(Leaves(u.where)) && ClausesNegateNothing(u.where) then None
            else Some(U.UpdateWhere(w, engine, u.entries, u.where, found, incoming))
  {
    hide WhereFragment, TruthOf, U.SetAll;
    WhereEmits(u.m, u.table, true, Bare, Where(u.where), at.n, at.taken);
    GuardTakes(u.m, w, u.table, Where(u.where), found, at, u.end);
    U.TermsByLeaf(w, found, u.where);
  }

  /** There is somewhere for each form to stand. */
  lemma SomewhereBinds(u: Upsert) returns (a: Place, b: Place)
    ensures ListBinds(u, a) && ConditionBinds(u, b)
  {
    hide AssignmentsText, WhereFragment;
    var assign := AssigningOf(u.m, u.table, u.newRow, GuardOf(u.m, u.table, GuardIn(TheList(u))));
    a := Place(0, {}, []);
    if TheList(u).Listed? {
      a := Place(0, {}, Padded(0, AssignmentsText(assign, TheList(u).entries, true, 0, {}).values));
    }
    b := Place(0, {}, Padded(0, WhereFragment(u.m, u.table, true, Bare, Where(u.where), 0, {}).values));
  }

  /** A field's `$not` of an empty map is a condition named. */
  lemma {:induction false} NegatesNamed(cs: seq<Clause>)
    requires ClausesNegateNothing(cs)
    ensures Predicate in Leaves(cs)
    decreases cs, 0
  {
    if ClauseNegatesNothing(cs[0]) {
      match cs[0]
      case Group(_, items) => ItemsNegateNamed(items);
      case Field(_, val) => assert OpsNegateNothing(val.ops);
      case Json(_, _, val) => assert OpsNegateNothing(val.ops);
      case Related(_, _, where) => assert ClausesNegateNothing(where.clauses);
    } else {
      NegatesNamed(cs[1..]);
    }
  }

  lemma {:induction false} ItemsNegateNamed(items: seq<Item>)
    requires ItemsNegateNothing(items)
    ensures Predicate in ItemsLeaves(items)
    decreases items, 0
  {
    if ItemNegatesNothing(items[0]) {
      ItemNegatesNamed(items[0]);
    } else {
      ItemsNegateNamed(items[1..]);
    }
  }

  lemma {:induction false} ItemNegatesNamed(item: Item)
    requires ItemNegatesNothing(item)
    ensures Predicate in ItemLeaves(item)
    decreases item, 0
  {
    NegatesNamed(item.where.clauses);
  }

  /** Where both forms run, they agree as their rows do. */
  lemma BothRun(u: Upsert, w: World)
    requires IsSent(u, w) && u.entries != [] && !ClausesNegateNothing(u.where)
             && (NamesRows(u.where) ==> IsReadable(u.where))
    ensures FormsAgree(u, w) <==> U.Simultaneous(w, u.entries, u.where)
  {
    hide MysqlLeaves, ConflictLeaves, U.RunGuarded, U.UpdateWhere;
    if U.Simultaneous(w, u.entries, u.where) {
      forall engine, found, incoming, a, b | ListBinds(u, a) && ConditionBinds(u, b)
        ensures SameOutcome(MysqlLeaves(u, w, engine, found, incoming, a),
                            ConflictLeaves(u, w, engine, found, incoming, b))
      {
        MysqlRuns(u, w, engine, found, incoming, a);
        ConflictRuns(u, w, engine, found, incoming, b);
      }
    } else {
      var engine, found, incoming :|
        !U.SameRow(U.RunGuarded(w, engine, TheList(u).entries, TheList(u).guard, found, incoming),
                   U.UpdateWhere(w, engine, u.entries, u.where, found, incoming));
      var a, b := SomewhereBinds(u);
      MysqlRuns(u, w, engine, found, incoming, a);
      ConflictRuns(u, w, engine, found, incoming, b);
    }
  }

  /** With nothing to set, a row found is skipped by both; where neither reads, both are. */
  lemma NeitherRuns(u: Upsert, w: World)
    requires IsSent(u, w) && (u.entries == [] || (NamesRows(u.where) && Emitting(Leaves(u.where))
                                                  && !IsReadable(u.where)))
    ensures FormsAgree(u, w)
  {
    hide MysqlLeaves, ConflictLeaves, U.UpdateWhere;
    U.ListIsSafe(u.entries, u.where);
    U.EmptyTogether(TheList(u).entries, u.entries);
    forall engine, found, incoming, a, b | ListBinds(u, a) && ConditionBinds(u, b)
      ensures SameOutcome(MysqlLeaves(u, w, engine, found, incoming, a),
                          ConflictLeaves(u, w, engine, found, incoming, b))
    {
      MysqlRuns(u, w, engine, found, incoming, a);
      ConflictRuns(u, w, engine, found, incoming, b);
    }
  }

  /** A guard with no text leaves a `CASE WHEN` of nothing, where the other form is written without a condition. */
  lemma BlankGuardDiffers(u: Upsert, w: World)
    requires IsSent(u, w) && u.entries != [] && NamesRows(u.where) && !Emitting(Leaves(u.where))
    ensures !FormsAgree(u, w)
  {
    hide MysqlLeaves, ConflictLeaves, U.RunGuarded, U.UpdateWhere;
    var a, b := SomewhereBinds(u);
    var engine := U.Answering(Null);
    MysqlRuns(u, w, engine, map[], map[], a);
    ConflictRuns(u, w, engine, map[], map[], b);
  }

  /**
   * MySQL's statement and one with a condition of its own, each read off its text,
   do the same to every row found exactly
   * where there is nothing to set, or:
   * - the condition names rows, it is written, and it does not read, in either; or no entry reads a column one listed
   *   before it sets; or no row at all meets it;
   * - or it names none, no entry reads a column one before it sets,
   and a row it does not take holds what every entry sets.
   */
  lemma FormsAgreeExactly(u: Upsert, w: World)
    requires IsSent(u, w)
    ensures FormsAgree(u, w) <==>
            || u.entries == []
            || if NamesRows(u.where) then
                 && Emitting(Leaves(u.where))
                 && (|| ClausesNegateNothing(u.where)
                     || U.ReadsAsFound(TheList(u).entries)
                     || !U.SomeRowTakes(w, u.where))
               else U.ReadsAsFound(u.entries) && U.UntakenHold(w, u.entries, u.where)
  {
    hide FormsAgree, U.Simultaneous, U.ReadsAsFound, U.UntakenHold, U.SomeRowTakes;
    NamesByLeaf(u.where);
    if ClausesNegateNothing(u.where) {
      NegatesNamed(u.where);
    }
    if u.entries == [] || (NamesRows(u.where) && Emitting(Leaves(u.where)) && !IsReadable(u.where)) {
      NeitherRuns(u, w);
    } else if NamesRows(u.where) && !Emitting(Leaves(u.where)) {
      BlankGuardDiffers(u, w);
    } else {
      BothRun(u, w);
      U.SimultaneousExactly(w, u.entries, u.where);
    }
  }

  /**
   * So they do where the condition names rows and reads, and each value reads only its own column or the row inserted.
   */
  lemma MysqlIsSimultaneous(u: Upsert, w: World)
    requires IsSent(u, w) && NamesRows(u.where) && IsReadable(u.where) && U.ReadThemselves(u.entries)
    ensures FormsAgree(u, w)
  {
    hide FormsAgree;
    U.ListIsSafe(u.entries, u.where);
    FormsAgreeExactly(u, w);
  }

  /**
   * A condition of SQL with no text names rows and is written nowhere: MySQL is sent `a = CASE WHEN THEN`,
   which does not
   * read, and `ON CONFLICT` goes without its `WHERE` and sets the row.
   */
  lemma BlankSqlIsMalformed(
    m: Mode, w: World, engine: U.Engine, table: string, newRow: Option<string>, v: Value, found: Row, incoming: Row,
    a: Place, b: Place)
    requires m.dialect == w.dialect
    ensures var e := U.Entry("a", U.Constant(v));
            var u := Upsert(m, table, newRow, [e], [Group(AndGroup, [RawItem(RawSql("", []))])], []);
            && IsSent(u, w) && TheList(u) == U.Listed([e], u.where)
            && AssignmentText(m, table, newRow, GuardOf(m, table, Some(Where(u.where))), e, a.n, a.taken).text
               == [Word("a"), Symbol(Eq), Word("CASE WHEN")] + AfterGuard(table, "a",
                   ValueText(m, table, Given(v), a.n).text)
            && MysqlLeaves(u, w, engine, found, incoming, a) == None
            && ConflictLeaves(u, w, engine, found, incoming, b) == Some(found["a" := v])
            && !FormsAgree(u, w)
  {
    hide WhereFragment, FormsAgree, TruthOf, U.SetAll, Leaves, ClausesRefused, RunText, AfterGuard;
    var e := U.Entry("a", U.Constant(v));
    var blank := RawItem(RawSql("", []));
    var where := [Group(AndGroup, [blank])];
    var u := Upsert(m, table, newRow, [e], where, []);
    BlankIsNamed(m.dialect, where, blank);
    OneEntry(e, where);
    BlankText(m, table, where, blank, a.n, a.taken);
    BlankText(m, table, where, blank, b.n, b.taken);
    GuardStands(m, table, newRow, Where(where), e, a.n, a.taken);
    UnreadRuns(m, w, engine, table, newRow, [e], Where(where), found, incoming, a);
    SetsOne(engine, e, found, incoming);
    BlankGuardDiffers(u, w);
  }

  /** A guard that is written nowhere is read nowhere. */
  lemma UnreadRuns(
    m: Mode, w: World, engine: U.Engine, table: string, newRow: Option<string>, entries: seq<U.Entry>, guard: Where,
    row: Row, incoming: Row, at: Place)
    requires entries != [] && !ClausesRefused(m.dialect, guard.clauses) && !Emitting(Leaves(guard.clauses))
    ensures RunText(m, w, engine, table, newRow, entries, guard, row, incoming, at) == None
  {
    hide WhereFragment, AssignedText, Leaves, ClausesRefused;
    var g := WhereFragment(m, table, true, Bare, guard, at.n, at.taken);
    var v := AssignedText(m, table, newRow, entries[0], at.n + |g.values|);
    ConditionReadsExactlyWhere(m, table, guard, at.n, at.taken, AfterGuard(table, entries[0].column, v.text));
  }

  lemma BlankIsNamed(d: Dialect, where: seq<Clause>, blank: Item)
    requires blank == RawItem(RawSql("", [])) && where == [Group(AndGroup, [blank])]
    ensures NamesRows(where) && !Emitting(Leaves(where)) && FieldsOf(where).Unshown? && !ClausesRefused(d, where)
  {
    var items := [blank];
    assert where[1..] == [] && items[1..] == [];
    assert ItemsName(items) && ItemsLeaves(items) == {BlankSql} && ItemsColumns(items) == Unshown
           && !ItemsRefused(d, items);
    assert ClauseNames(where[0]) && ClauseColumns(where[0]) == Unshown && ClauseLeaves(where[0]) == {BlankSql};
    assert Leaves(where) == {BlankSql} + Leaves(where[1..]);
    assert !ClauseRefused(d, where[0]);
  }

  lemma BlankText(m: Mode, table: string, where: seq<Clause>, blank: Item, n: nat, taken: set<string>)
    requires blank == RawItem(RawSql("", [])) && where == [Group(AndGroup, [blank])]
    ensures WhereFragment(m, table, true, Bare, Where(where), n, taken) == Fragment([], [], taken)
  {
    assert where[1..] == [] && [blank][1..] == [];
    assert ItemParts(m, table, true, [blank], n, taken) == Fragments([], [], taken);
    assert ClauseParts(m, table, true, where, n, taken) == Fragments([], [], taken);
  }

  lemma OneEntry(e: U.Entry, where: seq<Clause>)
    requires NamesRows(where) && FieldsOf(where).Unshown?
    ensures U.FoundRowUpdate([e], where) == U.Listed([e], where)
  {
    U.AllMayBeRead([e]);
  }

  lemma SetsOne(engine: U.Engine, e: U.Entry, found: Row, incoming: Row)
    ensures U.SetAll(engine, [e], found, incoming) == found[e.column := U.AssignedValue(engine, e, found, incoming)]
  {
    assert [e][..0] == [];
  }
}
