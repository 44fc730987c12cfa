/** Grouped queries whose aggregates each have a filter of their own, written as `CASE WHEN` in a derived table. */
module Aggregates {
  import opened Options
  import opened Ternary
  import opened Values
  import opened SqlText
  import opened Filters
  import opened WhereText
  import opened PredicateReading
  import opened WhereTheorem
  import opened Grouping
  import opened QueryContexts
  import opened Sequences
  import opened WhereWriter

  /** What an entry reads of a row: a column of one of its tables, or the expression an inlined field stands for. */
  datatype Source = Col(table: string, column: string) | Inlined(sql: string)

  /** A group's key, or an aggregate of a field, or of the rows, narrowed by a `$where` of its own. */
  datatype Entry =
    | Key(alias: string, source: Source)
    | Fn(alias: string, op: AggregateOp, distinct: bool, field: Option<Source>, where: Option<Where>)

  /** What an engine makes of an expression, and of the values an aggregate reads. */
  datatype Engine = Engine(inlined: (string, Scope) -> Value, reduce: (AggregateOp, seq<Value>) -> Value)

  /** `*` is taken as a plain count alone, as the parser of a group's entries sees to. */
  predicate TakesStar(entries: seq<Entry>) {
    forall i :: 0 <= i < |entries| && entries[i].Fn? && entries[i].field.None? ==>
      entries[i].op.Count? && !entries[i].distinct
  }

  predicate DistinctAliases(entries: seq<Entry>) {
    forall i, j :: 0 <= i < j < |entries| ==> entries[i].alias != entries[j].alias
  }

  function SourceValue(engine: Engine, scope: Scope, source: Source): Value {
    match source
    case Col(table, column) => ColumnOf(RowAt(scope, table), column)
    case Inlined(sql) => engine.inlined(sql, scope)
  }

  predicate HasKey(entries: seq<Entry>) {
    exists i :: 0 <= i < |entries| && entries[i].Key?
  }

  // ----- what is asked -----

  /** Whether a row is one a filter lets through: any is where it names no condition, and else one it is true of. */
  ghost predicate Meets(w: World, table: string, scope: Scope, where: Option<Where>) {
    where.Some? ==>
      var m := WhereMeaning(w, RowAt(scope, table), where.value);
      m.NoCondition? || m.truth == True
  }

  /** The rows of a group one aggregate reads. */
  ghost function Meeting(w: World, table: string, where: Option<Where>, group: seq<Scope>): seq<Scope> {
    if group == [] then []
    else if Meets(w, table, group[0], where) then [group[0]] + Meeting(w, table, where, group[1..])
    else Meeting(w, table, where, group[1..])
  }

  function SourceValues(engine: Engine, source: Source, group: seq<Scope>): seq<Value> {
    if group == [] then [] else [SourceValue(engine, group[0], source)] + SourceValues(engine, source, group[1..])
  }

  /** An entry of a group: its key, or its aggregate over the rows its own filter lets through. */
  ghost function Asked(w: World, engine: Engine, table: string, e: Entry, group: seq<Scope>): Value {
    match e
    case Key(_, source) => if group == [] then Null else SourceValue(engine, group[0], source)
    case Fn(_, op, distinct, field, where) =>
      var rows := Meeting(w, table, where, group);
      if field.None? then Num(|rows|) else Aggregated(engine.reduce, op, distinct,
                                                      SourceValues(engine, field.value, rows))
  }

  ghost function AskedOf(w: World, engine: Engine, table: string, entries: seq<Entry>, group: seq<Scope>): seq<Value> {
    seq(|entries|, i requires 0 <= i < |entries| => Asked(w, engine, table, entries[i], group))
  }

  function KeyValues(engine: Engine, entries: seq<Entry>, scope: Scope): seq<Value> {
    if entries == [] then []
    else
      var rest := KeyValues(engine, entries[1..], scope);
      if entries[0].Key? then [SourceValue(engine, scope, entries[0].source)] + rest else rest
  }

  function KeyOf(engine: Engine, entries: seq<Entry>): Scope -> seq<Value> {
    scope => KeyValues(engine, entries, scope)
  }

  /** What a grouped query asks of the rows its own `$where` leaves: a row for each group. */
  ghost function AskedOfEach(w: World, engine: Engine, table: string, entries: seq<Entry>, groups: seq<seq<Scope>>)
    : seq<seq<Value>>
  {
    if groups == [] then []
    else [AskedOf(w, engine, table, entries, groups[0])] + AskedOfEach(w, engine, table, entries, groups[1..])
  }

  // ----- the SQL -----

  /** What one entry reads, as it is written. */
  datatype Read = Star | Plain(source: Source) | Cased(condition: Tokens, then': Option<Source>)

  /** What is read where it stands: a column, or `*`. */
  predicate IsBare(read: Read) {
    read.Star? || (read.Plain? && read.source.Col?)
  }

  datatype Reading = Reading(read: Read, values: seq<Value>, taken: set<string>)

  function AggregateValue(m: Mode, table: string, e: Entry, n: nat, taken: set<string>): Reading {
    match e
    case Key(_, source) => Reading(Plain(source), [], taken)
    case Fn(_, _, _, field, where) =>
      var f := if where.Some? then WhereFragment(m, table, false, Bare, where.value, n, taken)
        else Fragment([], [], taken);
      var read :=
        if f.text == [] then (if field.Some? then Plain(field.value) else Star) else Cased(f.text, field);
      Reading(read, f.values, f.taken)
  }

  datatype Readings = Readings(columns: seq<Read>, values: seq<Value>, taken: set<string>)

  function AggregateValues(m: Mode, table: string, entries: seq<Entry>, n: nat, taken: set<string>): Readings
    decreases |entries|
  {
    if entries == [] then Readings([], [], taken)
    else
      var first := AggregateValue(m, table, entries[0], n, taken);
      var rest := AggregateValues(m, table, entries[1..], n + |first.values|, first.taken);
      Readings([first.read] + rest.columns, first.values + rest.values, rest.taken)
  }

  /** Whether the reads are named in a derived table, which one that is not bare asks for. */
  predicate IsDerived(columns: seq<Read>) {
    exists i :: 0 <= i < |columns| && !IsBare(columns[i])
  }

  /** `CASE WHEN condition`, the condition read off its text. */
  ghost predicate Met(w: World, bound: seq<Value>, scope: Scope, condition: Tokens) {
    ReadsAs(w, bound, scope, condition, True)
  }

  ghost function ReadValue(w: World, engine: Engine, bound: seq<Value>, scope: Scope, read: Read): Value {
    match read
    case Star => Num(1)
    case Plain(source) => SourceValue(engine, scope, source)
    case Cased(condition, then') =>
      if !Met(w, bound, scope, condition) then Null
      else if then'.Some? then SourceValue(engine, scope, then'.value)
      else Num(1)
  }

  ghost function ReadValues(w: World, engine: Engine, bound: seq<Value>, read: Read, group: seq<Scope>): seq<Value> {
    if group == [] then []
    else [ReadValue(w, engine, bound, group[0], read)] + ReadValues(w, engine, bound, read, group[1..])
  }

  /** An entry of a group whose aggregates read its rows where they stand. */
  ghost function Inline(w: World, engine: Engine, bound: seq<Value>, e: Entry, read: Read, group: seq<Scope>): Value {
    match e
    case Key(_, _) => if group == [] then Null else ReadValue(w, engine, bound, group[0], read)
    case Fn(_, op, distinct, _, _) =>
      if read.Star? then Num(|group|)
      else Aggregated(engine.reduce, op, distinct, ReadValues(w, engine, bound, read, group))
  }

  ghost function InlineOf(
    w: World, engine: Engine, bound: seq<Value>, entries: seq<Entry>, columns: seq<Read>, group: seq<Scope>): seq<Value>
    requires |columns| == |entries|
  {
    seq(|entries|, i requires 0 <= i < |entries| => Inline(w, engine, bound, entries[i], columns[i], group))
  }

  ghost function InlineOfEach(
    w: World, engine: Engine, bound: seq<Value>, entries: seq<Entry>, columns: seq<Read>, groups: seq<seq<Scope>>)
    : seq<seq<Value>>
    requires |columns| == |entries|
  {
    if groups == [] then []
    else [InlineOf(w, engine, bound, entries, columns, groups[0])]
         + InlineOfEach(w, engine, bound, entries, columns, groups[1..])
  }

  /** A row of the derived table: each read under its entry's alias, `*` not among them. */
  ghost function DerivedRow(
    w: World, engine: Engine, bound: seq<Value>, entries: seq<Entry>, columns: seq<Read>, scope: Scope): Row
    requires |columns| == |entries|
    decreases |entries|
  {
    if entries == [] then map[]
    else
      var rest := DerivedRow(w, engine, bound, entries[1..], columns[1..], scope);
      if columns[0].Star? then rest else rest[entries[0].alias := ReadValue(w, engine, bound, scope, columns[0])]
  }

  ghost function DerivedRowOf(w: World, engine: Engine, bound: seq<Value>, entries: seq<Entry>, columns: seq<Read>)
    : Scope -> Row
    requires |columns| == |entries|
  {
    scope => DerivedRow(w, engine, bound, entries, columns, scope)
  }

  function ColumnValues(alias: string, group: seq<Row>): seq<Value> {
    if group == [] then [] else [ColumnOf(group[0], alias)] + ColumnValues(alias, group[1..])
  }

  /** An entry of a group of the derived table's rows, read by its alias. */
  function Derived(engine: Engine, e: Entry, read: Read, group: seq<Row>): Value {
    match e
    case Key(alias, _) => if group == [] then Null else ColumnOf(group[0], alias)
    case Fn(alias, op, distinct, _, _) =>
      if read.Star? then Num(|group|) else Aggregated(engine.reduce, op, distinct, ColumnValues(alias, group))
  }

  function DerivedOf(engine: Engine, entries: seq<Entry>, columns: seq<Read>, group: seq<Row>): seq<Value>
    requires |columns| == |entries|
  {
    seq(|entries|, i requires 0 <= i < |entries| => Derived(engine, entries[i], columns[i], group))
  }

  function DerivedOfEach(
    engine: Engine, entries: seq<Entry>, columns: seq<Read>, groups: seq<seq<Row>>): seq<seq<Value>>
    requires |columns| == |entries|
  {
    if groups == [] then []
    else [DerivedOf(engine, entries, columns, groups[0])] + DerivedOfEach(engine, entries, columns, groups[1..])
  }

  function AliasValues(entries: seq<Entry>, row: Row): seq<Value> {
    if entries == [] then []
    else
      var rest := AliasValues(entries[1..], row);
      if entries[0].Key? then [ColumnOf(row, entries[0].alias)] + rest else rest
  }

  function AliasesOf(entries: seq<Entry>): Row -> seq<Value> {
    row => AliasValues(entries, row)
  }

  /** `SELECT ... FROM rows GROUP BY sources`. */
  ghost function InlineSql(
    w: World, engine: Engine, bound: seq<Value>, entries: seq<Entry>, columns: seq<Read>,
    rows: seq<Scope>): seq<seq<Value>>
    requires |columns| == |entries|
  {
    InlineOfEach(w, engine, bound, entries, columns, GroupedBy(HasKey(entries), KeyOf(engine, entries), rows))
  }

  /** `SELECT ... FROM (SELECT reads FROM rows) GROUP BY aliases`. */
  ghost function DerivedSql(
    w: World, engine: Engine, bound: seq<Value>, entries: seq<Entry>, columns: seq<Read>,
    rows: seq<Scope>): seq<seq<Value>>
    requires |columns| == |entries|
  {
    var derived := Mapped(DerivedRowOf(w, engine, bound, entries, columns), rows);
    DerivedOfEach(engine, entries, columns, GroupedBy(HasKey(entries), AliasesOf(entries), derived))
  }

  ghost function AggregateSql(
    w: World, engine: Engine, bound: seq<Value>, entries: seq<Entry>, columns: seq<Read>,
    rows: seq<Scope>): seq<seq<Value>>
    requires |columns| == |entries|
  {
    if IsDerived(columns) then DerivedSql(w, engine, bound, entries, columns, rows)
    else InlineSql(w, engine, bound, entries, columns, rows)
  }

  // ----- the two forms -----

  /** Each read is of the entry it stands beside: a key reads its field, and `*` is read by none but a count. */
  predicate ReadsMatch(entries: seq<Entry>, columns: seq<Read>) {
    && |columns| == |entries|
    && forall i :: 0 <= i < |entries| && entries[i].Key? ==> columns[i] == Plain(entries[i].source)
  }

  lemma {:induction false} DerivedColumn(
    w: World, engine: Engine, bound: seq<Value>, entries: seq<Entry>, columns: seq<Read>, scope: Scope, i: nat)
    requires |columns| == |entries| && DistinctAliases(entries) && i < |entries| && !columns[i].Star?
    ensures ColumnOf(DerivedRow(w, engine, bound, entries, columns, scope), entries[i].alias)
         == ReadValue(w, engine, bound, scope, columns[i])
    decreases |entries|
  {
    if i > 0 {
      DerivedColumn(w, engine, bound, entries[1..], columns[1..], scope, i - 1);
    }
  }

  lemma {:induction false} DerivedColumns(
    w: World, engine: Engine, bound: seq<Value>, entries: seq<Entry>, columns: seq<Read>, group: seq<Scope>, i: nat)
    requires |columns| == |entries| && DistinctAliases(entries) && i < |entries| && !columns[i].Star?
    ensures ColumnValues(entries[i].alias, Mapped(DerivedRowOf(w, engine, bound, entries, columns), group))
         == ReadValues(w, engine, bound, columns[i], group)
    decreases |group|
  {
    if group != [] {
      var f := DerivedRowOf(w, engine, bound, entries, columns);
      DerivedColumn(w, engine, bound, entries, columns, group[0], i);
      DerivedColumns(w, engine, bound, entries, columns, group[1..], i);
      assert Mapped(f, group)[1..] == Mapped(f, group[1..]);
    }
  }

  lemma DerivedGroup(
    w: World, engine: Engine, bound: seq<Value>, entries: seq<Entry>, columns: seq<Read>, group: seq<Scope>)
    requires ReadsMatch(entries, columns) && DistinctAliases(entries)
    ensures DerivedOf(engine, entries, columns, Mapped(DerivedRowOf(w, engine, bound, entries, columns), group))
         == InlineOf(w, engine, bound, entries, columns, group)
  {
    var derived := Mapped(DerivedRowOf(w, engine, bound, entries, columns), group);
    forall i | 0 <= i < |entries|
      ensures Derived(engine, entries[i], columns[i], derived)
              == Inline(w, engine, bound, entries[i], columns[i], group)
    {
      if !columns[i].Star? {
        DerivedColumns(w, engine, bound, entries, columns, group, i);
        if group != [] {
          DerivedColumn(w, engine, bound, entries, columns, group[0], i);
        }
      }
    }
  }

  lemma {:induction false} DerivedGroups(
    w: World, engine: Engine, bound: seq<Value>, entries: seq<Entry>, columns: seq<Read>, groups: seq<seq<Scope>>)
    requires ReadsMatch(entries, columns) && DistinctAliases(entries)
    ensures DerivedOfEach(engine, entries, columns, MappedEach(DerivedRowOf(w, engine, bound, entries, columns),
                                                               groups))
         == InlineOfEach(w, engine, bound, entries, columns, groups)
    decreases |groups|
  {
    if groups != [] {
      var f := DerivedRowOf(w, engine, bound, entries, columns);
      DerivedGroup(w, engine, bound, entries, columns, groups[0]);
      DerivedGroups(w, engine, bound, entries, columns, groups[1..]);
      assert MappedEach(f, groups)[1..] == MappedEach(f, groups[1..]);
    }
  }

  lemma {:induction false} AliasesAreKeys(engine: Engine, entries: seq<Entry>, row: Row, scope: Scope)
    requires forall i :: 0 <= i < |entries| && entries[i].Key? ==>
               ColumnOf(row, entries[i].alias) == SourceValue(engine, scope, entries[i].source)
    ensures AliasValues(entries, row) == KeyValues(engine, entries, scope)
    decreases |entries|
  {
    if entries != [] {
      AliasesAreKeys(engine, entries[1..], row, scope);
    }
  }

  /** Named in a derived table or read where they stand, the entries are the same of every table. */
  lemma FormsAgree(
    w: World, engine: Engine, bound: seq<Value>, entries: seq<Entry>, columns: seq<Read>, rows: seq<Scope>)
    requires ReadsMatch(entries, columns) && DistinctAliases(entries)
    ensures DerivedSql(w, engine, bound, entries, columns, rows) == InlineSql(w, engine, bound, entries, columns, rows)
  {
    var f, keyOf, keyOf' := DerivedRowOf(w, engine, bound, entries, columns), KeyOf(engine, entries),
    AliasesOf(entries);
    forall scope | scope in rows ensures keyOf'(f(scope)) == keyOf(scope) {
      forall i | 0 <= i < |entries| && entries[i].Key?
        ensures ColumnOf(f(scope), entries[i].alias) == SourceValue(engine, scope, entries[i].source)
      {
        DerivedColumn(w, engine, bound, entries, columns, scope, i);
      }
      AliasesAreKeys(engine, entries, f(scope), scope);
    }
    var groups := GroupedBy(HasKey(entries), keyOf, rows);
    if HasKey(entries) {
      GroupsMapped(f, keyOf, keyOf', rows);
    } else {
      assert groups[1..] == [] && MappedEach(f, groups) == [Mapped(f, rows)];
    }
    DerivedGroups(w, engine, bound, entries, columns, groups);
  }

  // ----- what is answered is what is asked -----

  /**
   * A read is a case exactly where the entry's filter names a condition, and its condition is as true as the filter.
   */
  ghost predicate ReadIsOf(w: World, table: string, bound: seq<Value>, e: Entry, read: Read) {
    match e
    case Key(_, source) => read == Plain(source)
    case Fn(_, _, _, field, where) =>
      match read
      case Star => field.None? && forall scope :: Meets(w, table, scope, where)
      case Plain(source) => field == Some(source) && forall scope :: Meets(w, table, scope, where)
      case Cased(condition, then') =>
        then' == field && forall scope :: Met(w, bound, scope, condition) <==> Meets(w, table, scope, where)
  }

  lemma {:induction false} AllMeet(w: World, table: string, where: Option<Where>, group: seq<Scope>)
    requires forall scope :: Meets(w, table, scope, where)
    ensures Meeting(w, table, where, group) == group
  {
    if group != [] {
      AllMeet(w, table, where, group[1..]);
    }
  }

  lemma {:induction false} PlainValues(
    w: World, engine: Engine, bound: seq<Value>, source: Source, group: seq<Scope>)
    ensures ReadValues(w, engine, bound, Plain(source), group) == SourceValues(engine, source, group)
  {
    if group != [] {
      PlainValues(w, engine, bound, source, group[1..]);
    }
  }

  /** The values a case leaves are those of the rows the filter lets through, NULLs skipped. */
  lemma {:induction false} CasedValues(
    w: World, engine: Engine, table: string, bound: seq<Value>, condition: Tokens, source: Source, where: Option<Where>,
    group: seq<Scope>)
    requires forall scope :: Met(w, bound, scope, condition) <==> Meets(w, table, scope, where)
    ensures NotNull(ReadValues(w, engine, bound, Cased(condition, Some(source)), group))
         == NotNull(SourceValues(engine, source, Meeting(w, table, where, group)))
  {
    if group != [] {
      CasedValues(w, engine, table, bound, condition, source, where, group[1..]);
      var values := ReadValues(w, engine, bound, Cased(condition, Some(source)), group);
      assert values[1..] == ReadValues(w, engine, bound, Cased(condition, Some(source)), group[1..]);
      assert Met(w, bound, group[0], condition) <==> Meets(w, table, group[0], where);
      if Meets(w, table, group[0], where) {
        var rows := Meeting(w, table, where, group);
        assert rows[0] == group[0] && rows[1..] == Meeting(w, table, where, group[1..]);
      }
    }
  }

  /** Counting the ones a case leaves counts the rows the filter lets through. */
  lemma {:induction false} CasedRows(
    w: World, engine: Engine, table: string, bound: seq<Value>, condition: Tokens, where: Option<Where>,
    group: seq<Scope>)
    requires forall scope :: Met(w, bound, scope, condition) <==> Meets(w, table, scope, where)
    ensures |NotNull(ReadValues(w, engine, bound, Cased(condition, None), group))| == |Meeting(w, table, where, group)|
  {
    if group != [] {
      CasedRows(w, engine, table, bound, condition, where, group[1..]);
      var values := ReadValues(w, engine, bound, Cased(condition, None), group);
      assert values[1..] == ReadValues(w, engine, bound, Cased(condition, None), group[1..]);
      assert Met(w, bound, group[0], condition) <==> Meets(w, table, group[0], where);
    }
  }

  lemma InlineIsAsked(
    w: World, engine: Engine, table: string, bound: seq<Value>, e: Entry, read: Read, group: seq<Scope>)
    requires ReadIsOf(w, table, bound, e, read)
    requires e.Fn? && e.field.None? ==> e.op.Count? && !e.distinct
    ensures Inline(w, engine, bound, e, read, group) == Asked(w, engine, table, e, group)
  {
    if e.Fn? {
      match read
      case Star => AllMeet(w, table, e.where, group);
      case Plain(source) =>
        AllMeet(w, table, e.where, group);
        PlainValues(w, engine, bound, source, group);
      case Cased(condition, then') =>
        if then'.Some? {
          CasedValues(w, engine, table, bound, condition, then'.value, e.where, group);
        } else {
          CasedRows(w, engine, table, bound, condition, e.where, group);
        }
    }
  }

  lemma AggregateValueIsOf(
    m: Mode, w: World, table: string, e: Entry, n: nat, taken: set<string>, bound: seq<Value>)
    requires m.dialect == w.dialect && FilterReads(m.dialect, e)
    requires Holds(bound, n, AggregateValue(m, table, e, n, taken).values)
    ensures ReadIsOf(w, table, bound, e, AggregateValue(m, table, e, n, taken).read)
  {
    if e.Fn? && e.where.Some? {
      var where := e.where.value;
      var text := WhereFragment(m, table, false, Bare, where, n, taken).text;
      forall scope ensures text == [] ==> Meets(w, table, scope, e.where)
        ensures text != [] ==> (Met(w, bound, scope, text) <==> Meets(w, table, scope, e.where))
      {
        BareCompiles(m, w, table, where, n, taken, bound, scope);
      }
    }
  }

  /** An entry's filter, if it has one, is one that renders, and whose text reads. */
  predicate FilterReads(dialect: Dialect, e: Entry) {
    e.Fn? && e.where.Some? ==>
      !ClausesRefused(dialect, e.where.value.clauses) && !ClausesNegateNothing(e.where.value.clauses)
  }

  lemma {:induction false} AggregateValuesAreOf(
    m: Mode, w: World, table: string, entries: seq<Entry>, n: nat, taken: set<string>, bound: seq<Value>)
    requires m.dialect == w.dialect && forall i :: 0 <= i < |entries| ==> FilterReads(m.dialect, entries[i])
    requires Holds(bound, n, AggregateValues(m, table, entries, n, taken).values)
    ensures var columns := AggregateValues(m, table, entries, n, taken).columns;
            |columns| == |entries| && forall i :: 0 <= i < |entries| ==> ReadIsOf(w, table, bound, entries[i],
                columns[i])
    decreases |entries|
  {
    hide AggregateValue, ReadIsOf, FilterReads;
    if entries != [] {
      var first := AggregateValue(m, table, entries[0], n, taken);
      var rest := AggregateValues(m, table, entries[1..], n + |first.values|, first.taken);
      HoldsSplits(bound, n, first.values, rest.values);
      AggregateValueIsOf(m, w, table, entries[0], n, taken, bound);
      AggregateValuesAreOf(m, w, table, entries[1..], n + |first.values|, first.taken, bound);
    }
  }

  lemma {:induction false} EachIsAsked(
    w: World, engine: Engine, table: string, bound: seq<Value>, entries: seq<Entry>, columns: seq<Read>,
    groups: seq<seq<Scope>>)
    requires |columns| == |entries| && TakesStar(entries)
    requires forall i :: 0 <= i < |entries| ==> ReadIsOf(w, table, bound, entries[i], columns[i])
    ensures InlineOfEach(w, engine, bound, entries, columns, groups) == AskedOfEach(w, engine, table, entries, groups)
    decreases |groups|
  {
    if groups != [] {
      forall i | 0 <= i < |entries|
        ensures Inline(w, engine, bound, entries[i], columns[i], groups[0])
                == Asked(w, engine, table, entries[i], groups[0])
      {
        InlineIsAsked(w, engine, table, bound, entries[i], columns[i], groups[0]);
      }
      assert InlineOf(w, engine, bound, entries, columns, groups[0]) == AskedOf(w, engine, table, entries, groups[0]);
      EachIsAsked(w, engine, table, bound, entries, columns, groups[1..]);
    }
  }

  /**
   * A grouped query answers, for each group of any rows, each entry's aggregate over the rows that entry's own filter
   * lets through, whether it is written in a derived table, as a filter asks for, or where it stands.
   */
  lemma AggregateMeans(
    m: Mode, w: World, engine: Engine, table: string, entries: seq<Entry>, n: nat, taken: set<string>,
    bound: seq<Value>,
    rows: seq<Scope>)
    requires m.dialect == w.dialect && forall i :: 0 <= i < |entries| ==> FilterReads(m.dialect, entries[i])
    requires TakesStar(entries) && DistinctAliases(entries)
    requires Holds(bound, n, AggregateValues(m, table, entries, n, taken).values)
    ensures var columns := AggregateValues(m, table, entries, n, taken).columns;
            && |columns| == |entries|
            && AggregateSql(w, engine, bound, entries, columns, rows)
               == AskedOfEach(w, engine, table, entries, GroupedBy(HasKey(entries), KeyOf(engine, entries), rows))
  {
    var columns := AggregateValues(m, table, entries, n, taken).columns;
    AggregateValuesAreOf(m, w, table, entries, n, taken, bound);
    FormsAgree(w, engine, bound, entries, columns, rows);
    EachIsAsked(w, engine, table, bound, entries, columns, GroupedBy(HasKey(entries), KeyOf(engine, entries), rows));
  }

  // ----- the reads as they are written -----

  predicate FilterRenders(dialect: Dialect, e: Entry) {
    e.Fn? && e.where.Some? ==> !ClausesRefused(dialect, e.where.value.clauses)
  }

  /** What one entry reads, its filter rendered in a fragment of the statement; not `ok` where the filter is refused. */
  method WriteAggregateValue(ctx: SqlQueryContext, table: string, e: Entry) returns (ok: bool, read: Read)
    requires ctx.Valid()
    modifies ctx.params, ctx.Root()`tableAliases
    ensures ok == FilterRenders(ctx.dialect, e)
    ensures var r := AggregateValue(ctx.TheMode(), table, e, |old(ctx.params.values)|, old(ctx.Root().tableAliases));
            ok ==>
              && read == r.read
              && ctx.params.values == old(ctx.params.values) + r.values
              && ctx.Root().tableAliases == r.taken
  {
    ok := true;
    match e
    case Key(_, source) => read := Plain(source);
    case Fn(_, _, _, field, where) =>
      var condition: Tokens := [];
      if where.Some? {
        ghost var f := WhereFragment(ctx.TheMode(), table, false, Bare, where.value, |ctx.params.values|,
                                     ctx.Root().tableAliases);
        var fragment := ctx.CreateFragment();
        ok := RenderWhere(fragment, table, false, Bare, where.value);
        NothingBefore(f.text);
        condition := fragment.Sql();
      }
      read :=
        if condition == [] then (if field.Some? then Plain(field.value) else Star) else Cased(condition, field);
  }

  /** What each entry reads, in turn. */
  method WriteAggregateValues(ctx: SqlQueryContext, table: string, entries: seq<Entry>)
    returns (ok: bool, columns: seq<Read>)
    requires ctx.Valid()
    modifies ctx.params, ctx.Root()`tableAliases
    ensures ok <==> forall i :: 0 <= i < |entries| ==> FilterRenders(ctx.dialect, entries[i])
    ensures var r := AggregateValues(ctx.TheMode(), table, entries, |old(ctx.params.values)|,
                                     old(ctx.Root().tableAliases));
            ok ==>
              && columns == r.columns
              && ctx.params.values == old(ctx.params.values) + r.values
              && ctx.Root().tableAliases == r.taken
  {
    hide AggregateValue, FilterRenders;
    ok := true;
    columns := [];
    ghost var m, before := ctx.TheMode(), ctx.params.values;
    ghost var all := AggregateValues(m, table, entries, |before|, ctx.Root().tableAliases);
    ghost var left := all;
    assert entries[0..] == entries;
    for i := 0 to |entries|
      invariant left == AggregateValues(m, table, entries[i..], |ctx.params.values|, ctx.Root().tableAliases)
      invariant ok && forall j :: 0 <= j < i ==> FilterRenders(ctx.dialect, entries[j])
      invariant ReadSoFar(all, columns, before, ctx.params.values, left)
    {
      ghost var first := AggregateValue(m, table, entries[i], |ctx.params.values|, ctx.Root().tableAliases);
      ghost var rest := AggregateValues(m, table, entries[i + 1..], |ctx.params.values| + |first.values|, first.taken);
      AggregateValuesUnfold(m, table, entries, i, |ctx.params.values|, ctx.Root().tableAliases);
      ReadsNext(all, columns, before, ctx.params.values, first, rest);
      var read;
      ok, read := WriteAggregateValue(ctx, table, entries[i]);
      if !ok {
        return;
      }
      columns := columns + [read];
      left := rest;
    }
    NothingAfter(columns);
    NothingAfter(ctx.params.values);
  }

  lemma AggregateValuesUnfold(m: Mode, table: string, entries: seq<Entry>, i: nat, n: nat, taken: set<string>)
    requires i < |entries|
    ensures var first := AggregateValue(m, table, entries[i], n, taken);
            var rest := AggregateValues(m, table, entries[i + 1..], n + |first.values|, first.taken);
            AggregateValues(m, table, entries[i..], n, taken) == ReadThen(first, rest)
  {
    assert entries[i..][0] == entries[i] && entries[i..][1..] == entries[i + 1..];
  }

  function ReadThen(first: Reading, rest: Readings): Readings {
    Readings([first.read] + rest.columns, first.values + rest.values, rest.taken)
  }

  ghost predicate ReadSoFar(
    all: Readings, columns: seq<Read>, before: seq<Value>, values: seq<Value>, left: Readings)
  {
    && all.columns == columns + left.columns
    && before + all.values == values + left.values
    && all.taken == left.taken
  }

  lemma ReadsNext(
    all: Readings, columns: seq<Read>, before: seq<Value>, values: seq<Value>, first: Reading, rest: Readings)
    requires ReadSoFar(all, columns, before, values, ReadThen(first, rest))
    ensures ReadSoFar(all, columns + [first.read], before, values + first.values, rest)
  {
    Regroup(columns, [first.read], rest.columns);
    Regroup(values, first.values, rest.values);
  }
}
