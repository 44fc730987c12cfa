/** What an upsert leaves of a row it finds: MySQL's guarded list, run left to right, and the simultaneous forms. */
module Upserts {
  import opened Ternary
  import opened Values
  import opened Filters
  import opened FieldsRead
  import opened NamedRows
  import opened Sequences
  import JsonFold

  /** What a column is increased or multiplied by: a value, or what SQL reads of the row found. */
  datatype Amount = Amount(value: Value) | AmountOf(raw: RawSql, columns: seq<string>)

  /** What an update sets a column to. */
  datatype Assigned =
    | Constant(value: Value)
    | Incoming(column: string)                   // the inserted row's column
    | Arithmetic(op: string, operand: Amount)        // COALESCE(column, 0) <op> operand
    | Computed(raw: RawSql, columns: seq<string>)  // SQL reading columns of the row found
    | Changed(change: JsonFold.Change)             // the column's JSON, as the change leaves it

  datatype Entry = Entry(column: string, value: Assigned)

  /** What an engine answers for arithmetic, for SQL held verbatim and for JSON, about which nothing is assumed. */
  datatype Engine = Engine(
    arithmetic: (string, Value, Value) -> Value, sql: (RawSql, seq<Value>) -> Value,
    json: (JsonFold.Change, Value) -> Value)

  function ColumnsOf(row: Row, columns: seq<string>): seq<Value> {
    seq(|columns|, i requires 0 <= i < |columns| => ColumnOf(row, columns[i]))
  }

  function AmountIn(engine: Engine, amount: Amount, found: Row): Value {
    match amount
    case Amount(v) => v
    case AmountOf(raw, columns) => engine.sql(raw, ColumnsOf(found, columns))
  }

  /** What `e` sets its column to, read off `found` and the row inserted. */
  function AssignedValue(engine: Engine, e: Entry, found: Row, incoming: Row): Value {
    match e.value
    case Constant(v) => v
    case Incoming(c) => ColumnOf(incoming, c)
    case Arithmetic(op, operand) =>
      var current := ColumnOf(found, e.column);
      engine.arithmetic(op, if current.Null? then Num(0) else current, AmountIn(engine, operand, found))
    case Computed(raw, columns) => engine.sql(raw, ColumnsOf(found, columns))
    case Changed(change) => engine.json(change, ColumnOf(found, e.column))
  }

  /** The columns SQL among what is assigned reads. */
  function SqlColumns(v: Assigned): seq<string> {
    if v.Computed? then v.columns
    else if v.Arithmetic? && v.operand.AmountOf? then v.operand.columns
    else []
  }

  /** The columns of the row found an entry reads. */
  function EntryReads(e: Entry): set<string> {
    (set c | c in SqlColumns(e.value)) + (if e.value.Arithmetic? || e.value.Changed? then {e.column} else {})
  }

  // ----- the forms -----

  /** Whether a row takes the update under a condition: one is met where it is true, and none asks nothing. */
  ghost predicate Takes(w: World, row: Row, condition: seq<Clause>) {
    var m := WhereMeaning(w, row, Where(condition));
    m.NoCondition? || m.truth == True
  }

  /** `DO UPDATE SET` and `WHEN MATCHED THEN UPDATE SET`: each value read off the row as it was found. */
  function SetAll(engine: Engine, entries: seq<Entry>, found: Row, incoming: Row): Row {
    if entries == [] then found
    else
      var last := entries[|entries| - 1];
      SetAll(engine, entries[..|entries| - 1], found, incoming)[last.column := AssignedValue(engine, last, found,
          incoming)]
  }

  /** `DO UPDATE SET ... WHERE condition`, and `WHEN MATCHED AND condition THEN UPDATE SET ...`. */
  ghost function UpdateWhere(
    w: World, engine: Engine, entries: seq<Entry>, condition: seq<Clause>, found: Row, incoming: Row): Row
  {
    if Takes(w, found, condition) then SetAll(engine, entries, found, incoming) else found
  }

  /**
   * `ON DUPLICATE KEY UPDATE c = CASE WHEN guard THEN v ELSE c END, ...`, each assignment reading the row as it stands.
   */
  ghost function RunGuarded(
    w: World, engine: Engine, entries: seq<Entry>, guard: seq<Clause>, row: Row, incoming: Row): Row
  {
    if entries == [] then row
    else
      var e := entries[0];
      var v := if Takes(w, row, guard) then AssignedValue(engine, e, row, incoming) else ColumnOf(row, e.column);
      RunGuarded(w, engine, entries[1..], guard, row[e.column := v], incoming)
  }

  // ----- MySQL's list -----

  datatype MysqlUpdate = Refused | Listed(entries: seq<Entry>, guard: seq<Clause>)

  predicate IsRead(shown: Reads, e: Entry) {
    shown.Unshown? || e.column in shown.fields
  }

  function ThoseRead(shown: Reads, entries: seq<Entry>, read: bool): seq<Entry> {
    if entries == [] then []
    else (if IsRead(shown, entries[0]) == read then [entries[0]] else []) + ThoseRead(shown, entries[1..], read)
  }

  /**
   * The list MySQL is given: the entries as they are, unguarded, under a condition that names no rows; else guarded,
   * an entry whose column the condition reads put at the end, and refused where there are two of those.
   */
  function FoundRowUpdate(entries: seq<Entry>, where: seq<Clause>): MysqlUpdate {
    if !NamesRows(where) then Listed(entries, [])
    else
      var shown := FieldsOf(where);
      var read := ThoseRead(shown, entries, true);
      if |read| > 1 then Refused else Listed(ThoseRead(shown, entries, false) + read, where)
  }

  // ----- equivalence -----

  /** Two rows no query tells apart. */
  ghost predicate SameRow(a: Row, b: Row) {
    forall c :: ColumnOf(a, c) == ColumnOf(b, c)
  }

  ghost predicate Distinct(entries: seq<Entry>) {
    forall i, j :: 0 <= i < j < |entries| ==> entries[i].column != entries[j].column
  }

  /** Each value reads no column of the row found but the one it sets. */
  ghost predicate ReadThemselves(entries: seq<Entry>) {
    forall e :: e in entries ==> EntryReads(e) <= {e.column}
  }

  /** No assignment reads a column one listed before it sets. */
  ghost predicate ReadsAsFound(entries: seq<Entry>) {
    forall i, j :: 0 <= i < j < |entries| ==> entries[i].column !in EntryReads(entries[j])
  }

  /** No assignment, and no condition before one, reads a column an earlier assignment set. */
  ghost predicate ReadsNothingSet(entries: seq<Entry>, shown: Reads) {
    forall i, j :: 0 <= i < j < |entries| ==> entries[i].column !in EntryReads(entries[j]) && !IsRead(shown, entries[i])
  }

  /** What a list's guard reads. */
  function GuardReads(list: MysqlUpdate): Reads
    requires list.Listed?
  {
    if list.guard == [] then Shown({}) else FieldsOf(list.guard)
  }

  lemma ValueAgrees(engine: Engine, e: Entry, a: Row, b: Row, incoming: Row)
    requires Agree(a, b, EntryReads(e))
    ensures AssignedValue(engine, e, a, incoming) == AssignedValue(engine, e, b, incoming)
  {
    var columns := SqlColumns(e.value);
    forall i | 0 <= i < |columns| ensures ColumnOf(a, columns[i]) == ColumnOf(b, columns[i]) {
      assert columns[i] in EntryReads(e);
    }
    assert ColumnsOf(a, columns) == ColumnsOf(b, columns);
    if e.value.Arithmetic? || e.value.Changed? {
      assert e.column in EntryReads(e);
    }
  }

  /** What a column holds once every entry is set off `found`, under a condition met or not. */
  ghost predicate IsUpdated(
    engine: Engine, entries: seq<Entry>, takes: bool, found: Row, incoming: Row, before: Row, after: Row)
  {
    && (forall e :: e in entries ==>
          ColumnOf(after, e.column) ==
          if takes then AssignedValue(engine, e, found, incoming) else ColumnOf(found, e.column))
    && (forall c :: (forall e :: e in entries ==> e.column != c) ==> ColumnOf(after, c) == ColumnOf(before, c))
  }

  lemma {:induction false} SetAllUpdates(engine: Engine, entries: seq<Entry>, found: Row, incoming: Row)
    requires Distinct(entries)
    ensures IsUpdated(engine, entries, true, found, incoming, found, SetAll(engine, entries, found, incoming))
  {
    if entries != [] {
      var last := entries[|entries| - 1];
      var init := entries[..|entries| - 1];
      SetAllUpdates(engine, init, found, incoming);
      assert forall e :: e in entries <==> e in init || e == last;
      forall e | e in init ensures e.column != last.column {
        var i :| 0 <= i < |init| && init[i] == e;
        assert entries[i] == e;
      }
    }
  }

  /** A list none of which reads what was set before it, run left to right, sets each column as the row was found. */
  lemma {:induction false} RunUpdates(
    w: World, engine: Engine, entries: seq<Entry>, guard: seq<Clause>, shown: Reads, found: Row, row: Row,
    incoming: Row)
    requires Distinct(entries) && ReadsNothingSet(entries, shown)
    requires shown.Shown? ==> shown == FieldsOf(guard) || guard == []
    requires entries != [] ==> (Takes(w, row, guard) <==> Takes(w, found, guard))
    requires shown.Unshown? ==> guard == [] || |entries| <= 1
    requires forall e :: e in entries ==>
               Agree(row, found, EntryReads(e)) && ColumnOf(row, e.column) == ColumnOf(found, e.column)
    ensures IsUpdated(engine, entries, Takes(w, found, guard), found, incoming, row,
                      RunGuarded(w, engine, entries, guard, row, incoming))
    decreases |entries|
  {
    if entries != [] {
      var e := entries[0];
      var rest := entries[1..];
      assert e in entries;
      ValueAgrees(engine, e, row, found, incoming);
      var v := if Takes(w, row, guard) then AssignedValue(engine, e, row, incoming) else ColumnOf(row, e.column);
      var next := row[e.column := v];
      RestUntouched(entries, shown, found, row, v);
      if rest != [] {
        assert entries[1] == rest[0] && !IsRead(shown, entries[0]);
        GuardUnmoved(w, guard, shown, row, e.column, v);
      }
      RunUpdates(w, engine, rest, guard, shown, found, next, incoming);
      StepUpdates(engine, entries, Takes(w, found, guard), found, incoming, row, v,
                  RunGuarded(w, engine, rest, guard, next, incoming));
    }
  }

  lemma RestUntouched(entries: seq<Entry>, shown: Reads, found: Row, row: Row, v: Value)
    requires entries != [] && Distinct(entries) && ReadsNothingSet(entries, shown)
    requires forall e :: e in entries ==>
               Agree(row, found, EntryReads(e)) && ColumnOf(row, e.column) == ColumnOf(found, e.column)
    ensures forall x :: x in entries[1..] ==>
              && x.column != entries[0].column
              && Agree(row[entries[0].column := v], found, EntryReads(x))
              && ColumnOf(row[entries[0].column := v], x.column) == ColumnOf(found, x.column)
    ensures Distinct(entries[1..]) && ReadsNothingSet(entries[1..], shown)
  {
    forall x | x in entries[1..]
      ensures x.column != entries[0].column && entries[0].column !in EntryReads(x) && x in entries
    {
      var j :| 0 <= j < |entries[1..]| && entries[1..][j] == x;
      assert entries[j + 1] == x;
    }
  }

  lemma StepUpdates(
    engine: Engine, entries: seq<Entry>, takes: bool, found: Row, incoming: Row, row: Row, v: Value, after: Row)
    requires entries != [] && forall x :: x in entries[1..] ==> x.column != entries[0].column
    requires v == if takes then AssignedValue(engine, entries[0], found, incoming)
             else ColumnOf(found, entries[0].column)
    requires IsUpdated(engine, entries[1..], takes, found, incoming, row[entries[0].column := v], after)
    ensures IsUpdated(engine, entries, takes, found, incoming, row, after)
  {
    var e := entries[0];
    assert entries == [e] + entries[1..];
    assert ColumnOf(row[e.column := v], e.column) == v;
    forall c | (forall x :: x in entries ==> x.column != c) ensures ColumnOf(after, c) == ColumnOf(row, c) {
      assert e in entries && forall x :: x in entries[1..] ==> x in entries;
      assert ColumnOf(after, c) == ColumnOf(row[e.column := v], c);
    }
  }

  /** Setting a column the condition does not read leaves it as it was. */
  lemma GuardUnmoved(w: World, guard: seq<Clause>, shown: Reads, row: Row, column: string, v: Value)
    requires shown.Shown? && column !in shown.fields && (shown == FieldsOf(guard) || guard == [])
    ensures Takes(w, row[column := v], guard) <==> Takes(w, row, guard)
  {
    if guard != [] {
      FieldsReadDecide(w, row, row[column := v], guard);
    } else {
      assert ClauseTerms(w, row, []) == [];
    }
  }

  lemma {:induction false} ThoseReadHold(shown: Reads, entries: seq<Entry>, read: bool)
    ensures forall e :: e in ThoseRead(shown, entries, read) <==> e in entries && IsRead(shown, e) == read
  {
    if entries != [] {
      ThoseReadHold(shown, entries[1..], read);
      assert entries == [entries[0]] + entries[1..];
    }
  }

  lemma {:induction false} ThoseReadDistinct(shown: Reads, entries: seq<Entry>, read: bool)
    requires Distinct(entries)
    ensures Distinct(ThoseRead(shown, entries, read))
  {
    if entries != [] {
      ThoseReadDistinct(shown, entries[1..], read);
      ThoseReadHold(shown, entries[1..], read);
      var rest := ThoseRead(shown, entries[1..], read);
      forall j | 0 <= j < |rest| ensures rest[j].column != entries[0].column {
        assert rest[j] in rest;
        var k :| 0 <= k < |entries[1..]| && entries[1..][k] == rest[j];
        assert entries[k + 1] == rest[j];
      }
    }
  }

  /**
   * The list is the entries, those the condition does not read first: no condition reads a column set before it, and
   * no assignment does exactly where the list reads as found.
   */
  lemma ListIsSafe(entries: seq<Entry>, where: seq<Clause>)
    requires Distinct(entries) && FoundRowUpdate(entries, where).Listed?
    ensures var list := FoundRowUpdate(entries, where);
            && Distinct(list.entries)
            && (forall e :: e in list.entries <==> e in entries)
            && (ReadsNothingSet(list.entries, GuardReads(list)) <==> ReadsAsFound(list.entries))
            && (list.guard != [] && FieldsOf(list.guard).Unshown? ==> |list.entries| <= 1)
    ensures ReadThemselves(entries) ==> ReadsAsFound(FoundRowUpdate(entries, where).entries)
  {
    hide FieldsOf, NamesRows, EntryReads;
    if NamesRows(where) {
      var shown := FieldsOf(where);
      var others, read := ThoseRead(shown, entries, false), ThoseRead(shown, entries, true);
      ThoseReadHold(shown, entries, false);
      ThoseReadHold(shown, entries, true);
      ThoseReadDistinct(shown, entries, false);
      ThoseReadDistinct(shown, entries, true);
      var list := others + read;
      forall i, j | 0 <= i < j < |list|
        ensures list[i].column != list[j].column && !IsRead(shown, list[i])
      {
        assert i < |others| && list[i] in others;
        if j >= |others| {
          assert list[j] in read;
          DifferentColumns(entries, list[i], list[j]);
        }
      }
      assert forall i :: 0 <= i < |list| ==> list[i] in entries;
      if shown.Unshown? {
        AllMayBeRead(entries);
      }
    } else {
      var list := FoundRowUpdate(entries, where);
      assert list == Listed(entries, []) && GuardReads(list) == Shown({});
      assert forall i :: 0 <= i < |entries| ==> entries[i] in entries && !IsRead(GuardReads(list), entries[i]);
    }
  }

  lemma EmptyTogether(a: seq<Entry>, b: seq<Entry>)
    requires forall e :: e in a <==> e in b
    ensures a == [] <==> b == []
  {
    if a != [] {
      assert a[0] in b;
    }
    if b != [] {
      assert b[0] in a;
    }
  }

  lemma DifferentColumns(entries: seq<Entry>, a: Entry, b: Entry)
    requires Distinct(entries) && a in entries && b in entries && a != b
    ensures a.column != b.column
  {
    var i :| 0 <= i < |entries| && entries[i] == a;
    var j :| 0 <= j < |entries| && entries[j] == b;
  }

  lemma {:induction false} TermsByLeaf(w: World, row: Row, cs: seq<Clause>)
    ensures ClauseTerms(w, row, cs) != [] <==> Emitting(Leaves(cs))
    decreases cs, 0
  {
    if cs != [] {
      TermByLeaf(w, row, cs[0]);
      TermsByLeaf(w, row, cs[1..]);
    }
  }

  lemma {:induction false} TermByLeaf(w: World, row: Row, c: Clause)
    ensures ClauseMeaning(w, row, c).Condition? <==> Emitting(ClauseLeaves(c))
    decreases c, 1
  {
    match c
    case Group(_, items) => ItemTermsByLeaf(w, row, items);
    case Field(name, val) => ValTermByLeaf(w, row, ColumnOf(row, name), val);
    case Json(name, path, val) => ValTermByLeaf(w, row, w.path(ColumnOf(row, name), path), val);
    case Exists(_, _) =>
    case TextSearch(_) =>
    case Related(_, _, _) =>
  }

  lemma ValTermByLeaf(w: World, row: Row, v: Value, val: FieldVal)
    ensures ValMeanings(w, row, v, val) == [] <==> val == OpMap([])
  {
    match val
    case One(_) =>
    case Many(_) =>
    case OpMap(ops) => assert ops == [] ==> val == OpMap([]);
  }

  lemma {:induction false} ItemTermsByLeaf(w: World, row: Row, items: seq<Item>)
    ensures ItemTerms(w, row, items) != [] <==> Emitting(ItemsLeaves(items))
    decreases items, 0
  {
    if items != [] {
      ItemTermByLeaf(w, row, items[0]);
      ItemTermsByLeaf(w, row, items[1..]);
    }
  }

  lemma {:induction false} ItemTermByLeaf(w: World, row: Row, item: Item)
    ensures ItemMeaning(w, row, item).Condition? <==> Emitting(ItemLeaves(item))
    decreases item, 0
  {
    if item.Nested? {
      TermsByLeaf(w, row, item.where.clauses);
    }
  }

  /** The condition names rows, or its text does not either: it holds no relation narrowed by nothing. */
  predicate NamingBorneOut(where: seq<Clause>) {
    NamesRows(where) || BareRelation !in Leaves(where)
  }

  /** The list's guard is met where the condition is. */
  lemma GuardIsCondition(w: World, entries: seq<Entry>, where: seq<Clause>, row: Row)
    requires NamingBorneOut(where) && FoundRowUpdate(entries, where).Listed?
    ensures Takes(w, row, FoundRowUpdate(entries, where).guard) <==> Takes(w, row, where)
  {
    NamesByLeaf(where);
    TermsByLeaf(w, row, where);
    assert ClauseTerms(w, row, []) == [];
  }

  /** The one row is the other, for every engine, row found and row inserted. */
  ghost predicate Simultaneous(w: World, entries: seq<Entry>, where: seq<Clause>)
    requires FoundRowUpdate(entries, where).Listed?
  {
    var list := FoundRowUpdate(entries, where);
    forall engine, found, incoming ::
      SameRow(RunGuarded(w, engine, list.entries, list.guard, found, incoming),
              UpdateWhere(w, engine, entries, where, found, incoming))
  }

  ghost predicate SomeRowTakes(w: World, where: seq<Clause>) {
    exists row :: Takes(w, row, where)
  }

  /** A list that reads as found leaves what the simultaneous forms leave. */
  lemma ReadAsFoundAgrees(
    w: World, engine: Engine, entries: seq<Entry>, where: seq<Clause>, found: Row, incoming: Row)
    requires Distinct(entries) && NamingBorneOut(where) && FoundRowUpdate(entries, where).Listed?
    requires ReadsAsFound(FoundRowUpdate(entries, where).entries)
    ensures var list := FoundRowUpdate(entries, where);
            SameRow(RunGuarded(w, engine, list.entries, list.guard, found, incoming),
                    UpdateWhere(w, engine, entries, where, found, incoming))
  {
    var list := FoundRowUpdate(entries, where);
    GuardIsCondition(w, entries, where, found);
    ListIsSafe(entries, where);
    RunUpdates(w, engine, list.entries, list.guard, GuardReads(list), found, found, incoming);
    SetAllUpdates(engine, entries, found, incoming);
    SameUpdate(engine, entries, list.entries, Takes(w, found, where), found, incoming,
               SetAll(engine, entries, found, incoming),
               RunGuarded(w, engine, list.entries, list.guard, found, incoming));
  }

  /** A list whose guard no row meets sets each column to itself. */
  lemma {:induction false} NoneTakes(
    w: World, engine: Engine, entries: seq<Entry>, guard: seq<Clause>, row: Row, incoming: Row)
    requires !SomeRowTakes(w, guard)
    ensures SameRow(RunGuarded(w, engine, entries, guard, row, incoming), row)
    decreases |entries|
  {
    if entries != [] {
      assert !Takes(w, row, guard);
      NoneTakes(w, engine, entries[1..], guard, row[entries[0].column := ColumnOf(row, entries[0].column)], incoming);
    }
  }

  // ----- an engine that shows what a value read -----

  /** A number other than `v`, 0 and 1. */
  function OtherThan(v: Assigned): (r: Value)
    ensures r == Num(2) || r == Num(3)
    ensures v.Constant? ==> r != v.value
  {
    if v == Constant(Num(2)) then Num(3) else Num(2)
  }

  /** Answers 0 for the SQL of `v` over the values `seen`, and 1 for anything else. */
  function Marker(v: Assigned, seen: seq<Value>): Engine {
    Engine((op, a, b) => if b == Num(0) then Num(0) else Num(1),
           (raw, vs) => if raw == SqlIn(v) && vs == seen then Num(0) else Num(1),
           (change, current) => Num(1))
  }

  function SqlIn(v: Assigned): RawSql {
    if v.Computed? then v.raw
    else if v.Arithmetic? && v.operand.AmountOf? then v.operand.raw
    else RawSql("", [])
  }

  /** The marker's values are none of `OtherThan`'s. */
  lemma MarkerDiffers(v: Assigned, seen: seq<Value>, e: Entry, row: Row)
    ensures AssignedValue(Marker(v, seen), e, row, map[]) != OtherThan(e.value)
  {
    assert e.value.Incoming? ==> ColumnOf(map[], e.value.column) == Null;
  }

  /** What is computed by SQL is marked where what it reads is not what was seen. */
  lemma Marks(e: Entry, seen: seq<Value>, row: Row, incoming: Row)
    requires SqlColumns(e.value) != []
    ensures AssignedValue(Marker(e.value, seen), e, row, incoming)
         == if ColumnsOf(row, SqlColumns(e.value)) == seen then Num(0) else Num(1)
  {
  }

  lemma {:induction false} Unlisted(
    w: World, engine: Engine, entries: seq<Entry>, guard: seq<Clause>, row: Row, incoming: Row, c: string)
    requires forall e :: e in entries ==> e.column != c
    ensures ColumnOf(RunGuarded(w, engine, entries, guard, row, incoming), c) == ColumnOf(row, c)
    decreases |entries|
  {
    if entries != [] {
      var e := entries[0];
      assert e in entries && forall x :: x in entries[1..] ==> x in entries;
      var v := if Takes(w, row, guard) then AssignedValue(engine, e, row, incoming) else ColumnOf(row, e.column);
      Unlisted(w, engine, entries[1..], guard, row[e.column := v], incoming, c);
    }
  }

  /** Once `c` is not what it was found, what entry `j` computes from it is not what it was. */
  lemma {:induction false} MarksLater(
    w: World, entries: seq<Entry>, guard: seq<Clause>, shown: Reads, row: Row, found: Row, j: nat, c: string)
    requires Distinct(entries) && j < |entries| && c in SqlColumns(entries[j].value)
    requires forall k :: 0 <= k < j ==> entries[k].column != c && !IsRead(shown, entries[k])
    requires shown.Shown? && (shown == FieldsOf(guard) || guard == []) && Takes(w, row, guard)
    requires ColumnOf(row, c) != ColumnOf(found, c)
    ensures var engine := Marker(entries[j].value, ColumnsOf(found, SqlColumns(entries[j].value)));
            ColumnOf(RunGuarded(w, engine, entries, guard, row, map[]), entries[j].column) == Num(1)
    decreases j
  {
    var cols := SqlColumns(entries[j].value);
    var engine := Marker(entries[j].value, ColumnsOf(found, cols));
    var e := entries[0];
    var v := AssignedValue(engine, e, row, map[]);
    var next := row[e.column := v];
    if j == 0 {
      var k :| 0 <= k < |cols| && cols[k] == c;
      assert ColumnsOf(row, cols)[k] != ColumnsOf(found, cols)[k];
      Marks(e, ColumnsOf(found, cols), row, map[]);
      RestDiffers(entries);
      Unlisted(w, engine, entries[1..], guard, next, map[], e.column);
    } else {
      GuardUnmoved(w, guard, shown, row, e.column, v);
      assert entries[1..][j - 1] == entries[j];
      MarksLater(w, entries[1..], guard, shown, next, found, j - 1, c);
    }
  }

  lemma RestDiffers(entries: seq<Entry>)
    requires entries != [] && Distinct(entries)
    ensures forall x :: x in entries[1..] ==> x.column != entries[0].column
  {
    forall x | x in entries[1..] ensures x.column != entries[0].column {
      var j :| 0 <= j < |entries[1..]| && entries[1..][j] == x;
      assert entries[j + 1] == x;
    }
  }

  /** Entry `i` sets its column to what it was not, and what entry `j` computes from it is not what it was. */
  lemma {:induction false} MarksOnceSet(
    w: World, entries: seq<Entry>, guard: seq<Clause>, shown: Reads, row: Row, found: Row, i: nat, j: nat)
    requires Distinct(entries) && i < j < |entries|
    requires entries[i].column in SqlColumns(entries[j].value)
    requires forall k :: 0 <= k < j ==> !IsRead(shown, entries[k])
    requires shown.Shown? && (shown == FieldsOf(guard) || guard == []) && Takes(w, row, guard)
    requires ColumnOf(found, entries[i].column) == OtherThan(entries[i].value)
    ensures var engine := Marker(entries[j].value, ColumnsOf(found, SqlColumns(entries[j].value)));
            ColumnOf(RunGuarded(w, engine, entries, guard, row, map[]), entries[j].column) == Num(1)
    decreases i
  {
    var seen := ColumnsOf(found, SqlColumns(entries[j].value));
    var engine := Marker(entries[j].value, seen);
    var e := entries[0];
    var v := AssignedValue(engine, e, row, map[]);
    var next := row[e.column := v];
    GuardUnmoved(w, guard, shown, row, e.column, v);
    assert entries[1..][j - 1] == entries[j];
    if i == 0 {
      MarkerDiffers(entries[j].value, seen, e, row);
      MarksLater(w, entries[1..], guard, shown, next, found, j - 1, e.column);
    } else {
      assert entries[1..][i - 1] == entries[i];
      MarksOnceSet(w, entries[1..], guard, shown, next, found, i - 1, j - 1);
    }
  }

  /** A list that does not read as found leaves some row of some engine otherwise than the simultaneous forms. */
  lemma ReadAfterSetDiffers(w: World, entries: seq<Entry>, where: seq<Clause>, row: Row, i: nat, j: nat)
    requires Distinct(entries) && NamingBorneOut(where) && FoundRowUpdate(entries, where).Listed?
    requires var list := FoundRowUpdate(entries, where).entries;
             i < j < |list| && list[i].column in EntryReads(list[j])
    requires Takes(w, row, where)
    ensures !Simultaneous(w, entries, where)
  {
    hide RunGuarded, SetAll, UpdateWhere, FieldsOf, NamesRows, ClauseTerms;
    var list := FoundRowUpdate(entries, where);
    var shown := GuardReads(list);
    ListIsSafe(entries, where);
    GuardNotRead(entries, where);
    var a, b := list.entries[i], list.entries[j];
    assert a.column != b.column;
    var x := OtherThan(a.value);
    var found := row[a.column := x];
    GuardIsCondition(w, entries, where, row);
    GuardUnmoved(w, list.guard, shown, row, a.column, x);
    GuardIsCondition(w, entries, where, found);
    var engine := Marker(b.value, ColumnsOf(found, SqlColumns(b.value)));
    MarksOnceSet(w, list.entries, list.guard, shown, found, found, i, j);
    assert b in list.entries && b in entries;
    MarksAsFound(w, entries, where, found, b);
    var run := RunGuarded(w, engine, list.entries, list.guard, found, map[]);
    var all := UpdateWhere(w, engine, entries, where, found, map[]);
    DifferentRows(run, all, b.column);
  }

  lemma DifferentRows(a: Row, b: Row, c: string)
    requires ColumnOf(a, c) != ColumnOf(b, c)
    ensures !SameRow(a, b)
  {
  }

  /** What the simultaneous forms compute is of the row found. */
  lemma MarksAsFound(w: World, entries: seq<Entry>, where: seq<Clause>, found: Row, b: Entry)
    requires Distinct(entries) && b in entries && SqlColumns(b.value) != [] && Takes(w, found, where)
    ensures var engine := Marker(b.value, ColumnsOf(found, SqlColumns(b.value)));
            ColumnOf(UpdateWhere(w, engine, entries, where, found, map[]), b.column) == Num(0)
  {
    var seen := ColumnsOf(found, SqlColumns(b.value));
    Marks(b, seen, found, map[]);
    SetAllUpdates(Marker(b.value, seen), entries, found, map[]);
  }

  /** The condition reads no column of a list but the last's. */
  lemma GuardNotRead(entries: seq<Entry>, where: seq<Clause>)
    requires Distinct(entries) && FoundRowUpdate(entries, where).Listed?
    ensures var list := FoundRowUpdate(entries, where);
            && (|list.entries| > 1 ==> GuardReads(list).Shown?)
            && forall k :: 0 <= k < |list.entries| - 1 ==> !IsRead(GuardReads(list), list.entries[k])
  {
    if NamesRows(where) {
      var shown := FieldsOf(where);
      var others := ThoseRead(shown, entries, false);
      ThoseReadHold(shown, entries, false);
      assert forall k :: 0 <= k < |others| ==> others[k] in others;
      if shown.Unshown? {
        AllMayBeRead(entries);
      }
    }
  }

  /**
   * Under a guard, or a condition that says nothing, the two agree where the list reads as found, or no row is taken.
   */
  lemma GuardedExactly(w: World, entries: seq<Entry>, where: seq<Clause>)
    requires Distinct(entries) && NamingBorneOut(where) && FoundRowUpdate(entries, where).Listed?
    ensures Simultaneous(w, entries, where) <==>
            ReadsAsFound(FoundRowUpdate(entries, where).entries) || !SomeRowTakes(w, where)
  {
    var list := FoundRowUpdate(entries, where);
    if ReadsAsFound(list.entries) {
      forall engine, found, incoming
        ensures SameRow(RunGuarded(w, engine, list.entries, list.guard, found, incoming),
                        UpdateWhere(w, engine, entries, where, found, incoming))
      {
        ReadAsFoundAgrees(w, engine, entries, where, found, incoming);
      }
    } else if SomeRowTakes(w, where) {
      var row :| Takes(w, row, where);
      var i, j :| 0 <= i < j < |list.entries| && list.entries[i].column in EntryReads(list.entries[j]);
      ReadAfterSetDiffers(w, entries, where, row, i, j);
    } else {
      forall row ensures !Takes(w, row, list.guard) {
        GuardIsCondition(w, entries, where, row);
      }
      forall engine, found, incoming
        ensures SameRow(RunGuarded(w, engine, list.entries, list.guard, found, incoming),
                        UpdateWhere(w, engine, entries, where, found, incoming))
      {
        NoneTakes(w, engine, list.entries, list.guard, found, incoming);
      }
    }
  }

  // ----- a condition the list drops -----

  /** Answers `v` for everything. */
  function Answering(v: Value): Engine {
    Engine((op, a, b) => v, (raw, vs) => v, (change, current) => v)
  }

  /** A row inserted that holds `v` where `e` reads it. */
  function Holding(e: Entry, v: Value): Row {
    if e.value.Incoming? then map[e.value.column := v] else map[]
  }

  /** What an engine that answers `v` for everything leaves of the column entry `i` sets. */
  lemma {:induction false} Answers(w: World, entries: seq<Entry>, row: Row, v: Value, i: nat, incoming: Row)
    requires Distinct(entries) && i < |entries| && incoming == Holding(entries[i], v)
    ensures ColumnOf(RunGuarded(w, Answering(v), entries, [], row, incoming), entries[i].column)
         == if entries[i].value.Constant? then entries[i].value.value else v
    decreases i
  {
    assert ClauseTerms(w, row, []) == [] && Takes(w, row, []);
    var engine, e := Answering(v), entries[0];
    var next := row[e.column := AssignedValue(engine, e, row, incoming)];
    if i == 0 {
      RestDiffers(entries);
      Unlisted(w, engine, entries[1..], [], next, incoming, e.column);
    } else {
      assert entries[1..][i - 1] == entries[i];
      Answers(w, entries[1..], next, v, i - 1, incoming);
    }
  }

  /** Every entry sets its column to what the row holds there. */
  ghost predicate AllHold(entries: seq<Entry>, row: Row) {
    forall e :: e in entries ==> e.value == Constant(ColumnOf(row, e.column))
  }

  lemma {:induction false} ConstantsKeep(w: World, engine: Engine, entries: seq<Entry>, row: Row, incoming: Row)
    requires AllHold(entries, row)
    ensures SameRow(RunGuarded(w, engine, entries, [], row, incoming), row)
    decreases |entries|
  {
    if entries != [] {
      assert ClauseTerms(w, row, []) == [] && Takes(w, row, []);
      var e := entries[0];
      assert e in entries && forall x :: x in entries[1..] ==> x in entries;
      var next := row[e.column := ColumnOf(row, e.column)];
      assert forall c :: ColumnOf(next, c) == ColumnOf(row, c);
      ConstantsKeep(w, engine, entries[1..], next, incoming);
    }
  }

  /** A row the condition does not take is set by a list that dropped it, unless the list sets what the row holds. */
  lemma UntakenDiffers(w: World, entries: seq<Entry>, where: seq<Clause>, row: Row, i: nat)
    requires Distinct(entries) && !NamesRows(where) && !Takes(w, row, where)
    requires i < |entries| && entries[i].value != Constant(ColumnOf(row, entries[i].column))
    ensures !Simultaneous(w, entries, where)
  {
    var e := entries[i];
    var v := if ColumnOf(row, e.column) == Num(1) then Num(2) else Num(1);
    Answers(w, entries, row, v, i, Holding(e, v));
    DifferentRows(RunGuarded(w, Answering(v), entries, [], row, Holding(e, v)),
                  UpdateWhere(w, Answering(v), entries, where, row, Holding(e, v)), e.column);
  }

  /** Where every row is taken, the dropped condition changes nothing. */
  lemma AllTakenAgrees(w: World, engine: Engine, entries: seq<Entry>, where: seq<Clause>, found: Row, incoming: Row)
    requires Distinct(entries) && !NamesRows(where) && ReadsAsFound(entries) && Takes(w, found, where)
    ensures SameRow(RunGuarded(w, engine, entries, [], found, incoming),
                    UpdateWhere(w, engine, entries, where, found, incoming))
  {
    assert ClauseTerms(w, found, []) == [] && Takes(w, found, []);
    ReadAsFoundAgrees(w, engine, entries, [], found, incoming);
  }

  lemma SomeRead(entries: seq<Entry>)
    requires !ReadsAsFound(entries)
    ensures exists j :: 0 <= j < |entries| && !entries[j].value.Constant?
  {
    var i, j :| 0 <= i < j < |entries| && entries[i].column in EntryReads(entries[j]);
    assert !entries[j].value.Constant?;
  }

  /** A list that reads what it set, where every row is taken. */
  lemma AllTakenDiffers(w: World, entries: seq<Entry>, where: seq<Clause>)
    requires Distinct(entries) && !NamesRows(where) && !ReadsAsFound(entries) && forall row :: Takes(w, row, where)
    ensures !Simultaneous(w, entries, where)
  {
    assert FoundRowUpdate(entries, []) == Listed(entries, []);
    assert ClauseTerms(w, map[], []) == [] && Takes(w, map[], []);
    GuardedExactly(w, entries, []);
    assert !Simultaneous(w, entries, []);
    var engine, found, incoming :|
      !SameRow(RunGuarded(w, engine, entries, [], found, incoming),
               UpdateWhere(w, engine, entries, [], found, incoming));
    assert ClauseTerms(w, found, []) == [] && Takes(w, found, []) && Takes(w, found, where);
    assert FoundRowUpdate(entries, where) == Listed(entries, []);
    assert UpdateWhere(w, engine, entries, where, found, incoming)
           == UpdateWhere(w, engine, entries, [], found, incoming);
  }

  /** The rows a condition does not take are left as they are by entries that set nothing else. */
  ghost predicate UntakenHold(w: World, entries: seq<Entry>, where: seq<Clause>) {
    forall row :: Takes(w, row, where) || AllHold(entries, row)
  }

  /** Under a condition that names no rows the two agree where the list reads as found and sets no row not taken. */
  lemma DroppedExactly(w: World, entries: seq<Entry>, where: seq<Clause>)
    requires Distinct(entries) && !NamesRows(where)
    ensures Simultaneous(w, entries, where) <==> ReadsAsFound(entries) && UntakenHold(w, entries, where)
  {
    if !UntakenHold(w, entries, where) {
      var row :| !Takes(w, row, where) && !AllHold(entries, row);
      var e :| e in entries && e.value != Constant(ColumnOf(row, e.column));
      var i :| 0 <= i < |entries| && entries[i] == e;
      UntakenDiffers(w, entries, where, row, i);
    } else if !ReadsAsFound(entries) {
      SomeRead(entries);
      var j :| 0 <= j < |entries| && !entries[j].value.Constant?;
      forall row ensures Takes(w, row, where) {
        assert entries[j] in entries && !AllHold(entries, row);
      }
      AllTakenDiffers(w, entries, where);
    } else {
      forall engine, found, incoming
        ensures SameRow(RunGuarded(w, engine, entries, [], found, incoming),
                        UpdateWhere(w, engine, entries, where, found, incoming))
      {
        if Takes(w, found, where) {
          AllTakenAgrees(w, engine, entries, where, found, incoming);
        } else {
          ConstantsKeep(w, engine, entries, found, incoming);
        }
      }
    }
  }

  /**
   * MySQL's list, run left to right over the row as it changes, leaves the row that `DO UPDATE SET ... WHERE` and
   * `WHEN MATCHED AND` leave, whatever the engine, the row found and the row inserted, exactly where: under a condition
   * that names rows, no entry of the list reads a column one listed before it sets,
   or no row at all meets the condition;
   * under one that names none, no entry does, and a row the condition does not take holds what every entry sets.
   */
  lemma SimultaneousExactly(w: World, entries: seq<Entry>, where: seq<Clause>)
    requires Distinct(entries) && FoundRowUpdate(entries, where).Listed?
    ensures Simultaneous(w, entries, where) <==>
            if NamesRows(where) then ReadsAsFound(FoundRowUpdate(entries, where).entries) || !SomeRowTakes(w, where)
            else ReadsAsFound(entries) && UntakenHold(w, entries, where)
  {
    if NamesRows(where) {
      GuardedExactly(w, entries, where);
    } else {
      DroppedExactly(w, entries, where);
    }
  }

  /** With no condition, the two agree exactly where no entry reads a column an earlier one sets. */
  lemma UnguardedExactly(w: World, entries: seq<Entry>)
    requires Distinct(entries)
    ensures FoundRowUpdate(entries, []) == Listed(entries, [])
    ensures Simultaneous(w, entries, []) <==> ReadsAsFound(entries)
  {
    SimultaneousExactly(w, entries, []);
    forall row ensures Takes(w, row, []) {
      assert ClauseTerms(w, row, []) == [];
    }
  }

  /** An update is refused exactly where its condition names rows and reads, or may read, two columns it sets. */
  lemma RefusedExactly(entries: seq<Entry>, where: seq<Clause>)
    ensures FoundRowUpdate(entries, where).Refused? <==> NamesRows(where) && ReadsTwo(FieldsOf(where), entries)
    ensures NamesRows(where) && FieldsOf(where).Unshown? ==> (FoundRowUpdate(entries, where).Refused?
                                                              <==> |entries| > 1)
  {
    ReadsTwoByCount(FieldsOf(where), entries);
    AllMayBeRead(entries);
  }

  ghost predicate ReadsTwo(shown: Reads, entries: seq<Entry>) {
    exists i, j :: 0 <= i < j < |entries| && IsRead(shown, entries[i]) && IsRead(shown, entries[j])
  }

  lemma ReadsTwoStep(shown: Reads, entries: seq<Entry>)
    requires entries != []
    ensures ReadsTwo(shown, entries) <==>
            ReadsTwo(shown, entries[1..]) || (IsRead(shown, entries[0]) && exists e ::
                                              e in entries[1..] && IsRead(shown, e))
  {
    var rest := entries[1..];
    if ReadsTwo(shown, entries) {
      var i, j :| 0 <= i < j < |entries| && IsRead(shown, entries[i]) && IsRead(shown, entries[j]);
      assert rest[j - 1] == entries[j] && rest[j - 1] in rest;
      assert i > 0 ==> rest[i - 1] == entries[i];
    }
    if ReadsTwo(shown, rest) {
      var i, j :| 0 <= i < j < |rest| && IsRead(shown, rest[i]) && IsRead(shown, rest[j]);
      assert rest[i] == entries[i + 1] && rest[j] == entries[j + 1];
    }
    if e :| IsRead(shown, entries[0]) && e in rest && IsRead(shown, e) {
      var k :| 0 <= k < |rest| && rest[k] == e;
      assert entries[k + 1] == e;
    }
  }

  lemma {:induction false} ReadsTwoByCount(shown: Reads, entries: seq<Entry>)
    ensures |ThoseRead(shown, entries, true)| > 1 <==> ReadsTwo(shown, entries)
  {
    if entries != [] {
      ReadsTwoByCount(shown, entries[1..]);
      ReadsTwoStep(shown, entries);
      ThoseReadHold(shown, entries[1..], true);
      EmptyOrHolds(ThoseRead(shown, entries[1..], true));
    }
  }

  lemma {:induction false} AllMayBeRead(entries: seq<Entry>)
    ensures ThoseRead(Unshown, entries, true) == entries && ThoseRead(Unshown, entries, false) == []
  {
    if entries != [] {
      AllMayBeRead(entries[1..]);
    }
  }

  lemma SameUpdate(
    engine: Engine, entries: seq<Entry>, list: seq<Entry>, takes: bool, found: Row, incoming: Row, all: Row, run: Row)
    requires forall e :: e in list <==> e in entries
    requires IsUpdated(engine, entries, true, found, incoming, found, all)
    requires IsUpdated(engine, list, takes, found, incoming, found, run)
    ensures SameRow(run, if takes then all else found)
  {
    forall c ensures ColumnOf(run, c) == ColumnOf(if takes then all else found, c) {
      if e :| e in entries && e.column == c {
        assert e in list;
      } else {
        assert forall e :: e in list ==> e.column != c;
      }
    }
  }

  // ----- where it does not hold -----

  /** The same rows and answers, but that no table has any row. */
  function EmptyWorld(dialect: Dialect): World {
    World(dialect, t => [], (a, b) => false, (v, p) => Null, (s, p) => false, (s, r, v) => Unknown, (s, r, v) => false)
  }

  /**
   * A condition of a relation narrowed by nothing names no rows, so MySQL's list drops it and sets a row that the
   * simultaneous forms, whose text holds an `EXISTS`, leave alone.
   */
  lemma BareRelationIsDropped(dialect: Dialect, engine: Engine, key: string, relation: Relation)
    ensures var where := [Related(key, relation, Where([]))];
            var entries := [Entry("a", Constant(Num(1)))];
            var w, found := EmptyWorld(dialect), map["a" := Num(0)];
            && FoundRowUpdate(entries, where) == Listed(entries, [])
            && ColumnOf(RunGuarded(w, engine, entries, [], found, map[]), "a") == Num(1)
            && ColumnOf(UpdateWhere(w, engine, entries, where, found, map[]), "a") == Num(0)
  {
    var where := [Related(key, relation, Where([]))];
    var entries := [Entry("a", Constant(Num(1)))];
    var w, found: Row := EmptyWorld(dialect), map["a" := Num(0)];
    assert where[1..] == [] && entries[1..] == [];
    assert !ClauseNames(where[0]) && !NamesRows(where);
    assert FoundRowUpdate(entries, where) == Listed(entries, []);
    assert ClauseTerms(w, found, []) == [] && Takes(w, found, []);
    var next := found["a" := Num(1)];
    assert RunGuarded(w, engine, [], [], next, map[]) == next;
    assert RunGuarded(w, engine, entries, [], found, map[]) == RunGuarded(w, engine, entries[1..], [], next, map[]);
    assert !HasRelated(w, found, relation, Where([]));
    assert ClauseMeaning(w, found, where[0]) == Condition(False);
    assert ClauseTerms(w, found, where) == [False];
    assert AllOf([False]) == False && !Takes(w, found, where);
  }

  /** Two columns set to each other's SQL, which the simultaneous forms swap and a list run in order does not. */
  lemma CrossReadingDiffers(w: World, engine: Engine, a: RawSql, b: RawSql)
    requires engine.sql(b, [Num(2)]) == Num(2) && engine.sql(a, [Num(1)]) == Num(1) && engine.sql(a, [Num(2)]) == Num(2)
    ensures var entries := [Entry("a", Computed(b, ["b"])), Entry("b", Computed(a, ["a"]))];
            var found := map["a" := Num(1), "b" := Num(2)];
            && Distinct(entries) && FoundRowUpdate(entries, []) == Listed(entries, [])
            && ColumnOf(SetAll(engine, entries, found, map[]), "b") == Num(1)
            && ColumnOf(RunGuarded(w, engine, entries, [], found, map[]), "b") == Num(2)
  {
    var entries := [Entry("a", Computed(b, ["b"])), Entry("b", Computed(a, ["a"]))];
    var found: Row := map["a" := Num(1), "b" := Num(2)];
    assert ColumnsOf(found, ["b"]) == [Num(2)] && ColumnsOf(found, ["a"]) == [Num(1)];
    var next := found["a" := Num(2)];
    assert ColumnsOf(next, ["a"]) == [Num(2)];
    assert ClauseTerms(w, found, []) == [] && ClauseTerms(w, next, []) == [];
    assert entries[1..] == [entries[1]] && entries[1..][1..] == [];
    assert RunGuarded(w, engine, entries, [], found, map[]) == RunGuarded(w, engine, entries[1..], [], next, map[]);
    assert RunGuarded(w, engine, entries[1..], [], next, map[])
        == RunGuarded(w, engine, entries[1..][1..], [], next["b" := Num(2)], map[]);
  }
}
