/** The columns a `$where` reads, as far as the query shows them. */
module FieldsRead {
  import opened Values
  import opened Filters

  /** The columns read, or none where something read is not shown: raw SQL, a relation, a `$` key. */
  datatype Reads = Unshown | Shown(fields: set<string>)

  function Together(a: Reads, b: Reads): Reads {
    if a.Shown? && b.Shown? then Shown(a.fields + b.fields) else Unshown
  }

  function OperandColumns(x: Operand): set<string> {
    if x.Ref? then {x.column} else {}
  }

  function OperandsColumns(xs: seq<Operand>): set<string> {
    set x | x in xs && x.Ref? :: x.column
  }

  function OpColumns(op: FieldOp): set<string>
    decreases op, 1
  {
    match op
    case Comparison(_, x) => OperandColumns(x)
    case Between(min, max) => OperandColumns(min) + OperandColumns(max)
    case In(xs, _) => OperandsColumns(xs)
    case NotOp(val) => ValColumns(val)
    case _ => {}
  }

  function ValColumns(val: FieldVal): set<string>
    decreases val, 0
  {
    match val
    case One(x) => OperandColumns(x)
    case Many(xs) => OperandsColumns(xs)
    case OpMap(ops) => OpsColumns(ops)
  }

  function OpsColumns(ops: seq<FieldOp>): set<string>
    decreases ops, 0
  {
    if ops == [] then {} else OpColumns(ops[0]) + OpsColumns(ops[1..])
  }

  function ClauseColumns(c: Clause): Reads
    decreases c, 1
  {
    match c
    case Group(_, items) => ItemsColumns(items)
    case Field(name, val) => Shown({name} + ValColumns(val))
    case Json(name, _, val) => Shown({name} + ValColumns(val))
    case _ => Unshown
  }

  function FieldsOf(cs: seq<Clause>): Reads
    decreases cs, 0
  {
    if cs == [] then Shown({}) else Together(ClauseColumns(cs[0]), FieldsOf(cs[1..]))
  }

  function ItemsColumns(items: seq<Item>): Reads
    decreases items, 0
  {
    if items == [] then Shown({}) else Together(ItemColumns(items[0]), ItemsColumns(items[1..]))
  }

  function ItemColumns(item: Item): Reads
    decreases item, 0
  {
    match item
    case RawItem(_) => Unshown
    case Nested(where) => FieldsOf(where.clauses)
  }

  // ----- what is read decides -----

  /** Two rows hold the same in each of `fields`. */
  ghost predicate Agree(a: Row, b: Row, fields: set<string>) {
    forall f :: f in fields ==> ColumnOf(a, f) == ColumnOf(b, f)
  }

  lemma OperandsAgree(w: World, a: Row, b: Row, xs: seq<Operand>)
    requires Agree(a, b, OperandsColumns(xs))
    ensures OperandValues(w, a, xs) == OperandValues(w, b, xs)
  {
    forall i | 0 <= i < |xs| ensures OperandValue(w, a, xs[i]) == OperandValue(w, b, xs[i]) {
      if xs[i].Ref? {
        assert xs[i] in xs && xs[i].column in OperandsColumns(xs);
      }
    }
  }

  lemma {:induction false} OpAgrees(w: World, a: Row, b: Row, v: Value, op: FieldOp)
    requires Agree(a, b, OpColumns(op))
    ensures OpMeaning(w, a, v, op) == OpMeaning(w, b, v, op)
    decreases op, 1
  {
    match op
    case Comparison(_, x) => assert x.Ref? ==> x.column in OpColumns(op);
    case Between(min, max) =>
      assert min.Ref? ==> min.column in OpColumns(op);
      assert max.Ref? ==> max.column in OpColumns(op);
    case In(xs, _) => OperandsAgree(w, a, b, xs);
    case NotOp(val) => ValAgrees(w, a, b, v, val);
    case NullCheck(_) =>
    case Like(_, _, _) =>
    case Regex(_) =>
    case Malformed =>
  }

  lemma {:induction false} ValAgrees(w: World, a: Row, b: Row, v: Value, val: FieldVal)
    requires Agree(a, b, ValColumns(val))
    ensures ValMeanings(w, a, v, val) == ValMeanings(w, b, v, val)
    decreases val, 0
  {
    match val
    case One(x) => assert x.Ref? ==> x.column in ValColumns(val);
    case Many(xs) => OperandsAgree(w, a, b, xs);
    case OpMap(ops) => OpsAgree(w, a, b, v, ops);
  }

  lemma {:induction false} OpsAgree(w: World, a: Row, b: Row, v: Value, ops: seq<FieldOp>)
    requires Agree(a, b, OpsColumns(ops))
    ensures OpMeanings(w, a, v, ops) == OpMeanings(w, b, v, ops)
    decreases ops, 0
  {
    if ops != [] {
      OpAgrees(w, a, b, v, ops[0]);
      OpsAgree(w, a, b, v, ops[1..]);
    }
  }

  lemma {:induction false} ClauseAgrees(w: World, a: Row, b: Row, c: Clause)
    requires ClauseColumns(c).Shown? && Agree(a, b, ClauseColumns(c).fields)
    ensures ClauseMeaning(w, a, c) == ClauseMeaning(w, b, c)
    decreases c, 1
  {
    match c
    case Group(_, items) => ItemsAgree(w, a, b, items);
    case Field(name, val) =>
      assert name in ClauseColumns(c).fields;
      ValAgrees(w, a, b, ColumnOf(a, name), val);
    case Json(name, path, val) =>
      assert name in ClauseColumns(c).fields;
      ValAgrees(w, a, b, w.path(ColumnOf(a, name), path), val);
  }

  /**
   * What `fieldsRead` names is all the condition's truth depends on: rows alike in those columns are alike in every
   * clause of it, unknown ones included.
   */
  lemma {:induction false} FieldsReadDecide(w: World, a: Row, b: Row, cs: seq<Clause>)
    requires FieldsOf(cs).Shown? && Agree(a, b, FieldsOf(cs).fields)
    ensures ClauseTerms(w, a, cs) == ClauseTerms(w, b, cs)
    decreases cs, 0
  {
    if cs != [] {
      ClauseAgrees(w, a, b, cs[0]);
      FieldsReadDecide(w, a, b, cs[1..]);
    }
  }

  lemma {:induction false} ItemsAgree(w: World, a: Row, b: Row, items: seq<Item>)
    requires ItemsColumns(items).Shown? && Agree(a, b, ItemsColumns(items).fields)
    ensures ItemTerms(w, a, items) == ItemTerms(w, b, items)
    decreases items, 0
  {
    if items != [] {
      ItemAgrees(w, a, b, items[0]);
      ItemsAgree(w, a, b, items[1..]);
    }
  }

  lemma {:induction false} ItemAgrees(w: World, a: Row, b: Row, item: Item)
    requires ItemColumns(item).Shown? && Agree(a, b, ItemColumns(item).fields)
    ensures ItemMeaning(w, a, item) == ItemMeaning(w, b, item)
    decreases item, 0
  {
    FieldsReadDecide(w, a, b, item.where.clauses);
  }

  // ----- the walk -----

  /** The set one walk of a `$where` fills. */
  class Walk {
    var read: set<string>

    constructor ()
      ensures read == {}
    {
      read := {};
    }

    method ReadsClauses(cs: seq<Clause>) returns (shown: bool)
      modifies this
      ensures shown == FieldsOf(cs).Shown?
      ensures shown ==> read == old(read) + FieldsOf(cs).fields
      decreases cs, 0
    {
      for i := 0 to |cs|
        invariant FieldsOf(cs).Shown? <==> FieldsOf(cs[i..]).Shown?
        invariant FieldsOf(cs).Shown? ==> old(read) + FieldsOf(cs).fields == read + FieldsOf(cs[i..]).fields
      {
        assert cs[i..][0] == cs[i] && cs[i..][1..] == cs[i + 1..];
        var ok := ReadsClause(cs[i]);
        if !ok {
          return false;
        }
      }
      return true;
    }

    method ReadsClause(c: Clause) returns (shown: bool)
      modifies this
      ensures shown == ClauseColumns(c).Shown?
      ensures shown ==> read == old(read) + ClauseColumns(c).fields
      decreases c, 1
    {
      match c
      case Group(_, items) => shown := ReadsItems(items);
      case Field(name, val) =>
        read := read + {name} + ValColumns(val);
        shown := true;
      case Json(name, _, val) =>
        read := read + {name} + ValColumns(val);
        shown := true;
      case Exists(_, _) => shown := false;
      case TextSearch(_) => shown := false;
      case Related(_, _, _) => shown := false;
    }

    method ReadsItems(items: seq<Item>) returns (shown: bool)
      modifies this
      ensures shown == ItemsColumns(items).Shown?
      ensures shown ==> read == old(read) + ItemsColumns(items).fields
      decreases items, 0
    {
      for i := 0 to |items|
        invariant ItemsColumns(items).Shown? <==> ItemsColumns(items[i..]).Shown?
        invariant ItemsColumns(items).Shown? ==>
                    old(read) + ItemsColumns(items).fields == read + ItemsColumns(items[i..]).fields
      {
        assert items[i..][0] == items[i] && items[i..][1..] == items[i + 1..];
        var ok := ReadsItem(items[i]);
        if !ok {
          return false;
        }
      }
      return true;
    }

    method ReadsItem(item: Item) returns (shown: bool)
      modifies this
      ensures shown == ItemColumns(item).Shown?
      ensures shown ==> read == old(read) + ItemColumns(item).fields
      decreases item, 0
    {
      match item
      case RawItem(_) => shown := false;
      case Nested(where) => shown := ReadsClauses(where.clauses);
    }
  }

  /** The columns `where` reads, gathered by one walk of it. */
  method GatherFields(where: Where) returns (r: Reads)
    ensures r == FieldsOf(where.clauses)
  {
    var walk := new Walk();
    var shown := walk.ReadsClauses(where.clauses);
    r := if shown then Shown(walk.read) else Unshown;
  }
}
