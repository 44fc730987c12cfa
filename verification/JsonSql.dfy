/**
 * SQL over JSON: what it computes from the document a column stores, and calls kept within the arguments they may take.
 */
module JsonSql {
  import opened Options
  import opened JsonDocuments

  datatype Fn = JsonSet | JsonReplace | JsonRemove

  /** Whose JSON functions SQL is written in. */
  datatype Flavor = Mysql | Sqlite | Postgres

  /** A path a call writes or removes, and what it writes there. */
  datatype Arg = Arg(path: Path, value: Sql)

  datatype Kind = IsArray | IsObject

  datatype Cond =
    | Is(path: Path, kind: Kind)
    | IsNull(path: Path)                       // null, or missing
    | Contains(path: Path, item: Json)
    | Either(left: Cond, right: Cond)

  datatype Sql =
    | Current                                  // the column as stored
    | Missing                                  // NULL
    | Constant(json: Json)                     // spelled in the SQL, which binds nothing
    | Bound(json: Json)                        // a value bound, and read as JSON
    | BoundArray(item: Json)                   // an array of one value bound
    | Extract(path: Path)                      // the value stored at a path, NULL where there is none
    | Coalesce(first: Sql, second: Sql)
    | Case(when: Cond, then': Sql, else': Sql)
    | KeptAt(path: Path, pulls: seq<Json>)     // the elements stored no pull equals, NULL where none is left
    | ArrayAppend(whole: Sql, item: Json)
    | MergePreserve(whole: Sql, added: Sql)
    | InsertLast(whole: Sql, unless: Option<Cond>, item: Json)  // SQLite's append to an array
    | Concat(first: Sql, second: Sql)                           // PostgreSQL's
    | Call(fn: Fn, target: Sql, args: seq<Arg>)
    | OneCall(fn: Fn, target: Sql, path: Path, value: Sql)      // PostgreSQL's call, of one path and strict

  // ----- meaning -----

  function Stored(stored: Option<Json>, path: Path): Option<Json> {
    if stored.None? then None else Get(stored.value, path)
  }

  /** The elements of an array, and none of anything else. */
  function Elements(v: Option<Json>): seq<Json> {
    if v.Some? && v.value.Arr? then v.value.items else []
  }

  predicate IsNullish(v: Option<Json>) {
    v.None? || v.value.Null?
  }

  predicate Met(cond: Cond, stored: Option<Json>) {
    match cond
    case Is(path, kind) =>
      var v := Stored(stored, path);
      v.Some? && (if kind.IsArray? then v.value.Arr? else v.value.Obj?)
    case IsNull(path) => IsNullish(Stored(stored, path))
    case Contains(path, item) => item in Elements(Stored(stored, path))
    case Either(left, right) => Met(left, stored) || Met(right, stored)
  }

  /** `items` without every element one of `pulls` equals. */
  function Without(items: seq<Json>, pulls: seq<Json>): seq<Json> {
    if items == [] then []
    else (if items[0] in pulls then [] else [items[0]]) + Without(items[1..], pulls)
  }

  /** A value an array function takes as an array: itself, or the one element it then has. */
  function AsArray(v: Json): seq<Json> {
    if v.Arr? then v.items else [v]
  }

  /** What the expression is over a column that stores `stored`, no value being NULL. */
  function Eval(sql: Sql, stored: Option<Json>): Option<Json>
    decreases sql
  {
    match sql
    case Current => stored
    case Missing => None
    case Constant(json) => Some(json)
    case Bound(json) => Some(json)
    case BoundArray(item) => Some(Arr([item]))
    case Extract(path) => Stored(stored, path)
    case Coalesce(first, second) =>
      var v := Eval(first, stored);
      if v.Some? then v else Eval(second, stored)
    case Case(when, then', else') => if Met(when, stored) then Eval(then', stored) else Eval(else', stored)
    case KeptAt(path, pulls) =>
      var kept := Without(Elements(Stored(stored, path)), pulls);
      if kept == [] then None else Some(Arr(kept))
    case ArrayAppend(whole, item) =>
      var v := Eval(whole, stored);
      if v.None? then None else Some(Arr(AsArray(v.value) + [item]))
    case MergePreserve(whole, added) =>
      var v, a := Eval(whole, stored), Eval(added, stored);
      if v.None? || a.None? then None else Some(Arr(AsArray(v.value) + AsArray(a.value)))
    case InsertLast(whole, unless, item) =>
      var v := Eval(whole, stored);
      if v.None? || !v.value.Arr? || (unless.Some? && Met(unless.value, stored)) then v
      else Some(Arr(v.value.items + [item]))
    case Concat(first, second) =>
      var a, b := Eval(first, stored), Eval(second, stored);
      if a.None? || b.None? then None else Some(Arr(AsArray(a.value) + AsArray(b.value)))
    case Call(fn, target, args) =>
      var doc := Eval(target, stored);
      if doc.None? then None else Some(Applied(fn, doc.value, args, stored))
    case OneCall(fn, target, path, value) =>
      var doc, v := Eval(target, stored), Eval(value, stored);
      if doc.None? || (v.None? && !fn.JsonRemove?) then None else Some(Step(fn, doc.value, path, v))
  }

  /** One write of a call: NULL is written as JSON's null, and the empty path is the document. */
  function Step(fn: Fn, doc: Json, path: Path, v: Option<Json>): Json {
    var written := if v.None? then Null else v.value;
    match fn
    case JsonSet => if path == [] then written else Put(doc, path, written)
    case JsonReplace => if path == [] then written else Replace(doc, path, written)
    case JsonRemove => if path == [] then doc else Remove(doc, path)
  }

  /** A call's writes from left to right, each value read off the column as stored. */
  function Applied(fn: Fn, doc: Json, args: seq<Arg>, stored: Option<Json>): Json
    decreases args
  {
    if args == [] then doc
    else Applied(fn, Step(fn, doc, args[0].path, Eval(args[0].value, stored)), args[1..], stored)
  }

  lemma {:induction false} AppliedInTurn(fn: Fn, doc: Json, a: seq<Arg>, b: seq<Arg>, stored: Option<Json>)
    ensures Applied(fn, doc, a + b, stored) == Applied(fn, Applied(fn, doc, a, stored), b, stored)
    decreases |a|
  {
    if a == [] {
      assert a + b == b;
    } else {
      assert (a + b)[0] == a[0] && (a + b)[1..] == a[1..] + b;
      AppliedInTurn(fn, Step(fn, doc, a[0].path, Eval(a[0].value, stored)), a[1..], b, stored);
    }
  }

  // ----- calls nested within their arguments -----

  /** The arguments each group of a call takes: a path, and its value unless it is removed. */
  function SizeOf(fn: Fn): nat {
    if fn.JsonRemove? then 1 else 2
  }

  /** The groups of `size` arguments a call of `maxArgs` has room for once it has its target, one at the least. */
  function GroupsPerCall(maxArgs: nat, size: nat): nat
    requires size > 0
  {
    var fitting := (maxArgs as int - 1) / size;
    if fitting > 1 then fitting else 1
  }

  function PerCall(maxArgs: Option<nat>, fn: Fn, count: nat): (per: nat)
    ensures per > 0
  {
    if maxArgs.Some? then GroupsPerCall(maxArgs.value, SizeOf(fn)) else count + 1
  }

  /** The shares of `groups` each call takes, first to last. */
  function Shares(groups: seq<Arg>, per: nat): seq<seq<Arg>>
    requires per > 0
    decreases |groups|
  {
    if groups == [] then []
    else if |groups| <= per then [groups]
    else [groups[..per]] + Shares(groups[per..], per)
  }

  /** A call of each share around the call before it. */
  function Nested(fn: Fn, target: Sql, shares: seq<seq<Arg>>): Sql
    decreases |shares|
  {
    if shares == [] then target else Nested(fn, Call(fn, target, shares[0]), shares[1..])
  }

  function Chained(fn: Fn, target: Sql, groups: seq<Arg>, maxArgs: Option<nat>): Sql {
    Nested(fn, target, Shares(groups, PerCall(maxArgs, fn, |groups|)))
  }

  method ChainedCall(fn: Fn, target: Sql, groups: seq<Arg>, maxArgs: Option<nat>) returns (call: Sql)
    ensures call == Chained(fn, target, groups, maxArgs)
  {
    var perCall := PerCall(maxArgs, fn, |groups|);
    call := target;
    var at := 0;
    assert groups[0..] == groups;
    while at < |groups|
      invariant 0 <= at
      invariant Nested(fn, call, Shares(if at <= |groups| then groups[at..] else [], perCall))
             == Chained(fn, target, groups, maxArgs)
    {
      var end := if at + perCall < |groups| then at + perCall else |groups|;
      var left := groups[at..];
      assert |left| <= perCall ==> left == groups[at..end];
      assert |left| > perCall ==> left[..perCall] == groups[at..end] && left[perCall..] == groups[end..];
      assert Shares(left, perCall)[0] == groups[at..end];
      assert Shares(left, perCall)[1..] == Shares(if at + perCall <= |groups| then groups[at + perCall..]
                                                  else [], perCall);
      call := Call(fn, call, groups[at..end]);
      at := at + perCall;
    }
  }

  function Whole(shares: seq<seq<Arg>>): seq<Arg> {
    if shares == [] then [] else shares[0] + Whole(shares[1..])
  }

  /** No group is split, lost, repeated or moved: the shares are the groups, and no call takes none. */
  lemma {:induction false} SharesAreWhole(groups: seq<Arg>, per: nat)
    requires per > 0
    ensures Whole(Shares(groups, per)) == groups
    ensures forall share :: share in Shares(groups, per) ==> 0 < |share| <= per
    decreases |groups|
  {
    if groups != [] && |groups| <= per {
      assert Shares(groups, per)[1..] == [];
    } else if groups != [] {
      SharesAreWhole(groups[per..], per);
      assert Shares(groups, per)[1..] == Shares(groups[per..], per);
      assert groups == groups[..per] + groups[per..];
    }
  }

  predicate Fits(fn: Fn, shares: seq<seq<Arg>>, maxArgs: nat) {
    forall share :: share in shares ==> 1 + SizeOf(fn) * |share| <= maxArgs
  }

  /** Every call takes at most `maxArgs` arguments, unless a target and one group are already more. */
  lemma ChainedFits(fn: Fn, groups: seq<Arg>, maxArgs: nat)
    ensures Fits(fn, Shares(groups, PerCall(Some(maxArgs), fn, |groups|)), maxArgs)
            <==> groups == [] || SizeOf(fn) + 1 <= maxArgs
  {
    var per := PerCall(Some(maxArgs), fn, |groups|);
    var shares := Shares(groups, per);
    SharesAreWhole(groups, per);
    if groups != [] {
      assert shares[0] in shares;
    }
  }

  /** However the groups are shared among calls, nesting them applies each group in order. */
  lemma {:induction false} NestedMeans(fn: Fn, target: Sql, shares: seq<seq<Arg>>, stored: Option<Json>)
    ensures Eval(Nested(fn, target, shares), stored) ==
              if Eval(target, stored).None? then None
              else Some(Applied(fn, Eval(target, stored).value, Whole(shares), stored))
    decreases |shares|
  {
    if shares != [] {
      NestedMeans(fn, Call(fn, target, shares[0]), shares[1..], stored);
      if Eval(target, stored).Some? {
        AppliedInTurn(fn, Eval(target, stored).value, shares[0], Whole(shares[1..]), stored);
      }
    }
  }

  lemma ChainedMeans(fn: Fn, target: Sql, groups: seq<Arg>, maxArgs: Option<nat>, stored: Option<Json>)
    ensures Eval(Chained(fn, target, groups, maxArgs), stored) ==
              if Eval(target, stored).None? then None
              else Some(Applied(fn, Eval(target, stored).value, groups, stored))
  {
    var per := PerCall(maxArgs, fn, |groups|);
    SharesAreWhole(groups, per);
    NestedMeans(fn, target, Shares(groups, per), stored);
  }

  // ----- PostgreSQL's calls -----

  /** A value handed to a strict call: a replacing one is given JSON's null in place of none. */
  function Strictly(fn: Fn, value: Sql): Sql {
    if fn.JsonReplace? then Coalesce(value, Constant(Null)) else value
  }

  /** A call for each path around the call before it. */
  function OneByOne(fn: Fn, target: Sql, groups: seq<Arg>): Sql
    decreases |groups|
  {
    if groups == [] then target
    else OneByOne(fn, OneCall(fn, target, groups[0].path, Strictly(fn, groups[0].value)), groups[1..])
  }

  /** The flavor SQL is written in, and the arguments its calls may take. */
  datatype Form = Form(flavor: Flavor, maxArgs: Option<nat>)

  function Written(form: Form, fn: Fn, target: Sql, groups: seq<Arg>): Sql {
    if form.flavor.Postgres? then OneByOne(fn, target, groups) else Chained(fn, target, groups, form.maxArgs)
  }

  /** Every value is one over the column as stored. */
  ghost predicate NoneIsNull(groups: seq<Arg>, stored: Option<Json>) {
    forall i :: 0 <= i < |groups| ==> Eval(groups[i].value, stored).Some?
  }

  /** Strict calls one by one leave what the calls of many leave, where no value set is NULL. */
  lemma {:induction false} OneByOneMeans(fn: Fn, target: Sql, groups: seq<Arg>, stored: Option<Json>)
    requires fn.JsonSet? ==> NoneIsNull(groups, stored)
    ensures Eval(OneByOne(fn, target, groups), stored) ==
              if Eval(target, stored).None? then None
              else Some(Applied(fn, Eval(target, stored).value, groups, stored))
    decreases |groups|
  {
    if groups != [] {
      var g := groups[0];
      var call := OneCall(fn, target, g.path, Strictly(fn, g.value));
      var v := Eval(g.value, stored);
      assert Eval(Strictly(fn, g.value), stored) == if fn.JsonReplace? && v.None? then Some(Null) else v;
      assert Eval(call, stored) ==
        if Eval(target, stored).None? then None else Some(Step(fn, Eval(target, stored).value, g.path, v));
      OneByOneMeans(fn, call, groups[1..], stored);
    }
  }

  lemma WrittenMeans(form: Form, fn: Fn, target: Sql, groups: seq<Arg>, stored: Option<Json>)
    requires fn.JsonSet? ==> NoneIsNull(groups, stored)
    ensures Eval(Written(form, fn, target, groups), stored) ==
              if Eval(target, stored).None? then None
              else Some(Applied(fn, Eval(target, stored).value, groups, stored))
  {
    if form.flavor.Postgres? {
      OneByOneMeans(fn, target, groups, stored);
    } else {
      ChainedMeans(fn, target, groups, form.maxArgs, stored);
    }
  }
}
