/** Rows grouped by what they hold, and values aggregated over a group. */
module Grouping {
  import opened Values

  /** The rows whose key is `k`, or those whose is not. */
  function Alike<R>(keyOf: R -> seq<Value>, k: seq<Value>, rows: seq<R>, same: bool): (kept: seq<R>)
    ensures |kept| <= |rows|
  {
    if rows == [] then []
    else if (keyOf(rows[0]) == k) == same then [rows[0]] + Alike(keyOf, k, rows[1..], same)
    else Alike(keyOf, k, rows[1..], same)
  }

  /** The groups of `rows`, one for each key, where it first comes. */
  function GroupsOf<R>(keyOf: R -> seq<Value>, rows: seq<R>): seq<seq<R>>
    decreases |rows|
  {
    if rows == [] then []
    else
      var k := keyOf(rows[0]);
      [Alike(keyOf, k, rows, true)] + GroupsOf(keyOf, Alike(keyOf, k, rows, false))
  }

  /** The groups a statement aggregates: one of all the rows, though there are none, where it names no key. */
  function GroupedBy<R>(keyed: bool, keyOf: R -> seq<Value>, rows: seq<R>): seq<seq<R>> {
    if keyed then GroupsOf(keyOf, rows) else [rows]
  }

  function Mapped<R, S>(f: R -> S, rows: seq<R>): (mapped: seq<S>)
    ensures |mapped| == |rows|
  {
    if rows == [] then [] else [f(rows[0])] + Mapped(f, rows[1..])
  }

  function MappedEach<R, S>(f: R -> S, groups: seq<seq<R>>): (mapped: seq<seq<S>>)
    ensures |mapped| == |groups|
  {
    if groups == [] then [] else [Mapped(f, groups[0])] + MappedEach(f, groups[1..])
  }

  lemma {:induction false} AlikeMapped<R, S>(
    f: R -> S, keyOf: R -> seq<Value>, keyOf': S -> seq<Value>, k: seq<Value>, rows: seq<R>, same: bool)
    requires forall r :: r in rows ==> keyOf'(f(r)) == keyOf(r)
    ensures Alike(keyOf', k, Mapped(f, rows), same) == Mapped(f, Alike(keyOf, k, rows, same))
  {
    if rows != [] {
      AlikeMapped(f, keyOf, keyOf', k, rows[1..], same);
      assert rows[0] in rows && Mapped(f, rows)[1..] == Mapped(f, rows[1..]);
      var kept := Alike(keyOf, k, rows, same);
      if (keyOf(rows[0]) == k) == same {
        assert kept[1..] == Alike(keyOf, k, rows[1..], same);
      }
    }
  }

  lemma {:induction false} AlikeIsSome<R>(keyOf: R -> seq<Value>, k: seq<Value>, rows: seq<R>, same: bool)
    ensures forall r :: r in Alike(keyOf, k, rows, same) ==> r in rows && (keyOf(r) == k) == same
  {
    if rows != [] {
      AlikeIsSome(keyOf, k, rows[1..], same);
    }
  }

  /** Grouping what rows are written as is writing their groups, where what they are written as has their keys. */
  lemma {:induction false} GroupsMapped<R, S>(f: R -> S, keyOf: R -> seq<Value>, keyOf': S -> seq<Value>, rows: seq<R>)
    requires forall r :: r in rows ==> keyOf'(f(r)) == keyOf(r)
    ensures GroupsOf(keyOf', Mapped(f, rows)) == MappedEach(f, GroupsOf(keyOf, rows))
    decreases |rows|
  {
    if rows != [] {
      var k := keyOf(rows[0]);
      assert rows[0] in rows;
      AlikeMapped(f, keyOf, keyOf', k, rows, true);
      AlikeMapped(f, keyOf, keyOf', k, rows, false);
      AlikeIsSome(keyOf, k, rows, false);
      GroupsMapped(f, keyOf, keyOf', Alike(keyOf, k, rows, false));
      assert GroupsOf(keyOf, rows)[1..] == GroupsOf(keyOf, Alike(keyOf, k, rows, false));
    }
  }

  /** A group's rows are of the rows, and have one key. */
  lemma {:induction false} GroupHasOneKey<R>(keyOf: R -> seq<Value>, rows: seq<R>)
    ensures forall g :: g in GroupsOf(keyOf, rows) ==>
              g != [] && forall r :: r in g ==> r in rows && keyOf(r) == keyOf(g[0])
    decreases |rows|
  {
    if rows != [] {
      var k := keyOf(rows[0]);
      AlikeIsSome(keyOf, k, rows, true);
      AlikeIsSome(keyOf, k, rows, false);
      GroupHasOneKey(keyOf, Alike(keyOf, k, rows, false));
      forall g | g in GroupsOf(keyOf, rows)
        ensures g != [] && forall r :: r in g ==> r in rows && keyOf(r) == keyOf(g[0])
      {
        if g == Alike(keyOf, k, rows, true) {
          assert g[0] == rows[0];
        }
      }
    }
  }

  // ----- aggregates -----

  datatype AggregateOp = Count | Sum | Avg | Min | Max

  function NotNull(values: seq<Value>): seq<Value> {
    if values == [] then []
    else if values[0].Null? then NotNull(values[1..])
    else [values[0]] + NotNull(values[1..])
  }

  /** Each value once, where it first comes. */
  function Distinct(values: seq<Value>, seen: set<Value>): seq<Value> {
    if values == [] then []
    else if values[0] in seen then Distinct(values[1..], seen)
    else [values[0]] + Distinct(values[1..], seen + {values[0]})
  }

  /** An aggregate over values, NULLs skipped; `reduce` is what the engine makes of what is left. */
  function Aggregated(
    reduce: (AggregateOp, seq<Value>) -> Value, op: AggregateOp, distinct: bool, values: seq<Value>): Value
  {
    var given := NotNull(values);
    var left := if distinct then Distinct(given, {}) else given;
    if op.Count? then Num(|left|) else reduce(op, left)
  }
}
