/** A grouped query's filter on a relation it joins, moved from its `$where` into that relation's join. */
module GroupJoins {
  import opened Ternary
  import opened Values
  import opened SqlText
  import opened Filters
  import opened Sequences

  /** An `INNER` join: its path from the queried entity, its table's alias and its parent's, and its own filter. */
  datatype Join = Join(path: seq<string>, alias: string, parent: string, relation: Relation, filter: seq<Clause>)

  ghost predicate IsTrue(w: World, row: Row, cs: seq<Clause>) {
    AllOf(ClauseTerms(w, row, cs)) == True
  }

  ghost predicate IsRelated(w: World, relation: Relation, row: Row, other: Row) {
    AllOf(Correlation(w, relation.references, row, other)) == True
  }

  // ----- the rows of a statement -----

  /** The rows one is joined with: those its `ON` is true of. */
  ghost function JoinedWith(w: World, join: Join, scope: Scope, others: seq<Row>): seq<Scope> {
    if others == [] then []
    else
      var rest := JoinedWith(w, join, scope, others[1..]);
      var on := Correlation(w, join.relation.references, RowAt(scope, join.parent), others[0])
                + ClauseTerms(w, others[0], join.filter);
      if AllOf(on) == True then [scope[CaseFolded(join.alias) := others[0]]] + rest else rest
  }

  ghost function JoinedEach(w: World, join: Join, scopes: seq<Scope>): seq<Scope> {
    if scopes == [] then []
    else JoinedWith(w, join, scopes[0], w.rows(join.relation.table)) + JoinedEach(w, join, scopes[1..])
  }

  ghost function JoinAll(w: World, joins: seq<Join>, scopes: seq<Scope>): seq<Scope>
    decreases |joins|
  {
    if joins == [] then scopes else JoinAll(w, joins[1..], JoinedEach(w, joins[0], scopes))
  }

  /** The rows a condition is true of, read of the table at `alias`. */
  ghost function Filtered(w: World, alias: string, cs: seq<Clause>, scopes: seq<Scope>): seq<Scope> {
    if scopes == [] then []
    else
      var rest := Filtered(w, alias, cs, scopes[1..]);
      if IsTrue(w, RowAt(scopes[0], alias), cs) then [scopes[0]] + rest else rest
  }

  /** `FROM root JOIN ... WHERE where`. */
  ghost function RowsOf(w: World, root: string, joins: seq<Join>, where: seq<Clause>, scopes: seq<Scope>): seq<Scope> {
    Filtered(w, root, where, JoinAll(w, joins, scopes))
  }

  // ----- what moves -----

  /** Where the join of a relation of the queried entity is. */
  function JoinAt(joins: seq<Join>, key: string): (i: nat)
    ensures i <= |joins| && (i < |joins| ==> joins[i].path == [key])
  {
    if joins == [] || joins[0].path == [key] then 0 else 1 + JoinAt(joins[1..], key)
  }

  predicate Moves(joins: seq<Join>, c: Clause) {
    c.Related? && JoinAt(joins, c.key) < |joins|
  }

  datatype Resolved = Resolved(joins: seq<Join>, where: seq<Clause>)

  function Narrowed(joins: seq<Join>, c: Clause): seq<Join>
    requires Moves(joins, c)
  {
    var i := JoinAt(joins, c.key);
    joins[i := joins[i].(filter := c.where.clauses)]
  }

  /** Each top-level filter moved into its relation's join, where it has one, and the clauses that stay. */
  function Resolve(joins: seq<Join>, where: seq<Clause>): Resolved
    decreases |where|
  {
    if where == [] then Resolved(joins, [])
    else if Moves(joins, where[0]) then Resolve(Narrowed(joins, where[0]), where[1..])
    else
      var rest := Resolve(joins, where[1..]);
      Resolved(rest.joins, [where[0]] + rest.where)
  }

  method ResolveGroupJoins(joined: seq<Join>, q: seq<Clause>) returns (joins: seq<Join>, where: seq<Clause>)
    ensures Resolved(joins, where) == Resolve(joined, q)
  {
    joins := joined;
    where := [];
    assert q[0..] == q;
    for i := 0 to |q|
      invariant Resolve(joined, q).joins == Resolve(joins, q[i..]).joins
      invariant Resolve(joined, q).where == where + Resolve(joins, q[i..]).where
    {
      assert q[i..][0] == q[i] && q[i..][1..] == q[i + 1..];
      if Moves(joins, q[i]) {
        joins := Narrowed(joins, q[i]);
      } else {
        where := where + [q[i]];
      }
    }
  }

  // ----- filters and joins commute -----

  predicate DistinctAliases(root: string, joins: seq<Join>) {
    && (forall i :: 0 <= i < |joins| ==> CaseFolded(joins[i].alias) != CaseFolded(root))
    && (forall i, j :: 0 <= i < j < |joins| ==> CaseFolded(joins[i].alias) != CaseFolded(joins[j].alias))
  }

  lemma {:induction false} FilteredConcat(w: World, alias: string, cs: seq<Clause>, a: seq<Scope>, b: seq<Scope>)
    ensures Filtered(w, alias, cs, a + b) == Filtered(w, alias, cs, a) + Filtered(w, alias, cs, b)
    decreases |a|
  {
    if a == [] {
      NothingBefore(b);
      NothingBefore(Filtered(w, alias, cs, b));
    } else {
      HeadAndTail(a, b);
      assert (a + b)[0] == a[0];
      FilteredConcat(w, alias, cs, a[1..], b);
      Regroup([a[0]], Filtered(w, alias, cs, a[1..]), Filtered(w, alias, cs, b));
    }
  }

  /** A join's own filter is of its own rows. */
  lemma {:induction false} OwnFilter(w: World, join: Join, scope: Scope, others: seq<Row>)
    ensures JoinedWith(w, join, scope, others)
         == Filtered(w, join.alias, join.filter, JoinedWith(w, join.(filter := []), scope, others))
  {
    if others != [] {
      OwnFilter(w, join, scope, others[1..]);
      var on := Correlation(w, join.relation.references, RowAt(scope, join.parent), others[0]);
      AllOfConcat(on, ClauseTerms(w, others[0], join.filter));
      assert on + ClauseTerms(w, others[0], []) == on;
      var next := scope[CaseFolded(join.alias) := others[0]];
      assert RowAt(next, join.alias) == others[0];
      var bare := JoinedWith(w, join.(filter := []), scope, others);
      if AllOf(on) == True {
        assert bare[0] == next && bare[1..] == JoinedWith(w, join.(filter := []), scope, others[1..]);
      }
    }
  }

  lemma {:induction false} OwnFilterOfEach(w: World, join: Join, scopes: seq<Scope>)
    ensures JoinedEach(w, join, scopes) == Filtered(w, join.alias, join.filter,
                                                    JoinedEach(w, join.(filter := []), scopes))
  {
    if scopes != [] {
      var others := w.rows(join.relation.table);
      OwnFilter(w, join, scopes[0], others);
      OwnFilterOfEach(w, join, scopes[1..]);
      FilteredConcat(w, join.alias, join.filter, JoinedWith(w, join.(filter := []), scopes[0], others),
                     JoinedEach(w, join.(filter := []), scopes[1..]));
    }
  }

  /** A filter of another table is as true of every row one is joined with. */
  lemma {:induction false} FilterPastRows(
    w: World, alias: string, cs: seq<Clause>, join: Join, scope: Scope, others: seq<Row>)
    requires CaseFolded(alias) != CaseFolded(join.alias)
    ensures Filtered(w, alias, cs, JoinedWith(w, join, scope, others))
         == if IsTrue(w, RowAt(scope, alias), cs) then JoinedWith(w, join, scope, others) else []
  {
    if others != [] {
      FilterPastRows(w, alias, cs, join, scope, others[1..]);
      assert RowAt(scope[CaseFolded(join.alias) := others[0]], alias) == RowAt(scope, alias);
      var all, rest := JoinedWith(w, join, scope, others), JoinedWith(w, join, scope, others[1..]);
      assert all == rest || (all[0] == scope[CaseFolded(join.alias) := others[0]] && all[1..] == rest);
    }
  }

  lemma {:induction false} FilterPastJoin(w: World, alias: string, cs: seq<Clause>, join: Join, scopes: seq<Scope>)
    requires CaseFolded(alias) != CaseFolded(join.alias)
    ensures JoinedEach(w, join, Filtered(w, alias, cs, scopes)) == Filtered(w, alias, cs, JoinedEach(w, join, scopes))
  {
    if scopes != [] {
      var others := w.rows(join.relation.table);
      FilterPastJoin(w, alias, cs, join, scopes[1..]);
      FilterPastRows(w, alias, cs, join, scopes[0], others);
      FilteredConcat(w, alias, cs, JoinedWith(w, join, scopes[0], others), JoinedEach(w, join, scopes[1..]));
      var kept := Filtered(w, alias, cs, scopes);
      if IsTrue(w, RowAt(scopes[0], alias), cs) {
        assert kept[0] == scopes[0] && kept[1..] == Filtered(w, alias, cs, scopes[1..]);
      }
    }
  }

  lemma {:induction false} FilterPastJoins(
    w: World, alias: string, cs: seq<Clause>, joins: seq<Join>, scopes: seq<Scope>)
    requires forall i :: 0 <= i < |joins| ==> CaseFolded(joins[i].alias) != CaseFolded(alias)
    ensures JoinAll(w, joins, Filtered(w, alias, cs, scopes)) == Filtered(w, alias, cs, JoinAll(w, joins, scopes))
    decreases |joins|
  {
    if joins != [] {
      FilterPastJoin(w, alias, cs, joins[0], scopes);
      FilterPastJoins(w, alias, cs, joins[1..], JoinedEach(w, joins[0], scopes));
    }
  }

  /** A join's filter may as well be applied once everything is joined. */
  lemma {:induction false} FilterLast(
    w: World, root: string, joins: seq<Join>, i: nat, cs: seq<Clause>, scopes: seq<Scope>)
    requires i < |joins| && joins[i].filter == [] && DistinctAliases(root, joins)
    ensures JoinAll(w, joins[i := joins[i].(filter := cs)], scopes)
         == Filtered(w, joins[i].alias, cs, JoinAll(w, joins, scopes))
    decreases |joins|
  {
    var narrowed := joins[i := joins[i].(filter := cs)];
    if i == 0 {
      var own := joins[0].(filter := cs);
      assert narrowed[1..] == joins[1..] && own.(filter := []) == joins[0];
      OwnFilterOfEach(w, own, scopes);
      FilterPastJoins(w, joins[0].alias, cs, joins[1..], JoinedEach(w, joins[0], scopes));
    } else {
      assert narrowed[1..] == joins[1..][i - 1 := joins[i].(filter := cs)];
      FilterLast(w, root, joins[1..], i - 1, cs, JoinedEach(w, joins[0], scopes));
    }
  }

  // ----- an EXISTS of the row joined -----

  ghost predicate ReadsBoth(w: World, relation: Relation, row: Row, a: Row, b: Row) {
    && a in w.rows(relation.table) && IsRelated(w, relation, row, a)
    && b in w.rows(relation.table) && IsRelated(w, relation, row, b)
  }

  /** Every two related rows are as one to the filter: there is one at most, or it is true of all or of none. */
  ghost predicate Alike(w: World, relation: Relation, cs: seq<Clause>, row: Row) {
    forall a, b :: ReadsBoth(w, relation, row, a, b) ==> (IsTrue(w, a, cs) ==> IsTrue(w, b, cs))
  }

  /** `row` reads one row at most of its relation. */
  ghost predicate AtMostOne(w: World, relation: Relation, row: Row) {
    forall a, b :: ReadsBoth(w, relation, row, a, b) ==> a == b
  }

  ghost predicate IsJoined(w: World, root: string, join: Join, scope: Scope) {
    RowAt(scope, join.alias) in w.rows(join.relation.table)
    && IsRelated(w, join.relation, RowAt(scope, root), RowAt(scope, join.alias))
  }

  /** `s` is `scope` but for the table joined. */
  ghost predicate Extends(s: Scope, scope: Scope, join: Join) {
    forall alias :: CaseFolded(alias) != CaseFolded(join.alias) ==> RowAt(s, alias) == RowAt(scope, alias)
  }

  lemma {:induction false} RowsJoined(w: World, root: string, join: Join, scope: Scope, others: seq<Row>)
    requires CaseFolded(join.alias) != CaseFolded(root)
    ensures forall s :: s in JoinedWith(w, join, scope, others) ==>
              && RowAt(s, join.alias) in others
              && Extends(s, scope, join)
              && (join.parent == root ==> IsRelated(w, join.relation, RowAt(s, root), RowAt(s, join.alias)))
  {
    if others != [] {
      RowsJoined(w, root, join, scope, others[1..]);
      AllOfConcat(Correlation(w, join.relation.references, RowAt(scope, join.parent), others[0]),
                  ClauseTerms(w, others[0], join.filter));
    }
  }

  lemma {:induction false} EachJoined(w: World, root: string, join: Join, scopes: seq<Scope>)
    requires CaseFolded(join.alias) != CaseFolded(root)
    ensures forall s :: s in JoinedEach(w, join, scopes) ==>
              && (join.parent == root ==> IsJoined(w, root, join, s))
              && exists scope :: scope in scopes && Extends(s, scope, join)
  {
    if scopes != [] {
      var others := w.rows(join.relation.table);
      RowsJoined(w, root, join, scopes[0], others);
      EachJoined(w, root, join, scopes[1..]);
      forall s | s in JoinedEach(w, join, scopes)
        ensures join.parent == root ==> IsJoined(w, root, join, s)
        ensures exists scope :: scope in scopes && Extends(s, scope, join)
      {
        if s in JoinedWith(w, join, scopes[0], others) {
          assert scopes[0] in scopes;
        } else {
          assert s in JoinedEach(w, join, scopes[1..]);
          var scope :| scope in scopes[1..] && Extends(s, scope, join);
          assert scope in scopes;
        }
      }
    }
  }

  /** Every row is joined with one of each table joined to the queried entity, and keeps its own. */
  lemma {:induction false} AllJoined(w: World, root: string, joins: seq<Join>, i: nat, scopes: seq<Scope>)
    requires DistinctAliases(root, joins) && i < |joins| && joins[i].parent == root
    ensures forall s :: s in JoinAll(w, joins, scopes) ==> IsJoined(w, root, joins[i], s)
    decreases |joins|
  {
    var next := JoinedEach(w, joins[0], scopes);
    EachJoined(w, root, joins[0], scopes);
    if i == 0 {
      StaysJoined(w, root, joins[0], joins[1..], next);
    } else {
      AllJoined(w, root, joins[1..], i - 1, next);
    }
  }

  /** None of the joins is read under the alias, or as the queried entity is. */
  predicate Elsewhere(root: string, alias: string, joins: seq<Join>) {
    forall i :: 0 <= i < |joins| ==>
      CaseFolded(joins[i].alias) != CaseFolded(root) && CaseFolded(joins[i].alias) != CaseFolded(alias)
  }

  lemma {:induction false} StaysJoined(w: World, root: string, join: Join, joins: seq<Join>, scopes: seq<Scope>)
    requires Elsewhere(root, join.alias, joins)
    requires forall s :: s in scopes ==> IsJoined(w, root, join, s)
    ensures forall s :: s in JoinAll(w, joins, scopes) ==> IsJoined(w, root, join, s)
    decreases |joins|
  {
    if joins != [] {
      EachJoined(w, root, joins[0], scopes);
      forall s | s in JoinedEach(w, joins[0], scopes) ensures IsJoined(w, root, join, s) {
        var scope :| scope in scopes && Extends(s, scope, joins[0]);
        assert IsJoined(w, root, join, scope);
      }
      StaysJoined(w, root, join, joins[1..], JoinedEach(w, joins[0], scopes));
    }
  }

  lemma {:induction false} RootStays(w: World, root: string, joins: seq<Join>, scopes: seq<Scope>)
    requires DistinctAliases(root, joins)
    ensures forall s :: s in JoinAll(w, joins, scopes) ==>
              exists scope :: scope in scopes && RowAt(s, root) == RowAt(scope, root)
    decreases |joins|
  {
    if joins != [] {
      EachJoined(w, root, joins[0], scopes);
      RootStays(w, root, joins[1..], JoinedEach(w, joins[0], scopes));
    }
  }

  /**
   * A row joined with one of a relation meets an `EXISTS` of it just where the row it is joined with meets its filter.
   */
  lemma ExistsIsFilter(w: World, root: string, join: Join, c: Clause, scope: Scope)
    requires c.Related? && c.relation == join.relation && IsJoined(w, root, join, scope)
    requires Alike(w, c.relation, c.where.clauses, RowAt(scope, root))
    ensures IsTrue(w, RowAt(scope, root), [c]) <==> IsTrue(w, RowAt(scope, join.alias), c.where.clauses)
  {
    var row, other := RowAt(scope, root), RowAt(scope, join.alias);
    assert [c][1..] == [];
    assert ClauseTerms(w, row, [c]) == [Of(HasRelated(w, row, c.relation, c.where))];
    forall x ensures AllOf(Correlation(w, c.relation.references, row, x) + ClauseTerms(w, x, c.where.clauses)) == True
                     <==> IsRelated(w, c.relation, row, x) && IsTrue(w, x, c.where.clauses)
    {
      AllOfConcat(Correlation(w, c.relation.references, row, x), ClauseTerms(w, x, c.where.clauses));
    }
    if IsTrue(w, other, c.where.clauses) {
      assert AllOf(Correlation(w, c.relation.references, row, other) + ClauseTerms(w, other, c.where.clauses)) == True;
      assert HasRelated(w, row, c.relation, c.where);
    } else if HasRelated(w, row, c.relation, c.where) {
      var x :| x in w.rows(c.relation.table)
        && AllOf(Correlation(w, c.relation.references, row, x) + ClauseTerms(w, x, c.where.clauses)) == True;
      assert ReadsBoth(w, c.relation, row, x, other);
    }
    assert IsTrue(w, row, [c]) <==> HasRelated(w, row, c.relation, c.where) by {
      SingleTerm(Of(HasRelated(w, row, c.relation, c.where)));
    }
  }

  lemma SingleTerm(t: Tri)
    ensures AllOf([t]) == t
  {
    assert [t][1..] == [];
  }

  // ----- the whole -----

  lemma {:induction false} FilterFirst(w: World, alias: string, c: Clause, cs: seq<Clause>, scopes: seq<Scope>)
    ensures Filtered(w, alias, [c] + cs, scopes) == Filtered(w, alias, cs, Filtered(w, alias, [c], scopes))
    ensures Filtered(w, alias, [c] + cs, scopes) == Filtered(w, alias, [c], Filtered(w, alias, cs, scopes))
  {
    hide ClauseMeaning, RowAt;
    if scopes != [] {
      var row := RowAt(scopes[0], alias);
      assert ([c] + cs)[0] == c && ([c] + cs)[1..] == cs && [c][1..] == [];
      var first := TermsOf(ClauseMeaning(w, row, c));
      assert ClauseTerms(w, row, [c]) == first + [] == first;
      AllOfConcat(first, ClauseTerms(w, row, cs));
      FilterFirst(w, alias, c, cs, scopes[1..]);
      if IsTrue(w, row, [c]) {
        FilteredHead(w, alias, [c], scopes);
      }
      if IsTrue(w, row, cs) {
        FilteredHead(w, alias, cs, scopes);
      }
    }
  }

  lemma FilteredHead(w: World, alias: string, cs: seq<Clause>, scopes: seq<Scope>)
    requires scopes != [] && IsTrue(w, RowAt(scopes[0], alias), cs)
    ensures Filtered(w, alias, cs, scopes)[0] == scopes[0]
    ensures Filtered(w, alias, cs, scopes)[1..] == Filtered(w, alias, cs, scopes[1..])
  {
  }

  lemma {:induction false} SameFilter(
    w: World, a: string, cs: seq<Clause>, b: string, ds: seq<Clause>, scopes: seq<Scope>)
    requires forall s :: s in scopes ==> (IsTrue(w, RowAt(s, a), cs) <==> IsTrue(w, RowAt(s, b), ds))
    ensures Filtered(w, a, cs, scopes) == Filtered(w, b, ds, scopes)
  {
    if scopes != [] {
      assert scopes[0] in scopes;
      SameFilter(w, a, cs, b, ds, scopes[1..]);
    }
  }

  /** One filter moved into its relation's join. */
  lemma MovedIsExists(
    w: World, root: string, joins: seq<Join>, c: Clause, where: seq<Clause>, scopes: seq<Scope>)
    requires Moves(joins, c) && DistinctAliases(root, joins)
    requires var join := joins[JoinAt(joins, c.key)];
             join.parent == root && join.relation == c.relation && join.filter == []
    requires forall s :: s in scopes ==> Alike(w, c.relation, c.where.clauses, RowAt(s, root))
    ensures RowsOf(w, root, Narrowed(joins, c), where, scopes) == RowsOf(w, root, joins, [c] + where, scopes)
  {
    var i := JoinAt(joins, c.key);
    var all := JoinAll(w, joins, scopes);
    FilterLast(w, root, joins, i, c.where.clauses, scopes);
    AllJoined(w, root, joins, i, scopes);
    RootStays(w, root, joins, scopes);
    forall s | s in all
      ensures IsTrue(w, RowAt(s, root), [c]) <==> IsTrue(w, RowAt(s, joins[i].alias), c.where.clauses)
    {
      var scope :| scope in scopes && RowAt(s, root) == RowAt(scope, root);
      ExistsIsFilter(w, root, joins[i], c, s);
    }
    SameFilter(w, root, [c], joins[i].alias, c.where.clauses, all);
    FilterFirst(w, root, c, where, all);
  }

  predicate DistinctRelations(where: seq<Clause>) {
    forall i, j :: 0 <= i < j < |where| && where[i].Related? && where[j].Related? ==> where[i].key != where[j].key
  }

  /** Each filter that moves is of its join's own relation, joined to the queried entity, and no other is there. */
  predicate Movable(root: string, joins: seq<Join>, where: seq<Clause>) {
    forall k :: 0 <= k < |where| && Moves(joins, where[k]) ==>
      var join := joins[JoinAt(joins, where[k].key)];
      join.parent == root && join.relation == where[k].relation && join.filter == []
  }

  lemma {:induction false} JoinAtNarrowed(joins: seq<Join>, i: nat, filter: seq<Clause>, key: string)
    requires i < |joins|
    ensures JoinAt(joins[i := joins[i].(filter := filter)], key) == JoinAt(joins, key)
  {
    if i > 0 && joins[0].path != [key] {
      assert joins[i := joins[i].(filter := filter)][1..] == joins[1..][i - 1 := joins[i].(filter := filter)];
      JoinAtNarrowed(joins[1..], i - 1, filter, key);
    } else if joins[0].path != [key] {
      assert joins[i := joins[i].(filter := filter)][1..] == joins[1..];
    }
  }

  lemma StillMovable(root: string, joins: seq<Join>, where: seq<Clause>)
    requires where != [] && Moves(joins, where[0]) && DistinctRelations(where) && Movable(root, joins, where)
    requires DistinctAliases(root, joins)
    ensures var next := Narrowed(joins, where[0]); Movable(root, next, where[1..]) && DistinctAliases(root, next)
  {
    var i, next := JoinAt(joins, where[0].key), Narrowed(joins, where[0]);
    forall k | 0 <= k < |where[1..]| && Moves(next, where[1..][k])
      ensures var join := next[JoinAt(next, where[1..][k].key)];
              join.parent == root && join.relation == where[1..][k].relation && join.filter == []
    {
      var c := where[1..][k];
      assert c == where[k + 1] && c.key != where[0].key;
      JoinAtNarrowed(joins, i, where[0].where.clauses, c.key);
      assert Moves(joins, c) && JoinAt(joins, c.key) != i;
    }
  }

  /**
   * Every filter keyed at the top of a grouped query's `$where`, moved into its relation's `INNER` join, keeps the
   * rows an `EXISTS` beside that join keeps, in a database where no row has two related rows a filter tells apart.
   */
  lemma {:induction false} ResolvedKeepsRows(
    w: World, root: string, joins: seq<Join>, where: seq<Clause>, scopes: seq<Scope>)
    requires DistinctAliases(root, joins) && DistinctRelations(where) && Movable(root, joins, where)
    requires forall k, s :: 0 <= k < |where| && s in scopes && Moves(joins, where[k]) ==>
               Alike(w, where[k].relation, where[k].where.clauses, RowAt(s, root))
    ensures var r := Resolve(joins, where);
            RowsOf(w, root, r.joins, r.where, scopes) == RowsOf(w, root, joins, where, scopes)
    decreases |where|
  {
    if where != [] {
      var c, rest := where[0], where[1..];
      assert where == [c] + rest;
      if Moves(joins, c) {
        var next := Narrowed(joins, c);
        MovedIsExists(w, root, joins, c, rest, scopes);
        StillMovable(root, joins, where);
        forall k, s | 0 <= k < |rest| && s in scopes && Moves(next, rest[k])
          ensures Alike(w, rest[k].relation, rest[k].where.clauses, RowAt(s, root))
        {
          JoinAtNarrowed(joins, JoinAt(joins, c.key), c.where.clauses, rest[k].key);
          assert rest[k] == where[k + 1] && Moves(joins, where[k + 1]);
        }
        ResolvedKeepsRows(w, root, next, rest, scopes);
      } else {
        var r := Resolve(joins, rest);
        forall k, s | 0 <= k < |rest| && s in scopes && Moves(joins, rest[k])
          ensures Alike(w, rest[k].relation, rest[k].where.clauses, RowAt(s, root))
        {
          assert rest[k] == where[k + 1];
        }
        assert Movable(root, joins, rest);
        ResolvedKeepsRows(w, root, joins, rest, scopes);
        FilterFirst(w, root, c, rest, JoinAll(w, joins, scopes));
        FilterFirst(w, root, c, r.where, JoinAll(w, r.joins, scopes));
      }
    }
  }

  /** One related row at most is enough of a database for any filter. */
  lemma OneIsAlike(w: World, relation: Relation, cs: seq<Clause>, row: Row)
    requires AtMostOne(w, relation, row)
    ensures Alike(w, relation, cs, row)
  {
  }

  // ----- where two related rows are told apart -----

  lemma {:induction false} FilteredHolds(w: World, alias: string, cs: seq<Clause>, scopes: seq<Scope>)
    ensures forall s :: s in Filtered(w, alias, cs, scopes) <==> s in scopes && IsTrue(w, RowAt(s, alias), cs)
  {
    if scopes != [] {
      FilteredHolds(w, alias, cs, scopes[1..]);
    }
  }

  lemma {:induction false} JoinsEveryRelated(w: World, join: Join, scope: Scope, others: seq<Row>, other: Row)
    requires join.filter == [] && other in others && IsRelated(w, join.relation, RowAt(scope, join.parent), other)
    ensures scope[CaseFolded(join.alias) := other] in JoinedWith(w, join, scope, others)
  {
    var on := Correlation(w, join.relation.references, RowAt(scope, join.parent), others[0]);
    assert on + ClauseTerms(w, others[0], []) == on;
    if others[0] != other {
      JoinsEveryRelated(w, join, scope, others[1..], other);
    }
  }

  lemma {:induction false} JoinsEach(w: World, join: Join, scopes: seq<Scope>, scope: Scope, other: Row)
    requires scope in scopes && join.filter == [] && other in w.rows(join.relation.table)
    requires IsRelated(w, join.relation, RowAt(scope, join.parent), other)
    ensures scope[CaseFolded(join.alias) := other] in JoinedEach(w, join, scopes)
  {
    if scopes[0] == scope {
      JoinsEveryRelated(w, join, scope, w.rows(join.relation.table), other);
    } else {
      JoinsEach(w, join, scopes[1..], scope, other);
    }
  }

  /** For one relation and its filter, the rows kept are the same exactly where no row's related rows are told apart. */
  lemma MovedExactly(w: World, root: string, join: Join, c: Clause, scopes: seq<Scope>)
    requires c.Related? && join.path == [c.key] && join.parent == root && join.relation == c.relation
             && join.filter == []
    requires CaseFolded(join.alias) != CaseFolded(root)
    ensures Resolve([join], [c]) == Resolved([join.(filter := c.where.clauses)], [])
    ensures RowsOf(w, root, [join.(filter := c.where.clauses)], [], scopes) == RowsOf(w, root, [join], [c], scopes)
            <==> forall s :: s in scopes ==> Alike(w, c.relation, c.where.clauses, RowAt(s, root))
  {
    var narrowed := [join.(filter := c.where.clauses)];
    assert JoinAt([join], c.key) == 0 && Narrowed([join], c) == narrowed && [c][1..] == [];
    assert Resolve(narrowed, []) == Resolved(narrowed, []);
    if forall s :: s in scopes ==> Alike(w, c.relation, c.where.clauses, RowAt(s, root)) {
      MovedIsExists(w, root, [join], c, [], scopes);
      assert [c] + [] == [c];
    } else {
      var s :| s in scopes && !Alike(w, c.relation, c.where.clauses, RowAt(s, root));
      ToldApart(w, root, join, c, scopes, s);
    }
  }

  lemma ExistsIsTrue(w: World, row: Row, c: Clause, a: Row)
    requires c.Related? && a in w.rows(c.relation.table) && IsRelated(w, c.relation, row, a)
             && IsTrue(w, a, c.where.clauses)
    ensures IsTrue(w, row, [c])
  {
    assert [c][1..] == [];
    AllOfConcat(Correlation(w, c.relation.references, row, a), ClauseTerms(w, a, c.where.clauses));
    assert HasRelated(w, row, c.relation, c.where);
    SingleTerm(Of(HasRelated(w, row, c.relation, c.where)));
    assert ClauseTerms(w, row, [c]) == [Of(HasRelated(w, row, c.relation, c.where))];
  }

  lemma JoinsOne(w: World, join: Join, scopes: seq<Scope>)
    ensures JoinAll(w, [join], scopes) == JoinedEach(w, join, scopes)
  {
    assert [join][1..] == [];
  }

  /** A row joined with one its filter is not true of is kept beside an `EXISTS`, and not by a join so narrowed. */
  lemma ToldApart(w: World, root: string, join: Join, c: Clause, scopes: seq<Scope>, s: Scope)
    requires c.Related? && join.parent == root && join.relation == c.relation && join.filter == []
    requires CaseFolded(join.alias) != CaseFolded(root)
    requires s in scopes && !Alike(w, c.relation, c.where.clauses, RowAt(s, root))
    ensures RowsOf(w, root, [join.(filter := c.where.clauses)], [], scopes) != RowsOf(w, root, [join], [c], scopes)
  {
    var row, cs := RowAt(s, root), c.where.clauses;
    var a, b :| ReadsBoth(w, c.relation, row, a, b) && IsTrue(w, a, cs) && !IsTrue(w, b, cs);
    var kept := s[CaseFolded(join.alias) := b];
    JoinsEach(w, join, scopes, s, b);
    ExistsIsTrue(w, row, c, a);
    KeptBeside(w, root, join, c, scopes, kept);
    LeftByJoin(w, root, join, cs, scopes, kept);
  }

  lemma KeptBeside(w: World, root: string, join: Join, c: Clause, scopes: seq<Scope>, kept: Scope)
    requires kept in JoinedEach(w, join, scopes) && IsTrue(w, RowAt(kept, root), [c])
    ensures kept in RowsOf(w, root, [join], [c], scopes)
  {
    JoinsOne(w, join, scopes);
    FilteredHolds(w, root, [c], JoinedEach(w, join, scopes));
  }

  lemma LeftByJoin(w: World, root: string, join: Join, cs: seq<Clause>, scopes: seq<Scope>, left: Scope)
    requires join.filter == [] && !IsTrue(w, RowAt(left, join.alias), cs)
    ensures left !in RowsOf(w, root, [join.(filter := cs)], [], scopes)
  {
    var own := join.(filter := cs);
    assert own.(filter := []) == join;
    JoinsOne(w, own, scopes);
    OwnFilterOfEach(w, own, scopes);
    FilteredHolds(w, join.alias, cs, JoinedEach(w, join, scopes));
    FilteredHolds(w, root, [], JoinedEach(w, own, scopes));
  }

  // ----- several filters moved -----

  /** Whether a row joined is one the moved filters and the `$where` left are both true of. */
  ghost predicate Passes(w: World, root: string, joins: seq<Join>, where: seq<Clause>, s: Scope) {
    where == [] ||
    ((if Moves(joins, where[0])
      then IsTrue(w, RowAt(s, joins[JoinAt(joins, where[0].key)].alias), where[0].where.clauses)
      else IsTrue(w, RowAt(s, root), [where[0]]))
     && Passes(w, root, joins, where[1..], s))
  }

  ghost function Passing(w: World, root: string, joins: seq<Join>, where: seq<Clause>, scopes: seq<Scope>): seq<Scope> {
    if scopes == [] then []
    else
      (if Passes(w, root, joins, where, scopes[0]) then [scopes[0]] else [])
        + Passing(w, root, joins, where, scopes[1..])
  }

  lemma {:induction false} PassingHolds(
    w: World, root: string, joins: seq<Join>, where: seq<Clause>, scopes: seq<Scope>)
    ensures forall s :: s in Passing(w, root, joins, where, scopes) <==> s in scopes && Passes(w, root, joins, where, s)
  {
    if scopes != [] {
      PassingHolds(w, root, joins, where, scopes[1..]);
      assert scopes == [scopes[0]] + scopes[1..];
    }
  }

  /** A join narrowed is read under the alias it had. */
  lemma {:induction false} PassesNarrowed(
    w: World, root: string, joins: seq<Join>, c: Clause, where: seq<Clause>, s: Scope)
    requires Moves(joins, c)
    ensures Passes(w, root, Narrowed(joins, c), where, s) == Passes(w, root, joins, where, s)
  {
    if where != [] {
      PassesNarrowed(w, root, joins, c, where[1..], s);
      if where[0].Related? {
        JoinAtNarrowed(joins, JoinAt(joins, c.key), c.where.clauses, where[0].key);
      }
    }
  }

  /** What passes `c` and then the rest of the `$where`, of either the moved or the left. */
  lemma {:induction false} PassingFirst(
    w: World, root: string, joins: seq<Join>, alias: string, cs: seq<Clause>, where: seq<Clause>, scopes: seq<Scope>)
    requires where != []
    requires alias == if Moves(joins, where[0]) then joins[JoinAt(joins, where[0].key)].alias else root
    requires cs == if Moves(joins, where[0]) then where[0].where.clauses else [where[0]]
    ensures Passing(w, root, joins, where, scopes) == Filtered(w, alias, cs,
                                                               Passing(w, root, joins, where[1..], scopes))
    ensures Passing(w, root, joins, where, scopes) == Passing(w, root, joins, where[1..],
                                                              Filtered(w, alias, cs, scopes))
  {
    if scopes != [] {
      PassingFirst(w, root, joins, alias, cs, where, scopes[1..]);
      var rest := Passing(w, root, joins, where[1..], scopes[1..]);
      var kept := Filtered(w, alias, cs, scopes[1..]);
      HeadOf(scopes[0], rest);
      HeadOf(scopes[0], kept);
      NothingBefore(rest);
      assert Passes(w, root, joins, where, scopes[0])
          == (IsTrue(w, RowAt(scopes[0], alias), cs) && Passes(w, root, joins, where[1..], scopes[0]));
    }
  }

  lemma {:induction false} PassingNarrowed(
    w: World, root: string, joins: seq<Join>, c: Clause, where: seq<Clause>, scopes: seq<Scope>)
    requires Moves(joins, c)
    ensures Passing(w, root, Narrowed(joins, c), where, scopes) == Passing(w, root, joins, where, scopes)
  {
    if scopes != [] {
      PassesNarrowed(w, root, joins, c, where, scopes[0]);
      PassingNarrowed(w, root, joins, c, where, scopes[1..]);
    }
  }

  /** The statement resolved keeps the rows joined that pass. */
  lemma {:induction false} ResolvedIsPassing(
    w: World, root: string, joins: seq<Join>, where: seq<Clause>, scopes: seq<Scope>)
    requires DistinctAliases(root, joins) && DistinctRelations(where) && Movable(root, joins, where)
    ensures var r := Resolve(joins, where);
            RowsOf(w, root, r.joins, r.where, scopes) == Passing(w, root, joins, where, JoinAll(w, joins, scopes))
    decreases |where|
  {
    var all := JoinAll(w, joins, scopes);
    if where == [] {
      AllPass(w, root, joins, all);
    } else {
      var c, rest := where[0], where[1..];
      if Moves(joins, c) {
        var next, i := Narrowed(joins, c), JoinAt(joins, c.key);
        StillMovable(root, joins, where);
        ResolvedIsPassing(w, root, next, rest, scopes);
        assert joins[i].filter == [];
        FilterLast(w, root, joins, i, c.where.clauses, scopes);
        PassingNarrowed(w, root, joins, c, rest, JoinAll(w, next, scopes));
        PassingFirst(w, root, joins, joins[i].alias, c.where.clauses, where, all);
      } else {
        var r := Resolve(joins, rest);
        assert Movable(root, joins, rest) by {
          assert forall k :: 0 <= k < |rest| ==> rest[k] == where[k + 1];
        }
        ResolvedIsPassing(w, root, joins, rest, scopes);
        FilterFirst(w, root, c, r.where, JoinAll(w, r.joins, scopes));
        PassingFirst(w, root, joins, root, [c], where, all);
      }
    }
  }

  lemma {:induction false} AllPass(w: World, root: string, joins: seq<Join>, scopes: seq<Scope>)
    ensures Passing(w, root, joins, [], scopes) == scopes
    ensures Filtered(w, root, [], scopes) == scopes
  {
    if scopes != [] {
      AllPass(w, root, joins, scopes[1..]);
    }
  }

  /**
   * A row joined passes exactly where each moved filter is true of the row its relation joined, and the rest of its
   * own.
   */
  lemma {:induction false} PassesByClause(w: World, root: string, joins: seq<Join>, where: seq<Clause>, s: Scope)
    ensures Passes(w, root, joins, where, s) <==>
            forall k :: 0 <= k < |where| ==>
              if Moves(joins, where[k])
              then IsTrue(w, RowAt(s, joins[JoinAt(joins, where[k].key)].alias), where[k].where.clauses)
              else IsTrue(w, RowAt(s, root), [where[k]])
  {
    if where != [] {
      PassesByClause(w, root, joins, where[1..], s);
      assert forall k :: 0 <= k < |where[1..]| ==> where[1..][k] == where[k + 1];
      assert forall k :: 0 < k < |where| ==> where[k] == where[1..][k - 1];
    }
  }

  lemma {:induction false} TrueByClause(w: World, row: Row, where: seq<Clause>)
    ensures IsTrue(w, row, where) <==> forall k :: 0 <= k < |where| ==> IsTrue(w, row, [where[k]])
  {
    if where != [] {
      TrueByClause(w, row, where[1..]);
      assert [where[0]][1..] == [];
      var first := TermsOf(ClauseMeaning(w, row, where[0]));
      assert ClauseTerms(w, row, [where[0]]) == first + [] == first;
      AllOfConcat(first, ClauseTerms(w, row, where[1..]));
      assert forall k :: 0 <= k < |where[1..]| ==> where[1..][k] == where[k + 1];
      assert forall k :: 0 < k < |where| ==> where[k] == where[1..][k - 1];
    }
  }

  /** A row joined that its relation's filter is true of meets the `EXISTS`. */
  lemma FilterIsExists(w: World, root: string, joins: seq<Join>, where: seq<Clause>, k: nat, s: Scope)
    requires Movable(root, joins, where) && k < |where| && Moves(joins, where[k])
    requires IsJoined(w, root, joins[JoinAt(joins, where[k].key)], s)
    requires IsTrue(w, RowAt(s, joins[JoinAt(joins, where[k].key)].alias), where[k].where.clauses)
    ensures IsTrue(w, RowAt(s, root), [where[k]])
  {
    ExistsIsTrue(w, RowAt(s, root), where[k], RowAt(s, joins[JoinAt(joins, where[k].key)].alias));
  }

  lemma PassesWhere(w: World, root: string, joins: seq<Join>, where: seq<Clause>, scopes: seq<Scope>, s: Scope)
    requires DistinctAliases(root, joins) && Movable(root, joins, where) && s in JoinAll(w, joins, scopes)
    ensures Passes(w, root, joins, where, s) ==> IsTrue(w, RowAt(s, root), where)
    ensures IsTrue(w, RowAt(s, root), where) ==> (Passes(w, root, joins, where, s)
                                                  <==> MovedAreTrue(w, joins, where, s))
  {
    PassesByClause(w, root, joins, where, s);
    TrueByClause(w, RowAt(s, root), where);
    if Passes(w, root, joins, where, s) {
      forall k | 0 <= k < |where| ensures IsTrue(w, RowAt(s, root), [where[k]]) {
        if Moves(joins, where[k]) {
          AllJoined(w, root, joins, JoinAt(joins, where[k].key), scopes);
          FilterIsExists(w, root, joins, where, k, s);
        }
      }
    }
  }

  /** Each moved filter is true of the row its relation joined. */
  ghost predicate MovedAreTrue(w: World, joins: seq<Join>, where: seq<Clause>, s: Scope) {
    forall k :: 0 <= k < |where| && Moves(joins, where[k]) ==>
      IsTrue(w, RowAt(s, joins[JoinAt(joins, where[k].key)].alias), where[k].where.clauses)
  }

  lemma {:induction false} PassingIsFiltered(
    w: World, root: string, joins: seq<Join>, where: seq<Clause>, scopes: seq<Scope>)
    requires forall s :: s in scopes ==> (Passes(w, root, joins, where, s) <==> IsTrue(w, RowAt(s, root), where))
    ensures Passing(w, root, joins, where, scopes) == Filtered(w, root, where, scopes)
  {
    if scopes != [] {
      assert scopes[0] in scopes;
      PassingIsFiltered(w, root, joins, where, scopes[1..]);
    }
  }

  /**
   * The rows kept are the same exactly where of every row joined the whole `$where`, its `EXISTS` included, is true
   * only if each filter moved is true of the row its relation joined; and no other row is ever kept.
   */
  lemma ResolvedExactly(w: World, root: string, joins: seq<Join>, where: seq<Clause>, scopes: seq<Scope>)
    requires DistinctAliases(root, joins) && DistinctRelations(where) && Movable(root, joins, where)
    ensures var r := Resolve(joins, where);
            RowsOf(w, root, r.joins, r.where, scopes) == RowsOf(w, root, joins, where, scopes) <==>
            forall s :: s in JoinAll(w, joins, scopes) && IsTrue(w, RowAt(s, root), where)
              ==> MovedAreTrue(w, joins, where, s)
    ensures var r := Resolve(joins, where);
            forall s :: s in RowsOf(w, root, r.joins, r.where, scopes) ==> s in RowsOf(w, root, joins, where, scopes)
  {
    var all := JoinAll(w, joins, scopes);
    ResolvedIsPassing(w, root, joins, where, scopes);
    PassingHolds(w, root, joins, where, all);
    FilteredHolds(w, root, where, all);
    forall s | s in all
      ensures Passes(w, root, joins, where, s) ==> IsTrue(w, RowAt(s, root), where)
      ensures IsTrue(w, RowAt(s, root), where) ==> (Passes(w, root, joins, where, s)
                                                    <==> MovedAreTrue(w, joins, where, s))
    {
      PassesWhere(w, root, joins, where, scopes, s);
    }
    if forall s :: s in all && IsTrue(w, RowAt(s, root), where) ==> MovedAreTrue(w, joins, where, s) {
      PassingIsFiltered(w, root, joins, where, all);
    }
  }

  // ----- a database where two related rows are told apart -----

  /** A table `posts` of two rows, both of user 1, of which one is open and one is not. */
  function TwoPosts(dialect: Dialect): World {
    var open, shut := map["user" := Num(1), "open" := Num(1)], map["user" := Num(1), "open" := Num(0)];
    World(dialect, t => if t == "posts" then [open, shut] else [], (a, b) => false, (v, p) => Null, (s, p) => false,
          (s, r, v) => Unknown, (s, r, v) => false)
  }

  /** `open = 1` */
  function IsOpen(): seq<Clause> {
    [Field("open", One(Given(Num(1))))]
  }

  lemma OpenHolds(w: World, row: Row, v: int)
    requires ColumnOf(row, "open") == Num(v)
    ensures IsTrue(w, row, IsOpen()) <==> v == 1
  {
    var c := IsOpen()[0];
    assert Normalize(w.dialect, Num(1)) == Num(1) && IsOpen()[1..] == [];
    assert ValMeanings(w, row, Num(v), One(Given(Num(1)))) == [Of(v == 1)];
    SingleTerm(Of(v == 1));
    assert ClauseMeaning(w, row, c) == Condition(Of(v == 1));
    assert ClauseTerms(w, row, IsOpen()) == [Of(v == 1)];
  }

  /**
   * Of the two rows a user is joined with, the `EXISTS` keeps both, and its filter moved into the join not the shut
   * one.
   */
  lemma MovedLosesARow(dialect: Dialect)
    ensures var relation: Relation := RelationMeta("posts", [("user", "id")]);
            var w, join := TwoPosts(dialect), Join(["posts"], "posts", "users", relation, []);
            var c, narrowed := Related("posts", relation, Where(IsOpen())), join.(filter := IsOpen());
            var user: Scope := map[CaseFolded("users") := map["id" := Num(1)]];
            var lost := user[CaseFolded("posts") := map["user" := Num(1), "open" := Num(0)]];
            && Resolve([join], [c]) == Resolved([narrowed], [])
            && lost in RowsOf(w, "users", [join], [c], [user])
            && lost !in RowsOf(w, "users", [narrowed], [], [user])
  {
    hide Resolve, HasRelated, ClauseTerms, ClauseMeaning, JoinAll, Filtered;
    var open, shut := map["user" := Num(1), "open" := Num(1)], map["user" := Num(1), "open" := Num(0)];
    var relation: Relation := RelationMeta("posts", [("user", "id")]);
    var w, join := TwoPosts(dialect), Join(["posts"], "posts", "users", relation, []);
    var c := Related("posts", relation, Where(IsOpen()));
    var user: Scope := map[CaseFolded("users") := map["id" := Num(1)]];
    var row, lost := RowAt(user, "users"), user[CaseFolded("posts") := shut];
    assert CaseFolded("posts")[0] == 'p' && CaseFolded("users")[0] == 'u';
    OpenHolds(w, open, 1);
    OpenHolds(w, shut, 0);
    forall other | other in [open, shut] ensures IsRelated(w, relation, row, other) {
      assert Correlation(w, relation.references, row, other) == [True];
      SingleTerm(True);
    }
    MovedExactly(w, "users", join, c, [user]);
    JoinsEach(w, join, [user], user, shut);
    ExistsIsTrue(w, row, c, open);
    KeptBeside(w, "users", join, c, [user], lost);
    LeftByJoin(w, "users", join, IsOpen(), [user], lost);
  }
}
