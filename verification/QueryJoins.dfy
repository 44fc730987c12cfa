/** The relations a statement joins, off what it populates and what it sorts by. */
module QueryJoins {
  import opened Options
  import opened Aliases
  import opened SqlText
  import opened QueryContexts

  /** A relation as an entity declares it; entities may lead back to one another. */
  datatype RelationMeta = RelationMeta(target: string, toMany: bool)

  type Schema = (string, string) -> Option<RelationMeta>

  /** A relation asked for under its key, and what is asked for of the rows it reads. */
  datatype Populated = Populated(key: string, asked: bool, required: bool, children: seq<Populated>)

  /** What stands under a key of a path: an order, a vector search, or keys of its own. */
  datatype PathValue = Leaf | VectorSearch | Fields(fields: seq<PathField>)

  datatype PathField = PathField(key: string, value: PathValue)

  /** A joined relation: its keys from the queried entity, its table's alias, and what joined it. */
  datatype Join = Join(path: seq<string>, alias: string, entity: string, required: bool, projected: bool)

  /** The joins in the order they came, and the aliases the statement has taken. */
  datatype Joins = Joins(joins: seq<Join>, taken: set<string>)

  /** A path as a statement names it. Keys hold no dot. */
  function Dotted(path: seq<string>): string {
    if path == [] then ""
    else if |path| == 1 then path[0]
    else path[0] + "." + Dotted(path[1..])
  }

  function At(joins: seq<Join>, path: seq<string>): (i: nat)
    ensures i <= |joins| && (i < |joins| ==> joins[i].path == path)
    ensures forall j :: 0 <= j < i ==> joins[j].path != path
  {
    if joins == [] || joins[0].path == path then 0 else 1 + At(joins[1..], path)
  }

  // ----- what is joined -----

  /** The join at a path: the one there, or one put after the others under an alias of its own. */
  function Added(s: Joins, path: seq<string>, entity: string, required: bool, projected: bool): (r: (Joins, Join))
  {
    var i := At(s.joins, path);
    if i < |s.joins| then (s, s.joins[i])
    else
      var alias := Claimed(Dotted(path), None, s.taken);
      var join := Join(path, alias, entity, required, projected);
      (Joins(s.joins + [join], s.taken + {CaseFolded(alias)}), join)
  }

  predicate IsJoinable(schema: Schema, entity: string, key: string) {
    schema(entity, key).Some? && !schema(entity, key).value.toMany
  }

  function WithPopulate(schema: Schema, s: Joins, entity: string, nodes: seq<Populated>, parent: seq<string>): Joins
    decreases nodes
  {
    if nodes == [] then s
    else
      var node := nodes[0];
      var next :=
        if node.asked && IsJoinable(schema, entity, node.key) then
          var (added, join) := Added(s, parent + [node.key], schema(entity, node.key).value.target, node.required,
                                     true);
          WithPopulate(schema, added, join.entity, node.children, join.path)
        else s;
      WithPopulate(schema, next, entity, nodes[1..], parent)
  }

  /** How much a map of fields holds, at any depth. */
  function Size(fields: seq<PathField>): nat
    decreases fields
  {
    if fields == [] then 0
    else 1 + (if fields[0].value.Fields? then Size(fields[0].value.fields) else 0) + Size(fields[1..])
  }

  /** The fields that take a relation's join with them, vector searches left out. */
  function JoinedFields(fields: seq<PathField>): (joined: seq<PathField>)
    ensures Size(joined) <= Size(fields)
  {
    if fields == [] then []
    else if fields[0].value.VectorSearch? then JoinedFields(fields[1..])
    else [fields[0]] + JoinedFields(fields[1..])
  }

  /** The fields a path leads through, none where there are none to join for. */
  function FieldsUnder(value: PathValue): (fields: seq<PathField>)
    ensures value.Fields? ==> Size(fields) <= Size(value.fields)
    ensures !value.Fields? ==> fields == []
  {
    if value.Fields? then JoinedFields(value.fields) else []
  }

  function WithPaths(
    schema: Schema, s: Joins, entity: string, fields: seq<PathField>, required: bool, parent: seq<string>): Joins
    decreases Size(fields)
  {
    if fields == [] then s
    else
      var field := fields[0];
      var next :=
        if FieldsUnder(field.value) != [] && IsJoinable(schema, entity, field.key) then
          var (added, join) := Added(s, parent + [field.key], schema(entity, field.key).value.target, required, false);
          WithPaths(schema, added, join.entity, FieldsUnder(field.value), required, join.path)
        else s;
      WithPaths(schema, next, entity, fields[1..], required, parent)
  }

  /** What a query joins: what it populates, and then what it sorts by. */
  function Resolved(
    schema: Schema, entity: string, populate: seq<Populated>, sort: seq<PathField>, taken: set<string>): Joins
  {
    WithPaths(schema, WithPopulate(schema, Joins([], taken), entity, populate, []), entity, sort, false, [])
  }

  predicate HasRequired(joins: seq<Join>) {
    exists i :: 0 <= i < |joins| && joins[i].required
  }

  /** The joins whose columns are selected, in order. */
  function Projected(joins: seq<Join>): seq<Join> {
    if joins == [] then []
    else if joins[0].projected then [joins[0]] + Projected(joins[1..])
    else Projected(joins[1..])
  }

  // ----- the map as it is built -----

  class JoinMap {
    const ctx: SqlQueryContext
    var joins: seq<Join>

    ghost function State(): Joins
      reads this, ctx.Root()`tableAliases
    {
      Joins(joins, ctx.Root().tableAliases)
    }

    constructor (ctx: SqlQueryContext)
      ensures this.ctx == ctx && joins == []
    {
      this.ctx := ctx;
      joins := [];
    }

    /** The relation at a path, joined if it is not already. */
    method AddJoin(
      parent: seq<string>, key: string, entity: string, required: bool, projected: bool) returns (join: Join)
      requires ctx.Valid()
      modifies this`joins, ctx.Root()`tableAliases
      ensures (State(), join) == Added(old(State()), parent + [key], entity, required, projected)
    {
      var path := parent + [key];
      var i := At(joins, path);
      if i < |joins| {
        join := joins[i];
        return;
      }
      var alias := ctx.ClaimAlias(Dotted(path), None);
      join := Join(path, alias, entity, required, projected);
      joins := joins + [join];
    }

    method AddPopulateJoins(schema: Schema, entity: string, populate: seq<Populated>, parent: seq<string>)
      requires ctx.Valid()
      modifies this`joins, ctx.Root()`tableAliases
      ensures State() == WithPopulate(schema, old(State()), entity, populate, parent)
      decreases populate
    {
      assert populate[0..] == populate;
      for i := 0 to |populate|
        invariant WithPopulate(schema, State(), entity, populate[i..], parent)
               == WithPopulate(schema, old(State()), entity, populate, parent)
      {
        var node := populate[i];
        assert populate[i..][0] == node && populate[i..][1..] == populate[i + 1..];
        if node.asked && IsJoinable(schema, entity, node.key) {
          var join := AddJoin(parent, node.key, schema(entity, node.key).value.target, node.required, true);
          AddPopulateJoins(schema, join.entity, node.children, join.path);
        }
      }
    }

    method AddPathJoins(schema: Schema, entity: string, fields: seq<PathField>, required: bool, parent: seq<string>)
      requires ctx.Valid()
      modifies this`joins, ctx.Root()`tableAliases
      ensures State() == WithPaths(schema, old(State()), entity, fields, required, parent)
      decreases Size(fields)
    {
      assert fields[0..] == fields;
      for i := 0 to |fields|
        invariant Size(fields[i..]) <= Size(fields)
        invariant WithPaths(schema, State(), entity, fields[i..], required, parent)
               == WithPaths(schema, old(State()), entity, fields, required, parent)
      {
        var field := fields[i];
        assert fields[i..][0] == field && fields[i..][1..] == fields[i + 1..];
        var under := FieldsUnder(field.value);
        if under != [] && IsJoinable(schema, entity, field.key) {
          var join := AddJoin(parent, field.key, schema(entity, field.key).value.target, required, false);
          AddPathJoins(schema, join.entity, under, required, join.path);
        }
      }
    }
  }

  method ResolveQueryJoins(
    ctx: SqlQueryContext, schema: Schema, entity: string, populate: seq<Populated>, sort: seq<PathField>)
    returns (joins: seq<Join>)
    requires ctx.Valid()
    modifies ctx.Root()`tableAliases
    ensures Joins(joins, ctx.Root().tableAliases) == Resolved(schema, entity, populate, sort,
                                                              old(ctx.Root().tableAliases))
  {
    var all := new JoinMap(ctx);
    all.AddPopulateJoins(schema, entity, populate, []);
    all.AddPathJoins(schema, entity, sort, false, []);
    joins := all.joins;
  }

  // ----- what every map keeps -----

  predicate Has(joins: seq<Join>, path: seq<string>) {
    At(joins, path) < |joins|
  }

  /** A join of the queried entity's own relation, or of one of a join's before it. */
  predicate IsPlaced(joins: seq<Join>, join: Join) {
    join.path != [] && (|join.path| > 1 ==> Has(joins, join.path[..|join.path| - 1]))
  }

  predicate ParentsFirst(joins: seq<Join>) {
    forall i :: 0 <= i < |joins| ==> IsPlaced(joins[..i], joins[i])
  }

  predicate EachOnce(joins: seq<Join>) {
    forall i, j :: 0 <= i < j < |joins| ==>
      joins[i].path != joins[j].path && CaseFolded(joins[i].alias) != CaseFolded(joins[j].alias)
  }

  predicate AliasesTaken(joins: seq<Join>, taken: set<string>) {
    forall i :: 0 <= i < |joins| ==> CaseFolded(joins[i].alias) in taken
  }

  /** Each path once, its parent's before it, and each alias once whatever its case, among those taken. */
  predicate WellFormed(s: Joins) {
    ParentsFirst(s.joins) && EachOnce(s.joins) && AliasesTaken(s.joins, s.taken)
  }

  /** `s` with joins put after its own, each projected, required or neither. */
  ghost predicate Grown(s: Joins, after: Joins, projected: bool, required: bool) {
    && s.joins <= after.joins && s.taken <= after.taken
    && forall i :: |s.joins| <= i < |after.joins| ==>
         after.joins[i].projected == projected && (!projected ==> after.joins[i].required == required)
  }

  lemma HasIn(joins: seq<Join>, i: nat, path: seq<string>)
    requires i < |joins| && joins[i].path == path
    ensures Has(joins, path)
  {
  }

  lemma StillFirst(joins: seq<Join>, join: Join)
    requires ParentsFirst(joins) && IsPlaced(joins, join)
    ensures ParentsFirst(joins + [join])
  {
    var all := joins + [join];
    forall i | 0 <= i < |all| ensures IsPlaced(all[..i], all[i]) {
      if i < |joins| {
        assert all[..i] == joins[..i];
      } else {
        assert all[..i] == joins;
      }
    }
  }

  lemma AddedGrows(s: Joins, path: seq<string>, entity: string, required: bool, projected: bool)
    ensures var (after, join) := Added(s, path, entity, required, projected);
            Grown(s, after, projected, required) && join.path == path && Has(after.joins, path)
  {
    var (after, join) := Added(s, path, entity, required, projected);
    HasIn(after.joins, At(s.joins, path), path);
  }

  lemma AddedKeeps(s: Joins, parent: seq<string>, key: string, entity: string, required: bool, projected: bool)
    requires WellFormed(s) && (parent == [] || Has(s.joins, parent))
    ensures var (after, join) := Added(s, parent + [key], entity, required, projected);
            && WellFormed(after)
            && Grown(s, after, projected, required)
            && join.path == parent + [key]
            && Has(after.joins, join.path)
  {
    var path := parent + [key];
    var (after, join) := Added(s, path, entity, required, projected);
    AddedGrows(s, path, entity, required, projected);
    if !Has(s.joins, path) {
      assert path[..|path| - 1] == parent;
      StillFirst(s.joins, join);
    }
  }

  lemma HasStill(joins: seq<Join>, more: seq<Join>, path: seq<string>)
    requires joins <= more && Has(joins, path)
    ensures Has(more, path)
  {
    HasIn(more, At(joins, path), path);
  }

  /** What is populated keeps the map's order and grows it by joins whose columns are selected. */
  lemma {:induction false} PopulateKeeps(
    schema: Schema, s: Joins, entity: string, nodes: seq<Populated>, parent: seq<string>)
    requires WellFormed(s) && (parent == [] || Has(s.joins, parent))
    ensures var after := WithPopulate(schema, s, entity, nodes, parent);
            WellFormed(after) && Grown(s, after, true, false)
    decreases nodes
  {
    hide Added;
    if nodes != [] {
      var node, next := nodes[0], s;
      if node.asked && IsJoinable(schema, entity, node.key) {
        AddedKeeps(s, parent, node.key, schema(entity, node.key).value.target, node.required, true);
        var (added, join) := Added(s, parent + [node.key], schema(entity, node.key).value.target, node.required, true);
        PopulateKeeps(schema, added, join.entity, node.children, join.path);
        next := WithPopulate(schema, added, join.entity, node.children, join.path);
      }
      if parent != [] {
        HasStill(s.joins, next.joins, parent);
      }
      PopulateKeeps(schema, next, entity, nodes[1..], parent);
    }
  }

  /** What is sorted by, or grouped, keeps the map's order and grows it by joins whose columns are not selected. */
  lemma {:induction false} PathsKeep(
    schema: Schema, s: Joins, entity: string, fields: seq<PathField>, required: bool, parent: seq<string>)
    requires WellFormed(s) && (parent == [] || Has(s.joins, parent))
    ensures var after := WithPaths(schema, s, entity, fields, required, parent);
            WellFormed(after) && Grown(s, after, false, required)
    decreases Size(fields)
  {
    if fields != [] {
      var field, next := fields[0], s;
      if FieldsUnder(field.value) != [] && IsJoinable(schema, entity, field.key) {
        AddedKeeps(s, parent, field.key, schema(entity, field.key).value.target, required, false);
        var (added, join) := Added(s, parent + [field.key], schema(entity, field.key).value.target, required, false);
        PathsKeep(schema, added, join.entity, FieldsUnder(field.value), required, join.path);
        next := WithPaths(schema, added, join.entity, FieldsUnder(field.value), required, join.path);
      }
      if parent != [] {
        HasStill(s.joins, next.joins, parent);
      }
      PathsKeep(schema, next, entity, fields[1..], required, parent);
    }
  }

  lemma {:induction false} ProjectedGrown(joins: seq<Join>, extra: seq<Join>)
    requires forall i :: 0 <= i < |extra| ==> !extra[i].projected
    ensures Projected(joins + extra) == Projected(joins)
    decreases |joins| + |extra|
  {
    if joins != [] {
      assert (joins + extra)[0] == joins[0] && (joins + extra)[1..] == joins[1..] + extra;
      ProjectedGrown(joins[1..], extra);
    } else if extra != [] {
      assert joins + extra == extra && extra[1..] == [] + extra[1..];
      ProjectedGrown([], extra[1..]);
    }
  }

  /**
   * What a query joins, over any entities, cyclic or not: every parent comes before its children, under an alias no
   * other has, and what it sorts by adds no column and requires no row.
   */
  lemma ResolvedHolds(
    schema: Schema, entity: string, populate: seq<Populated>, sort: seq<PathField>, taken: set<string>)
    ensures var with, without := Resolved(schema, entity, populate, sort, taken),
    Resolved(schema, entity, populate, [], taken);
            && WellFormed(with)
            && without.joins <= with.joins
            && Projected(with.joins) == Projected(without.joins)
            && (HasRequired(with.joins) <==> HasRequired(without.joins))
  {
    PopulateKeeps(schema, Joins([], taken), entity, populate, []);
    var s := WithPopulate(schema, Joins([], taken), entity, populate, []);
    PathsKeep(schema, s, entity, sort, false, []);
    var after := WithPaths(schema, s, entity, sort, false, []);
    assert after.joins == s.joins + after.joins[|s.joins|..];
    ProjectedGrown(s.joins, after.joins[|s.joins|..]);
  }

  // ----- which joins are required -----

  /** Whether anything populated is asked for as required, down to where what leads to it is not joined. */
  predicate AsksRequired(schema: Schema, entity: string, nodes: seq<Populated>)
    decreases nodes
  {
    nodes != [] &&
    ((nodes[0].asked && IsJoinable(schema, entity, nodes[0].key)
      && (nodes[0].required || AsksRequired(schema, schema(entity, nodes[0].key).value.target, nodes[0].children)))
     || AsksRequired(schema, entity, nodes[1..]))
  }

  /** Each relation is asked for once among its siblings, as a map's keys are. */
  predicate KeysOnce(nodes: seq<Populated>)
    decreases nodes
  {
    nodes != [] ==>
      && (forall i :: 1 <= i < |nodes| ==> nodes[i].key != nodes[0].key)
      && KeysOnce(nodes[0].children)
      && KeysOnce(nodes[1..])
  }

  /** Nothing at or under `parent` is joined yet by any of the keys. */
  ghost predicate NoneUnder(joins: seq<Join>, parent: seq<string>, nodes: seq<Populated>) {
    forall i, k :: 0 <= i < |joins| && 0 <= k < |nodes| ==> !(parent + [nodes[k].key] <= joins[i].path)
  }

  lemma NoneUnderChild(joins: seq<Join>, parent: seq<string>, nodes: seq<Populated>, join: Join)
    requires nodes != [] && NoneUnder(joins, parent, nodes) && join.path == parent + [nodes[0].key]
    ensures NoneUnder(joins + [join], join.path, nodes[0].children)
  {
    forall i, k | 0 <= i < |joins + [join]| && 0 <= k < |nodes[0].children|
      ensures !(join.path + [nodes[0].children[k].key] <= (joins + [join])[i].path)
    {
      if i < |joins| {
        assert !(parent + [nodes[0].key] <= joins[i].path);
        PrefixOfLonger(join.path, nodes[0].children[k].key, joins[i].path);
      }
    }
  }

  lemma PrefixOfLonger(p: seq<string>, key: string, q: seq<string>)
    ensures p + [key] <= q ==> p <= q
  {
    if p + [key] <= q {
      assert p == q[..|p|];
    }
  }

  predicate LeadsFrom(path: seq<string>, parent: seq<string>, nodes: seq<Populated>) {
    exists k :: 0 <= k < |nodes| && parent + [nodes[k].key] <= path
  }

  /** `after` is `before` with joins under `parent`, at the keys of `nodes`. */
  ghost predicate GrowsUnder(before: seq<Join>, after: seq<Join>, parent: seq<string>, nodes: seq<Populated>) {
    before <= after && forall i :: |before| <= i < |after| ==> LeadsFrom(after[i].path, parent, nodes)
  }

  ghost predicate GrowsAt(before: seq<Join>, after: seq<Join>, path: seq<string>) {
    before <= after && forall i :: |before| <= i < |after| ==> path <= after[i].path
  }

  lemma ChildrenGrowAt(before: seq<Join>, join: Join, after: seq<Join>, nodes: seq<Populated>)
    requires GrowsUnder(before + [join], after, join.path, nodes)
    ensures GrowsAt(before, after, join.path)
  {
    forall i | |before| <= i < |after| ensures join.path <= after[i].path {
      if i == |before| {
        assert after[i] == (before + [join])[i];
      } else {
        var k :| 0 <= k < |nodes| && join.path + [nodes[k].key] <= after[i].path;
        assert join.path == (join.path + [nodes[k].key])[..|join.path|];
      }
    }
  }

  lemma NextUnder(before: seq<Join>, next: seq<Join>, parent: seq<string>, nodes: seq<Populated>)
    requires nodes != [] && KeysOnce(nodes) && NoneUnder(before, parent, nodes)
    requires GrowsAt(before, next, parent + [nodes[0].key])
    ensures NoneUnder(next, parent, nodes[1..])
  {
    forall i, k | 0 <= i < |next| && 0 <= k < |nodes[1..]| ensures !(parent + [nodes[1..][k].key] <= next[i].path) {
      assert nodes[1..][k] == nodes[k + 1] && nodes[k + 1].key != nodes[0].key;
      if i < |before| {
        assert next[i] == before[i];
      } else {
        OneKeyAt(parent, nodes[0].key, nodes[k + 1].key, next[i].path);
      }
    }
  }

  lemma OneKeyAt(parent: seq<string>, key: string, other: string, path: seq<string>)
    ensures parent + [key] <= path && parent + [other] <= path ==> key == other
  {
    if parent + [key] <= path && parent + [other] <= path {
      assert (parent + [key])[|parent|] == path[|parent|] == (parent + [other])[|parent|];
    }
  }

  lemma UnderEither(
    before: seq<Join>, next: seq<Join>, after: seq<Join>, parent: seq<string>, nodes: seq<Populated>)
    requires nodes != [] && GrowsAt(before, next, parent + [nodes[0].key])
             && GrowsUnder(next, after, parent, nodes[1..])
    ensures GrowsUnder(before, after, parent, nodes)
  {
    forall i | |before| <= i < |after| ensures LeadsFrom(after[i].path, parent, nodes) {
      if i < |next| {
        assert after[i] == next[i];
      } else {
        var k :| 0 <= k < |nodes[1..]| && parent + [nodes[1..][k].key] <= after[i].path;
        assert nodes[1..][k] == nodes[k + 1];
      }
    }
  }

  lemma RequiredAfter(joins: seq<Join>, join: Join)
    ensures HasRequired(joins + [join]) <==> HasRequired(joins) || join.required
  {
    var all := joins + [join];
    assert all[|joins|] == join;
    if HasRequired(joins) {
      var i :| 0 <= i < |joins| && joins[i].required;
      assert all[i] == joins[i];
    }
  }

  lemma ThereIsUnder(joins: seq<Join>, path: seq<string>)
    ensures Has(joins, path) ==> exists i :: 0 <= i < |joins| && path <= joins[i].path
  {
    if Has(joins, path) {
      assert path <= joins[At(joins, path)].path;
    }
  }

  lemma NothingThere(joins: seq<Join>, parent: seq<string>, nodes: seq<Populated>)
    requires nodes != [] && NoneUnder(joins, parent, nodes)
    ensures At(joins, parent + [nodes[0].key]) == |joins|
  {
    ThereIsUnder(joins, parent + [nodes[0].key]);
  }

  /** What is populated under a parent is joined under it, at the keys asked for, and required where it asks. */
  lemma {:induction false} PopulateGrowsUnder(
    schema: Schema, s: Joins, entity: string, nodes: seq<Populated>, parent: seq<string>)
    requires KeysOnce(nodes) && NoneUnder(s.joins, parent, nodes)
    ensures var after := WithPopulate(schema, s, entity, nodes, parent);
            && GrowsUnder(s.joins, after.joins, parent, nodes)
            && (HasRequired(after.joins) <==> HasRequired(s.joins) || AsksRequired(schema, entity, nodes))
    decreases nodes
  {
    if nodes != [] {
      var node, next := nodes[0], s;
      var path := parent + [node.key];
      if node.asked && IsJoinable(schema, entity, node.key) {
        var target := schema(entity, node.key).value.target;
        NothingThere(s.joins, parent, nodes);
        var (added, join) := Added(s, path, target, node.required, true);
        NoneUnderChild(s.joins, parent, nodes, join);
        PopulateGrowsUnder(schema, added, target, node.children, path);
        next := WithPopulate(schema, added, target, node.children, path);
        RequiredAfter(s.joins, join);
        ChildrenGrowAt(s.joins, join, next.joins, node.children);
      }
      NextUnder(s.joins, next.joins, parent, nodes);
      PopulateGrowsUnder(schema, next, entity, nodes[1..], parent);
      UnderEither(s.joins, next.joins, WithPopulate(schema, next, entity, nodes[1..], parent).joins, parent, nodes);
    }
  }

  /** A query drops rows that have no match exactly where what it populates asks it to, at any depth. */
  lemma RequiredAsAsked(
    schema: Schema, entity: string, populate: seq<Populated>, sort: seq<PathField>, taken: set<string>)
    requires KeysOnce(populate)
    ensures HasRequired(Resolved(schema, entity, populate, sort, taken).joins)
            <==> AsksRequired(schema, entity, populate)
  {
    ResolvedHolds(schema, entity, populate, sort, taken);
    PopulateGrowsUnder(schema, Joins([], taken), entity, populate, []);
  }
}
