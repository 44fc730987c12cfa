/** A JSON update's operators gathered into writes, at most one for any path. */
module JsonFold {
  import opened Options
  import opened JsonDocuments
  import opened JsonSql
  import opened JsonUpdates

  datatype KeyItem = KeyItem(key: string, item: Json)

  /** An object's update: what each operator holds, in its own order. */
  datatype Update = Update(
    pull: seq<KeyItem>, set': seq<Assignment>, push: seq<KeyItem>, addToSet: seq<KeyItem>, unset: seq<Path>)

  // ----- the writes as maps -----

  function IndexOf(sets: seq<Assignment>, path: Path): (i: nat)
    ensures i <= |sets| && (i < |sets| ==> sets[i].path == path)
    ensures forall j :: 0 <= j < i ==> sets[j].path != path
  {
    if sets == [] || sets[0].path == path then 0 else 1 + IndexOf(sets[1..], path)
  }

  predicate HasPath(sets: seq<Assignment>, path: Path) {
    IndexOf(sets, path) < |sets|
  }

  /** The writes without those at `path` and inside it. */
  function DropWithin(sets: seq<Assignment>, path: Path): seq<Assignment> {
    if sets == [] then []
    else if path <= sets[0].path then DropWithin(sets[1..], path)
    else [sets[0]] + DropWithin(sets[1..], path)
  }

  /** The length of the shortest proper prefix of `path`, from `depth` on, that a write holds; none is `|path|`. */
  function OwnerDepth(sets: seq<Assignment>, path: Path, depth: nat): (d: nat)
    requires depth <= |path|
    ensures depth <= d <= |path|
    ensures d < |path| ==> HasPath(sets, path[..d])
    ensures forall e :: depth <= e < d ==> !HasPath(sets, path[..e])
    decreases |path| - depth
  {
    if depth == |path| || HasPath(sets, path[..depth]) then depth else OwnerDepth(sets, path, depth + 1)
  }

  function DropKey(arrays: seq<KeyWrites>, key: string): seq<KeyWrites> {
    if arrays == [] then []
    else if arrays[0].key == key then DropKey(arrays[1..], key)
    else [arrays[0]] + DropKey(arrays[1..], key)
  }

  /** A key's writes in place of those it had, or after the others. */
  function PutKey(arrays: seq<KeyWrites>, key: string, w: ArrayWrites): seq<KeyWrites> {
    if arrays == [] then [KeyWrites(key, w)]
    else if arrays[0].key == key then [KeyWrites(key, w)] + arrays[1..]
    else [arrays[0]] + PutKey(arrays[1..], key, w)
  }

  // ----- each operator -----

  function Pulls(pull: seq<KeyItem>, arrays: seq<KeyWrites>): seq<KeyWrites>
    decreases |pull|
  {
    if pull == [] then arrays
    else Pulls(pull[1..], PutKey(arrays, pull[0].key, ArrayWrites([pull[0].item], [])))
  }

  /**
   * A path set: whatever was written at it or inside it goes, and one inside a value set is worked out in that value.
   */
  function FoldSet(w: Writes, path: Path, item: Json): Writes
    requires path != []
  {
    var sets, d := DropWithin(w.set', path), OwnerDepth(w.set', path, 1);
    if d < |path| then
      OwnerKept(w.set', path, d);
      var at := IndexOf(sets, path[..d]);
      Writes(sets[at := Assignment(path[..d], WithPath(sets[at].value, path[d..], item))], DropKey(w.arrays, path[0]),
             w.unset)
    else Writes(sets + [Assignment(path, item)], DropKey(w.arrays, path[0]), w.unset)
  }

  lemma {:induction false} OwnerKept(sets: seq<Assignment>, path: Path, d: nat)
    requires d < |path| && HasPath(sets, path[..d])
    ensures HasPath(DropWithin(sets, path), path[..d])
  {
    assert !(path <= path[..d]);
    if sets[0].path != path[..d] {
      OwnerKept(sets[1..], path, d);
    }
  }

  /** `w` with an item more: a unique one once, and looked for in the array stored unless a pull removes it. */
  function WithAppend(w: ArrayWrites, item: Json, unique: bool): ArrayWrites {
    if unique && exists a :: a in w.appends && a.item == item then w
    else w.(appends := w.appends + [Append(item, unique && item !in w.pulls)])
  }

  /** An array with an item more, or of one item where there is none; any other value stays. */
  function PushOne(v: Option<Json>, item: Json, unique: bool): Option<Json> {
    if IsNullish(v) then Some(Arr([item]))
    else if v.value.Arr? && !(unique && item in v.value.items) then Some(Arr(v.value.items + [item]))
    else v
  }

  predicate SetsInside(sets: seq<Assignment>, key: string) {
    exists s :: s in sets && [key] <= s.path && |s.path| > 1
  }

  /**
   * An item folded in: worked out in the value set at its key, dropped under a dotted one, or added to the key's
   * writes.
   */
  function AppendTo(w: Writes, key: string, item: Json, unique: bool): Writes {
    var at := IndexOf(w.set', [key]);
    if at < |w.set'| then
      w.(set' := w.set'[at := Assignment([key], PushOne(Some(w.set'[at].value), item, unique).value)])
    else if SetsInside(w.set', key) then w
    else
      var found := Find(w.arrays, key);
      w.(arrays := PutKey(w.arrays, key, WithAppend(if found.Some? then found.value
                                                    else ArrayWrites([], []), item, unique)))
  }

  /** A path removed: from the value set that it is inside of, or from the document. */
  function FoldUnset(w: Writes, path: Path): Writes
    requires path != []
  {
    var sets, d := DropWithin(w.set', path), OwnerDepth(w.set', path, 1);
    var arrays := if |path| == 1 then DropKey(w.arrays, path[0]) else w.arrays;
    if d < |path| then
      OwnerKept(w.set', path, d);
      var at := IndexOf(sets, path[..d]);
      Writes(sets[at := Assignment(path[..d], Remove(sets[at].value, path[d..]))], arrays, w.unset)
    else Writes(sets, arrays, if path in w.unset then w.unset else w.unset + [path])
  }

  // ----- the fold -----

  predicate Given(u: Update) {
    && (forall i :: 0 <= i < |u.set'| ==> u.set'[i].path != [])
    && (forall i :: 0 <= i < |u.unset| ==> u.unset[i] != [])
  }

  predicate DistinctItems(items: seq<KeyItem>) {
    forall i, j :: 0 <= i < j < |items| ==> items[i].key != items[j].key
  }

  /** An update as its operators hold it: a `$pull` has each of its keys once, and no path is empty. */
  type ObjectUpdate = u: Update | Given(u) && DistinctItems(u.pull) witness Update([], [], [], [], [])

  /** What a JSON column is assigned in place of a value: an object's update, or an array's. */
  datatype Change =
    | OfObject(update: ObjectUpdate, notNull: bool)
    | OfArray(pulls: seq<Json>, pushes: seq<Json>, adds: seq<Json>)

  function Sets(sets: seq<Assignment>, w: Writes): Writes
    requires forall i :: 0 <= i < |sets| ==> sets[i].path != []
    decreases |sets|
  {
    if sets == [] then w else Sets(sets[1..], FoldSet(w, sets[0].path, sets[0].value))
  }

  function Appends(items: seq<KeyItem>, unique: bool, w: Writes): Writes
    decreases |items|
  {
    if items == [] then w else Appends(items[1..], unique, AppendTo(w, items[0].key, items[0].item, unique))
  }

  function Unsets(paths: seq<Path>, w: Writes): Writes
    requires forall i :: 0 <= i < |paths| ==> paths[i] != []
    decreases |paths|
  {
    if paths == [] then w else Unsets(paths[1..], FoldUnset(w, paths[0]))
  }

  /** The writes of the whole update, each operator folded into those of the operators before it. */
  function Folded(u: Update): Writes
    requires Given(u)
  {
    var pulled := Writes([], Pulls(u.pull, []), []);
    Unsets(u.unset, Appends(u.addToSet, true, Appends(u.push, false, Sets(u.set', pulled))))
  }

  method FoldJsonUpdate(u: Update) returns (w: Writes)
    requires Given(u)
    ensures w == Folded(u)
  {
    var arrays: seq<KeyWrites> := [];
    assert u.pull[0..] == u.pull && u.set'[0..] == u.set' && u.push[0..] == u.push;
    assert u.addToSet[0..] == u.addToSet && u.unset[0..] == u.unset;
    for i := 0 to |u.pull|
      invariant Pulls(u.pull[i..], arrays) == Pulls(u.pull, [])
    {
      assert u.pull[i..][1..] == u.pull[i + 1..];
      arrays := PutKey(arrays, u.pull[i].key, ArrayWrites([u.pull[i].item], []));
    }
    w := Writes([], arrays, []);
    ghost var sets := Sets(u.set', w);
    for i := 0 to |u.set'|
      invariant Sets(u.set'[i..], w) == sets
    {
      assert u.set'[i..][1..] == u.set'[i + 1..];
      w := FoldSet(w, u.set'[i].path, u.set'[i].value);
    }
    ghost var pushes := Appends(u.push, false, w);
    for i := 0 to |u.push|
      invariant Appends(u.push[i..], false, w) == pushes
    {
      assert u.push[i..][1..] == u.push[i + 1..];
      w := AppendTo(w, u.push[i].key, u.push[i].item, false);
    }
    ghost var adds := Appends(u.addToSet, true, w);
    for i := 0 to |u.addToSet|
      invariant Appends(u.addToSet[i..], true, w) == adds
    {
      assert u.addToSet[i..][1..] == u.addToSet[i + 1..];
      w := AppendTo(w, u.addToSet[i].key, u.addToSet[i].item, true);
    }
    ghost var unsets := Unsets(u.unset, w);
    for i := 0 to |u.unset|
      invariant Unsets(u.unset[i..], w) == unsets
    {
      assert u.unset[i..][1..] == u.unset[i + 1..];
      w := FoldUnset(w, u.unset[i]);
    }
  }

  // ----- an array column -----

  /** The writes of an array column's update: each pull, then each push, then each `$addToSet` once. */
  function AppendItems(w: ArrayWrites, items: seq<Json>, unique: bool): ArrayWrites
    decreases |items|
  {
    if items == [] then w else AppendItems(WithAppend(w, items[0], unique), items[1..], unique)
  }

  function FoldedArray(pulls: seq<Json>, pushes: seq<Json>, adds: seq<Json>): ArrayWrites {
    AppendItems(AppendItems(ArrayWrites(pulls, []), pushes, false), adds, true)
  }

  method FoldJsonArrayUpdate(pulls: seq<Json>, pushes: seq<Json>, adds: seq<Json>) returns (w: ArrayWrites)
    ensures w == FoldedArray(pulls, pushes, adds)
  {
    w := ArrayWrites(pulls, []);
    assert pushes[0..] == pushes && adds[0..] == adds;
    for i := 0 to |pushes|
      invariant AppendItems(w, pushes[i..], false) == AppendItems(ArrayWrites(pulls, []), pushes, false)
    {
      assert pushes[i..][1..] == pushes[i + 1..];
      w := WithAppend(w, pushes[i], false);
    }
    ghost var pushed := w;
    for i := 0 to |adds|
      invariant AppendItems(w, adds[i..], true) == AppendItems(pushed, adds, true)
    {
      assert adds[i..][1..] == adds[i + 1..];
      w := WithAppend(w, adds[i], true);
    }
  }

  /** Every unique append is of an item no pull removes. */
  predicate Looked(w: ArrayWrites) {
    forall a :: a in w.appends && a.unique ==> a.item !in w.pulls
  }

  lemma {:induction false} AppendAllThen(items: seq<Json>, appends: seq<Append>, a: Append, stored: seq<Json>)
    ensures AppendAll(items, appends + [a], stored)
         == AppendAll(items, appends, stored) + (if a.unique && a.item in stored then [] else [a.item])
    decreases |appends|
  {
    if appends == [] {
      assert appends + [a] == [a] && [a][1..] == [];
    } else {
      var added := if appends[0].unique && appends[0].item in stored then [] else [appends[0].item];
      assert (appends + [a])[0] == appends[0] && (appends + [a])[1..] == appends[1..] + [a];
      AppendAllThen(items + added, appends[1..], a, stored);
    }
  }

  /** What an array holds once items are appended: what it held, and each item unless it was kept out. */
  lemma {:induction false} AppendAllHolds(items: seq<Json>, appends: seq<Append>, stored: seq<Json>, x: Json)
    ensures x in AppendAll(items, appends, stored)
            <==> x in items || exists a :: a in appends && a.item == x && !(a.unique && x in stored)
    decreases |appends|
  {
    if appends != [] {
      var added := if appends[0].unique && appends[0].item in stored then [] else [appends[0].item];
      AppendAllHolds(items + added, appends[1..], stored, x);
      assert forall a :: a in appends <==> a == appends[0] || a in appends[1..];
    }
  }

  lemma {:induction false} WithoutHolds(items: seq<Json>, pulls: seq<Json>, x: Json)
    ensures x in Without(items, pulls) <==> x in items && x !in pulls
  {
    if items != [] {
      WithoutHolds(items[1..], pulls, x);
    }
  }

  lemma AppendAllFolds(kept: seq<Json>, w: ArrayWrites, stored: seq<Json>, item: Json, unique: bool)
    requires Looked(w) && (item in kept <==> item in stored && item !in w.pulls)
    ensures var left := AppendAll(kept, w.appends, stored);
            AppendAll(kept, WithAppend(w, item, unique).appends, stored)
              == if unique && item in left then left else left + [item]
  {
    AppendAllHolds(kept, w.appends, stored, item);
    AppendAllThen(kept, w.appends, Append(item, unique && item !in w.pulls), stored);
    if unique && exists a :: a in w.appends && a.item == item {
      var a :| a in w.appends && a.item == item;
      assert a.unique && item in stored ==> item in kept;
    }
  }

  /** An item folded into an array's writes leaves what appending it to the array they leave does. */
  lemma AppendFolds(v: Option<Json>, w: ArrayWrites, item: Json, unique: bool)
    requires Looked(w)
    ensures Looked(WithAppend(w, item, unique))
    ensures AfterWrites(v, WithAppend(w, item, unique)) == PushOne(AfterWrites(v, w), item, unique)
  {
    hide Without;
    if IsNullish(v) {
      AppendAllFolds([], w, [], item, unique);
      assert w.appends == [] ==> AppendAll([], w.appends, []) == [] && [] + [item] == [item];
      assert WithAppend(w, item, unique).appends != [];
    } else if v.value.Arr? {
      WithoutHolds(v.value.items, w.pulls, item);
      AppendAllFolds(Without(v.value.items, w.pulls), w, v.value.items, item, unique);
    }
  }

  function PushItems(v: Option<Json>, items: seq<Json>, unique: bool): Option<Json>
    decreases |items|
  {
    if items == [] then v else PushItems(PushOne(v, items[0], unique), items[1..], unique)
  }

  lemma {:induction false} ItemsFold(v: Option<Json>, w: ArrayWrites, items: seq<Json>, unique: bool)
    requires Looked(w)
    ensures Looked(AppendItems(w, items, unique))
    ensures AfterWrites(v, AppendItems(w, items, unique)) == PushItems(AfterWrites(v, w), items, unique)
    decreases |items|
  {
    if items != [] {
      AppendFolds(v, w, items[0], unique);
      ItemsFold(v, WithAppend(w, items[0], unique), items[1..], unique);
    }
  }

  /** A value without every element a pull equals, if it is an array. */
  function PullItems(v: Option<Json>, pulls: seq<Json>): Option<Json> {
    if v.Some? && v.value.Arr? then Some(Arr(Without(v.value.items, pulls))) else v
  }

  /**
   * An array column's update, folded and compiled to one expression that reads the column as stored, is its pulls,
   * then its pushes, then its `$addToSet`s, each looking in the array as those before it left it.
   */
  lemma ArrayFoldMeans(f: Flavor, pulls: seq<Json>, pushes: seq<Json>, adds: seq<Json>, stored: Option<Json>)
    ensures Eval(ArrayUpdateSql(f, FoldedArray(pulls, pushes, adds)), stored)
         == PushItems(PushItems(PullItems(stored, pulls), pushes, false), adds, true)
  {
    var w := ArrayWrites(pulls, []);
    ArrayUpdateMeans(f, FoldedArray(pulls, pushes, adds), stored);
    ItemsFold(stored, w, pushes, false);
    ItemsFold(stored, AppendItems(w, pushes, false), adds, true);
    assert stored.Some? && stored.value.Arr? ==>
        AppendAll(Without(stored.value.items, pulls), [], stored.value.items) == Without(stored.value.items, pulls);
  }
}
