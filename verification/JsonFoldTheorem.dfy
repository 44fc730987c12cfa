/** A folded JSON update leaves what its operators, applied one after another, leave. */
module JsonFoldTheorem {
  import opened Options
  import opened JsonDocuments
  import opened JsonSql
  import opened JsonUpdates
  import opened JsonUpdateTheorem
  import opened JsonFold

  // ----- the operators, one after another -----

  function PullAt(doc: Json, key: string, item: Json): Json {
    if doc.Obj? && key in doc.fields && doc.fields[key].Arr?
    then Obj(doc.fields[key := Arr(Without(doc.fields[key].items, [item]))])
    else doc
  }

  function PushAt(doc: Json, key: string, item: Json, unique: bool): Json {
    if !doc.Obj? then doc
    else Obj(doc.fields[key := PushOne(Get(doc, [key]), item, unique).value])
  }

  function PullAll(doc: Json, items: seq<KeyItem>): Json
    decreases |items|
  {
    if items == [] then doc else PullAll(PullAt(doc, items[0].key, items[0].item), items[1..])
  }

  function PushAll(doc: Json, items: seq<KeyItem>, unique: bool): Json
    decreases |items|
  {
    if items == [] then doc else PushAll(PushAt(doc, items[0].key, items[0].item, unique), items[1..], unique)
  }

  /** The document an update leaves of another: `$pull`, `$set` in order, `$push`, `$addToSet` and `$unset`. */
  function InTurn(u: Update, doc: Json): Json
    requires Given(u)
  {
    RemoveAll(PushAll(PushAll(SetAll(PullAll(doc, u.pull), u.set'), u.push, false), u.addToSet, true), u.unset)
  }

  /** What the writes leave of a document. */
  function Left(w: Writes, doc: Json): Json
    requires PathsGiven(w)
  {
    RemoveAll(SetAll(WriteArrays(doc, w.arrays), w.set'), w.unset)
  }

  // ----- what a fold keeps -----

  /** Each path written once, and each array's unique appends of what it does not pull. */
  predicate IsFold(w: Writes) {
    IsFolded(w) && forall i :: 0 <= i < |w.arrays| ==> Looked(w.arrays[i].writes)
  }

  lemma {:induction false} DropKeyHolds(arrays: seq<KeyWrites>, key: string)
    ensures forall a :: a in DropKey(arrays, key) <==> a in arrays && a.key != key
  {
    if arrays != [] {
      DropKeyHolds(arrays[1..], key);
      assert arrays == [arrays[0]] + arrays[1..];
    }
  }

  lemma {:induction false} DropKeyFinds(arrays: seq<KeyWrites>, key: string, k: string)
    ensures Find(DropKey(arrays, key), k) == if k == key then None else Find(arrays, k)
  {
    if arrays != [] {
      DropKeyFinds(arrays[1..], key, k);
    }
  }

  lemma {:induction false} DropKeyDistinct(arrays: seq<KeyWrites>, key: string)
    requires DistinctKeys(arrays)
    ensures DistinctKeys(DropKey(arrays, key))
  {
    if arrays != [] {
      DropKeyDistinct(arrays[1..], key);
      DropKeyHolds(arrays[1..], key);
      HeadIsDistinct(arrays);
      FindsNone(arrays[1..], arrays[0].key);
      var rest := DropKey(arrays[1..], key);
      forall j | 0 <= j < |rest| ensures rest[j].key != arrays[0].key {
        assert rest[j] in rest;
      }
    }
  }

  lemma {:induction false} PutKeyFinds(arrays: seq<KeyWrites>, key: string, w: ArrayWrites, k: string)
    ensures Find(PutKey(arrays, key, w), k) == if k == key then Some(w) else Find(arrays, k)
  {
    if arrays != [] && arrays[0].key != key {
      PutKeyFinds(arrays[1..], key, w, k);
    }
  }

  lemma {:induction false} PutKeyHolds(arrays: seq<KeyWrites>, key: string, w: ArrayWrites)
    ensures forall a :: a in PutKey(arrays, key, w) ==> a == KeyWrites(key, w) || a in arrays
  {
    if arrays != [] {
      PutKeyHolds(arrays[1..], key, w);
    }
  }

  lemma {:induction false} PutKeyDistinct(arrays: seq<KeyWrites>, key: string, w: ArrayWrites)
    requires DistinctKeys(arrays)
    ensures DistinctKeys(PutKey(arrays, key, w))
  {
    if arrays != [] && arrays[0].key != key {
      HeadIsDistinct(arrays);
      PutKeyDistinct(arrays[1..], key, w);
      PutKeyHolds(arrays[1..], key, w);
      FindsNone(arrays[1..], arrays[0].key);
      var rest := PutKey(arrays[1..], key, w);
      forall j | 0 <= j < |rest| ensures rest[j].key != arrays[0].key {
        assert rest[j] in rest;
      }
    }
  }

  predicate Covers(path: Path, sets: seq<Assignment>) {
    exists i :: 0 <= i < |sets| && path <= sets[i].path
  }

  lemma {:induction false} DropWithinHolds(sets: seq<Assignment>, path: Path)
    ensures forall s :: s in DropWithin(sets, path) <==> s in sets && !(path <= s.path)
    ensures !Covers(path, sets) ==> DropWithin(sets, path) == sets
  {
    if sets != [] {
      DropWithinHolds(sets[1..], path);
      assert sets == [sets[0]] + sets[1..];
      if !Covers(path, sets) {
        assert !(path <= sets[0].path);
        forall i | 0 <= i < |sets[1..]| ensures !(path <= sets[1..][i].path) {
          assert sets[1..][i] == sets[i + 1];
        }
      }
    }
  }

  predicate AllGiven(sets: seq<Assignment>) {
    forall i :: 0 <= i < |sets| ==> sets[i].path != []
  }

  lemma ApartTail(sets: seq<Assignment>)
    requires sets != [] && AllApart(sets)
    ensures AllApart(sets[1..]) && forall s :: s in sets[1..] ==> Apart(sets[0].path, s.path) && s in sets
  {
    forall s | s in sets[1..] ensures Apart(sets[0].path, s.path) && s in sets {
      var i :| 0 <= i < |sets[1..]| && sets[1..][i] == s;
      assert sets[i + 1] == s;
    }
  }

  lemma {:induction false} DropWithinApart(sets: seq<Assignment>, path: Path)
    requires AllApart(sets)
    ensures AllApart(DropWithin(sets, path))
  {
    if sets != [] {
      ApartTail(sets);
      DropWithinApart(sets[1..], path);
      DropWithinHolds(sets[1..], path);
      var rest := DropWithin(sets[1..], path);
      forall j | 0 <= j < |rest| ensures Apart(sets[0].path, rest[j].path) {
        assert rest[j] in rest;
      }
    }
  }

  // ----- setting among what is set -----

  /** A path set after others, where none is at it or leads to it: those inside it go, and it is set before the rest. */
  lemma {:induction false} SetPastOthers(doc: Json, sets: seq<Assignment>, path: Path, item: Json)
    requires path != [] && AllGiven(sets)
    requires forall s :: s in sets ==> Apart(s.path, path) || path <= s.path
    ensures AllGiven(DropWithin(sets, path))
    ensures SetPath(SetAll(doc, sets), path, item) == SetAll(SetPath(doc, path, item), DropWithin(sets, path))
    decreases |sets|
  {
    DropWithinHolds(sets, path);
    if sets != [] {
      var s := sets[0];
      assert s in sets && forall t :: t in sets[1..] ==> t in sets;
      SetPastOthers(SetPath(doc, s.path, s.value), sets[1..], path, item);
      if path <= s.path {
        SetOver(doc, s.path, s.value, path, item);
      } else {
        SetsCommute(doc, s.path, s.value, path, item);
        assert DropWithin(sets, path)[1..] == DropWithin(sets[1..], path);
      }
    }
  }

  lemma {:induction false} SetAllThen(doc: Json, sets: seq<Assignment>, s: Assignment)
    requires AllGiven(sets) && s.path != []
    ensures AllGiven(sets + [s])
    ensures SetAll(doc, sets + [s]) == SetPath(SetAll(doc, sets), s.path, s.value)
    decreases |sets|
  {
    if sets == [] {
      assert sets + [s] == [s] && [s][1..] == [];
    } else {
      assert (sets + [s])[0] == sets[0] && (sets + [s])[1..] == sets[1..] + [s];
      SetAllThen(SetPath(doc, sets[0].path, sets[0].value), sets[1..], s);
    }
  }

  /** A path set inside a value another path was set to is worked out in that value. */
  lemma {:induction false} SetInsideOwner(doc: Json, sets: seq<Assignment>, at: nat, rest: Path, item: Json)
    requires at < |sets| && AllGiven(sets) && AllApart(sets) && rest != []
    ensures var s := sets[at];
            SetPath(SetAll(doc, sets), s.path + rest, item)
              == SetAll(doc, sets[at := Assignment(s.path, WithPath(s.value, rest, item))])
    decreases at
  {
    var s, path := sets[at], sets[at].path + rest;
    var set' := sets[at := Assignment(s.path, WithPath(s.value, rest, item))];
    if at == 0 {
      ApartTail(sets);
      forall t | t in sets[1..] ensures Apart(t.path, path) {
        ApartBelow(s.path, rest, t.path);
      }
      SetPastOthers(SetPath(doc, s.path, s.value), sets[1..], path, item);
      NotCovered(sets[1..], path);
      DropWithinHolds(sets[1..], path);
      SetInside(doc, s.path, s.value, rest, item);
      assert set'[1..] == sets[1..];
    } else {
      SetInsideOwner(SetPath(doc, sets[0].path, sets[0].value), sets[1..], at - 1, rest, item);
      assert set'[1..] == sets[1..][at - 1 := Assignment(s.path, WithPath(s.value, rest, item))];
    }
  }

  lemma Comparable(p: Path, q: Path, r: Path)
    requires p <= r && q <= r
    ensures p <= q || q <= p
  {
    assert if |p| <= |q| then p == q[..|p|] else q == p[..|q|];
  }

  lemma ApartBelow(p: Path, rest: Path, q: Path)
    requires Apart(p, q)
    ensures Apart(q, p + rest)
  {
    assert p <= p + rest;
    if q <= p + rest {
      Comparable(p, q, p + rest);
    }
  }

  lemma NotCovered(sets: seq<Assignment>, path: Path)
    requires forall s :: s in sets ==> Apart(s.path, path)
    ensures !Covers(path, sets)
  {
    forall i | 0 <= i < |sets| ensures !(path <= sets[i].path) {
      assert sets[i] in sets;
    }
  }

  // ----- a path set -----

  lemma NoOwner(sets: seq<Assignment>, path: Path)
    requires path != [] && AllGiven(sets) && OwnerDepth(sets, path, 1) == |path|
    ensures forall s :: s in sets ==> Apart(s.path, path) || path <= s.path
  {
    forall s | s in sets && s.path <= path ensures path <= s.path {
      var i :| 0 <= i < |sets| && sets[i] == s;
      assert s.path == path[..|s.path|];
      assert HasPath(sets, path[..|s.path|]);
    }
  }

  lemma StartsAlike(path: Path, d: nat, q: Path)
    requires d <= |path|
    ensures path <= q ==> path[..d] <= q && |path| <= |q|
  {
  }

  lemma OwnerCovers(sets: seq<Assignment>, path: Path, d: nat)
    requires AllApart(sets) && d < |path| && HasPath(sets, path[..d])
    ensures !Covers(path, sets)
  {
    var at := IndexOf(sets, path[..d]);
    forall i | 0 <= i < |sets| ensures !(path <= sets[i].path) {
      StartsAlike(path, d, sets[i].path);
    }
  }

  predicate HeadsFree(sets: seq<Assignment>, arrays: seq<KeyWrites>)
    requires AllGiven(sets)
  {
    forall i, j :: 0 <= i < |sets| && 0 <= j < |arrays| ==> sets[i].path[0] != arrays[j].key
  }

  lemma HeadFree(sets: seq<Assignment>, arrays: seq<KeyWrites>, s: Assignment)
    requires AllGiven(sets) && HeadsFree(sets, arrays) && s in sets
    ensures Find(arrays, s.path[0]).None?
  {
    var i :| 0 <= i < |sets| && sets[i] == s;
    FindsNone(arrays, s.path[0]);
  }

  lemma SetsReplaced(sets: seq<Assignment>, at: nat, v: Json, arrays: seq<KeyWrites>)
    requires at < |sets| && AllGiven(sets) && AllApart(sets) && HeadsFree(sets, arrays)
    ensures var set' := sets[at := Assignment(sets[at].path, v)];
            AllGiven(set') && AllApart(set') && HeadsFree(set', arrays)
  {
  }

  /** The writes left where a key's go. */
  lemma KeyDropped(w: Writes, key: string)
    requires IsFold(w)
    ensures var arrays := DropKey(w.arrays, key);
            && DistinctKeys(arrays)
            && HeadsFree(w.set', arrays)
            && (forall i :: 0 <= i < |arrays| ==> Looked(arrays[i].writes) && arrays[i].key != key)
  {
    var arrays := DropKey(w.arrays, key);
    DropKeyDistinct(w.arrays, key);
    DropKeyHolds(w.arrays, key);
    forall i | 0 <= i < |arrays| ensures arrays[i] in w.arrays && arrays[i].key != key {
    }
  }

  predicate AllLooked(arrays: seq<KeyWrites>) {
    forall i :: 0 <= i < |arrays| ==> Looked(arrays[i].writes)
  }

  /** What of some writes' parts makes them a fold. */
  lemma MakesFold(w: Writes, sets: seq<Assignment>, arrays: seq<KeyWrites>)
    requires IsFold(w) && AllGiven(sets) && AllApart(sets) && HeadsFree(sets, arrays)
    requires DistinctKeys(arrays) && AllLooked(arrays)
    ensures IsFold(Writes(sets, arrays, w.unset))
  {
  }

  lemma FoldSetKeeps(w: Writes, path: Path, item: Json)
    requires IsFold(w) && path != []
    ensures IsFold(FoldSet(w, path, item))
  {
    KeyDropped(w, path[0]);
    var arrays := DropKey(w.arrays, path[0]);
    var d := OwnerDepth(w.set', path, 1);
    if d < |path| {
      OwnerCovers(w.set', path, d);
      DropWithinHolds(w.set', path);
      var at := IndexOf(w.set', path[..d]);
      SetsReplaced(w.set', at, WithPath(w.set'[at].value, path[d..], item), arrays);
      assert w.set'[at].path == path[..d];
    } else {
      NoOwner(w.set', path);
      SetAdded(w.set', arrays, path, item);
    }
    assert AllLooked(arrays);
    MakesFold(w, FoldSet(w, path, item).set', arrays);
  }

  lemma SetAdded(sets: seq<Assignment>, arrays: seq<KeyWrites>, path: Path, item: Json)
    requires AllGiven(sets) && AllApart(sets) && HeadsFree(sets, arrays) && path != []
    requires forall s :: s in sets ==> Apart(s.path, path) || path <= s.path
    requires forall j :: 0 <= j < |arrays| ==> arrays[j].key != path[0]
    ensures var set' := DropWithin(sets, path) + [Assignment(path, item)];
            AllGiven(set') && AllApart(set') && HeadsFree(set', arrays)
  {
    DropWithinApart(sets, path);
    DropWithinHolds(sets, path);
    var left := DropWithin(sets, path);
    forall i | 0 <= i < |left| ensures Apart(left[i].path, path) && left[i].path != [] {
      assert left[i] in left;
    }
    forall i, j | 0 <= i < |left| && 0 <= j < |arrays| ensures left[i].path[0] != arrays[j].key {
      assert left[i] in left;
      HeadFree(sets, arrays, left[i]);
      FindsNone(arrays, left[i].path[0]);
    }
  }

  /** Two documents that hold the same but at a key, and there the same object or none. */
  ghost predicate SameBut(a: Json, b: Json, key: string) {
    && a.Obj? && b.Obj?
    && (forall k :: k != key ==> Get(a, [k]) == Get(b, [k]))
    && Inner(a, key) == Inner(b, key)
  }

  lemma {:induction false} ArrayIsNoObject(doc: Json, arrays: seq<KeyWrites>, key: string)
    requires doc.Obj? && DistinctKeys(arrays)
    ensures SameBut(WriteArrays(doc, arrays), WriteArrays(doc, DropKey(arrays, key)), key)
  {
    var all, others := WriteArrays(doc, arrays), WriteArrays(doc, DropKey(arrays, key));
    DropKeyDistinct(arrays, key);
    forall k ensures all.Obj? && others.Obj?
      ensures Get(all, [k]) == LeftBy(Find(arrays, k), Get(doc, [k]))
      ensures Get(others, [k]) == if k == key then Get(doc, [k]) else LeftBy(Find(arrays, k), Get(doc, [k]))
    {
      ArraysWritten(arrays, doc, k);
      ArraysWritten(DropKey(arrays, key), doc, k);
      DropKeyFinds(arrays, key, k);
    }
    GetKey(all, key);
    GetKey(others, key);
  }

  lemma SetKeepsSame(a: Json, b: Json, key: string, path: Path, v: Json)
    requires path != [] && path[0] != key && SameBut(a, b, key)
    ensures SameBut(SetPath(a, path, v), SetPath(b, path, v), key)
  {
    forall k ensures k != key ==> Get(SetPath(a, path, v), [k]) == Get(SetPath(b, path, v), [k]) {
      GetKey(a, path[0]);
      GetKey(b, path[0]);
      assert Get(a, [path[0]]) == Get(b, [path[0]]);
      GetKey(SetPath(a, path, v), k);
      GetKey(SetPath(b, path, v), k);
      GetKey(a, k);
      GetKey(b, k);
    }
  }

  lemma SetMakesSame(a: Json, b: Json, path: Path, v: Json)
    requires path != [] && SameBut(a, b, path[0])
    ensures SetPath(a, path, v) == SetPath(b, path, v)
  {
    forall k ensures Get(SetPath(a, path, v), [k]) == Get(SetPath(b, path, v), [k]) {
      GetKey(SetPath(a, path, v), k);
      GetKey(SetPath(b, path, v), k);
      GetKey(a, k);
      GetKey(b, k);
    }
    SameKeysSameObject(SetPath(a, path, v), SetPath(b, path, v));
  }

  lemma {:induction false} SetPastArray(a: Json, b: Json, sets: seq<Assignment>, path: Path, v: Json)
    requires path != [] && AllGiven(sets) && SameBut(a, b, path[0])
    requires forall i :: 0 <= i < |sets| ==> sets[i].path[0] != path[0]
    ensures SetPath(SetAll(a, sets), path, v) == SetPath(SetAll(b, sets), path, v)
    decreases |sets|
  {
    if sets == [] {
      SetMakesSame(a, b, path, v);
    } else {
      SetKeepsSame(a, b, path[0], sets[0].path, sets[0].value);
      SetPastArray(SetPath(a, sets[0].path, sets[0].value), SetPath(b, sets[0].path, sets[0].value), sets[1..], path,
                   v);
    }
  }

  lemma {:induction false} DropsNoKey(arrays: seq<KeyWrites>, key: string)
    requires Find(arrays, key).None?
    ensures DropKey(arrays, key) == arrays
  {
    if arrays != [] {
      DropsNoKey(arrays[1..], key);
    }
  }

  /** What was written to an array's key is nothing to a path set at it or inside it. */
  lemma ArrayDropped(w: Writes, path: Path, v: Json, doc: Json)
    requires IsFold(w) && path != [] && doc.Obj?
    ensures SetPath(SetAll(WriteArrays(doc, w.arrays), w.set'), path, v)
         == SetPath(SetAll(WriteArrays(doc, DropKey(w.arrays, path[0])), w.set'), path, v)
  {
    if Find(w.arrays, path[0]).None? {
      DropsNoKey(w.arrays, path[0]);
    } else {
      ArrayIsNoObject(doc, w.arrays, path[0]);
      forall i | 0 <= i < |w.set'| ensures w.set'[i].path[0] != path[0] {
        HeadFree(w.set', w.arrays, w.set'[i]);
      }
      SetPastArray(WriteArrays(doc, w.arrays), WriteArrays(doc, DropKey(w.arrays, path[0])), w.set', path, v);
    }
  }

  /** A path folded into the writes leaves what setting it in the document they leave does. */
  lemma FoldSetMeans(w: Writes, path: Path, item: Json, doc: Json)
    requires IsFold(w) && path != [] && doc.Obj?
    ensures IsFold(FoldSet(w, path, item))
    ensures var next := FoldSet(w, path, item);
            SetAll(WriteArrays(doc, next.arrays), next.set') == SetPath(SetAll(WriteArrays(doc, w.arrays), w.set'),
                path, item)
  {
    hide WriteArrays, DropWithin, SetPath;
    FoldSetKeeps(w, path, item);
    ArrayDropped(w, path, item, doc);
    var from := WriteArrays(doc, DropKey(w.arrays, path[0]));
    var d := OwnerDepth(w.set', path, 1);
    if d < |path| {
      OwnerCovers(w.set', path, d);
      DropWithinHolds(w.set', path);
      assert path == path[..d] + path[d..];
      SetInsideOwner(from, w.set', IndexOf(w.set', path[..d]), path[d..], item);
    } else {
      var sets := DropWithin(w.set', path);
      NoOwner(w.set', path);
      SetPastOthers(from, w.set', path, item);
      DropWithinHolds(w.set', path);
      SetPastOthers(from, sets, path, item);
      NotCovered(sets, path);
      DropWithinHolds(sets, path);
      SetAllThen(from, sets, Assignment(path, item));
    }
  }

  // ----- an item appended -----

  lemma PushPastSet(doc: Json, key: string, item: Json, unique: bool, path: Path, v: Json)
    requires path != [] && path[0] != key
    ensures PushAt(SetPath(doc, path, v), key, item, unique) == SetPath(PushAt(doc, key, item, unique), path, v)
  {
    if doc.Obj? {
      var pushed := PushOne(Get(doc, [key]), item, unique).value;
      GetKey(doc, key);
      GetKey(SetPath(doc, path, v), key);
      var l := if |path| == 1 then v else SetPath(Inner(doc, path[0]), path[1..], v);
      TwoKeys(doc.fields, path[0], l, key, pushed);
    }
  }

  lemma {:induction false} PushPastSets(doc: Json, sets: seq<Assignment>, key: string, item: Json, unique: bool)
    requires AllGiven(sets) && forall i :: 0 <= i < |sets| ==> sets[i].path[0] != key
    ensures PushAt(SetAll(doc, sets), key, item, unique) == SetAll(PushAt(doc, key, item, unique), sets)
    decreases |sets|
  {
    if sets != [] {
      PushPastSet(doc, key, item, unique, sets[0].path, sets[0].value);
      PushPastSets(SetPath(doc, sets[0].path, sets[0].value), sets[1..], key, item, unique);
    }
  }

  /** An item appended to the value a key was set to. */
  lemma {:induction false} PushOntoSet(doc: Json, sets: seq<Assignment>, at: nat, item: Json, unique: bool)
    requires at < |sets| && AllGiven(sets) && AllApart(sets) && |sets[at].path| == 1
    ensures var s := sets[at];
            PushAt(SetAll(doc, sets), s.path[0], item, unique)
              == SetAll(doc, sets[at := Assignment(s.path, PushOne(Some(s.value), item, unique).value)])
    decreases at
  {
    var s, key := sets[at], sets[at].path[0];
    var set' := sets[at := Assignment(s.path, PushOne(Some(s.value), item, unique).value)];
    if at == 0 {
      forall i | 0 <= i < |sets[1..]| ensures sets[1..][i].path[0] != key {
        assert sets[1..][i] == sets[i + 1] && Apart(s.path, sets[i + 1].path);
        assert s.path == [key] && sets[i + 1].path == [sets[i + 1].path[0]] + sets[i + 1].path[1..];
      }
      var next := SetPath(doc, s.path, s.value);
      PushPastSets(next, sets[1..], key, item, unique);
      if doc.Obj? {
        GetKey(next, key);
        assert doc.fields[key := s.value][key := set'[0].value] == doc.fields[key := set'[0].value];
      }
      assert set'[1..] == sets[1..];
    } else {
      PushOntoSet(SetPath(doc, sets[0].path, sets[0].value), sets[1..], at - 1, item, unique);
      assert set'[1..] == sets[1..][at - 1 := set'[at]];
    }
  }

  /** A key a path leads through holds an object, which no item is appended to. */
  lemma {:induction false} KeyHoldsObject(doc: Json, sets: seq<Assignment>, key: string)
    requires doc.Obj? && AllGiven(sets) && forall i :: 0 <= i < |sets| ==> sets[i].path != [key]
    requires IsObjectAt(doc, [key]) || exists i :: 0 <= i < |sets| && sets[i].path[0] == key
    ensures IsObjectAt(SetAll(doc, sets), [key]) && SetAll(doc, sets).Obj?
    decreases |sets|
  {
    if sets != [] {
      var s := sets[0];
      var next := SetPath(doc, s.path, s.value);
      assert s.path == [s.path[0]] + s.path[1..];
      GetKey(doc, key);
      GetKey(next, key);
      if s.path[0] == key {
        assert Inner(doc, key).Obj? && next.fields[key] == SetPath(Inner(doc, key), s.path[1..], s.value);
        assert IsObjectAt(next, [key]);
      } else if IsObjectAt(doc, [key]) {
        assert Get(next, [key]) == Get(doc, [key]);
      } else {
        var i :| 0 <= i < |sets| && sets[i].path[0] == key;
        assert sets[1..][i - 1] == sets[i];
      }
      KeyHoldsObject(next, sets[1..], key);
    }
  }

  lemma HeadsOfOthers(sets: seq<Assignment>, key: string)
    requires AllGiven(sets) && !HasPath(sets, [key])
    ensures forall i :: 0 <= i < |sets| ==> sets[i].path != [key]
    ensures SetsInside(sets, key) <==> exists i :: 0 <= i < |sets| && sets[i].path[0] == key
  {
    forall i | 0 <= i < |sets| ensures sets[i].path[0] == key <==> [key] <= sets[i].path && |sets[i].path| > 1 {
      assert sets[i].path == [sets[i].path[0]] + sets[i].path[1..];
    }
    if i :| 0 <= i < |sets| && sets[i].path[0] == key {
      assert sets[i] in sets;
    }
  }

  /** An item folded into a key's array writes leaves what appending it to what they leave there does. */
  lemma PushOntoArray(w: Writes, key: string, item: Json, unique: bool, doc: Json)
    requires IsFold(w) && doc.Obj?
    ensures var found := Find(w.arrays, key);
            var put := WithAppend(if found.Some? then found.value else ArrayWrites([], []), item, unique);
            && Looked(put)
            && WriteArrays(doc, PutKey(w.arrays, key, put)) == PushAt(WriteArrays(doc, w.arrays), key, item, unique)
  {
    var found := Find(w.arrays, key);
    var had := if found.Some? then found.value else ArrayWrites([], []);
    var put := WithAppend(had, item, unique);
    FoundIsAmong(w.arrays, key);
    var before, after := WriteArrays(doc, w.arrays), WriteArrays(doc, PutKey(w.arrays, key, put));
    PutKeyDistinct(w.arrays, key, put);
    AppendFolds(Get(doc, [key]), had, item, unique);
    NoWritesLeave(Get(doc, [key]));
    var pushed := PushAt(before, key, item, unique);
    forall k ensures before.Obj? && after.Obj? && Get(after, [k]) == Get(pushed, [k]) {
      ArraysWritten(w.arrays, doc, k);
      ArraysWritten(w.arrays, doc, key);
      ArraysWritten(PutKey(w.arrays, key, put), doc, k);
      PutKeyFinds(w.arrays, key, put, k);
      GetKey(before, k);
      GetKey(pushed, k);
    }
    ArraysWritten(w.arrays, doc, key);
    ArraysWritten(PutKey(w.arrays, key, put), doc, key);
    SameKeysSameObject(after, pushed);
  }

  lemma {:induction false} FoundIsAmong(arrays: seq<KeyWrites>, key: string)
    ensures Find(arrays, key).Some? ==> exists i :: 0 <= i < |arrays| && arrays[i].writes == Find(arrays, key).value
  {
    if arrays != [] && arrays[0].key != key {
      FoundIsAmong(arrays[1..], key);
      if Find(arrays, key).Some? {
        var i :| 0 <= i < |arrays[1..]| && arrays[1..][i].writes == Find(arrays[1..], key).value;
        assert arrays[i + 1].writes == Find(arrays, key).value;
      }
    }
  }

  lemma NoWritesLeave(v: Option<Json>)
    ensures AfterWrites(v, ArrayWrites([], [])) == v
  {
    if v.Some? && v.value.Arr? {
      WithoutNone(v.value.items);
    }
  }

  lemma AppendToKeeps(w: Writes, key: string, item: Json, unique: bool)
    requires IsFold(w)
    ensures IsFold(AppendTo(w, key, item, unique))
  {
    var at := IndexOf(w.set', [key]);
    if at < |w.set'| {
      SetsReplaced(w.set', at, PushOne(Some(w.set'[at].value), item, unique).value, w.arrays);
    } else if !SetsInside(w.set', key) {
      var found := Find(w.arrays, key);
      var put := WithAppend(if found.Some? then found.value else ArrayWrites([], []), item, unique);
      HeadsOfOthers(w.set', key);
      PushOntoArray(w, key, item, unique, EMPTY_OBJECT);
      PutKeyDistinct(w.arrays, key, put);
      PutKeyHolds(w.arrays, key, put);
      var arrays := PutKey(w.arrays, key, put);
      forall j | 0 <= j < |arrays| ensures arrays[j] == KeyWrites(key, put) || arrays[j] in w.arrays {
      }
      HeadsFreeOf(w.set', w.arrays, arrays, key);
      assert AllLooked(arrays);
      MakesFold(w, w.set', arrays);
    }
  }

  lemma HeadsFreeOf(sets: seq<Assignment>, was: seq<KeyWrites>, arrays: seq<KeyWrites>, key: string)
    requires AllGiven(sets) && HeadsFree(sets, was) && forall i :: 0 <= i < |sets| ==> sets[i].path[0] != key
    requires forall j :: 0 <= j < |arrays| ==> arrays[j].key == key || arrays[j] in was
    ensures HeadsFree(sets, arrays)
  {
  }

  /** An item folded into the writes leaves what appending it in the document they leave does. */
  lemma AppendToMeans(w: Writes, key: string, item: Json, unique: bool, doc: Json)
    requires IsFold(w) && doc.Obj?
    ensures IsFold(AppendTo(w, key, item, unique))
    ensures var next := AppendTo(w, key, item, unique);
            SetAll(WriteArrays(doc, next.arrays), next.set')
              == PushAt(SetAll(WriteArrays(doc, w.arrays), w.set'), key, item, unique)
  {
    AppendToKeeps(w, key, item, unique);
    var from := WriteArrays(doc, w.arrays);
    ArraysWritten(w.arrays, doc, key);
    var at := IndexOf(w.set', [key]);
    if at < |w.set'| {
      PushOntoSet(from, w.set', at, item, unique);
    } else {
      HeadsOfOthers(w.set', key);
      if SetsInside(w.set', key) {
        var left := SetAll(from, w.set');
        KeyHoldsObject(from, w.set', key);
        GetKey(left, key);
        assert left.fields[key := left.fields[key]] == left.fields;
      } else {
        PushPastSets(from, w.set', key, item, unique);
        PushOntoArray(w, key, item, unique, doc);
      }
    }
  }

  // ----- a path removed -----

  lemma {:induction false} RemovePastSets(doc: Json, sets: seq<Assignment>, path: Path)
    requires path != [] && AllGiven(sets) && forall s :: s in sets ==> Apart(s.path, path)
    ensures Remove(SetAll(doc, sets), path) == SetAll(Remove(doc, path), sets)
    decreases |sets|
  {
    if sets != [] {
      assert sets[0] in sets && forall t :: t in sets[1..] ==> t in sets;
      RemoveApart(doc, sets[0].path, sets[0].value, path);
      RemovePastSets(SetPath(doc, sets[0].path, sets[0].value), sets[1..], path);
    }
  }

  lemma {:induction false} RemoveInsideOwner(doc: Json, sets: seq<Assignment>, at: nat, rest: Path)
    requires at < |sets| && AllGiven(sets) && AllApart(sets) && rest != []
    ensures var s := sets[at];
            Remove(SetAll(doc, sets), s.path + rest) == SetAll(doc,
                                                               sets[at := Assignment(s.path, Remove(s.value, rest))])
    decreases at
  {
    var s, path := sets[at], sets[at].path + rest;
    var set' := sets[at := Assignment(s.path, Remove(s.value, rest))];
    if at == 0 {
      ApartTail(sets);
      forall t | t in sets[1..] ensures Apart(t.path, path) {
        ApartBelow(s.path, rest, t.path);
      }
      RemovePastSets(SetPath(doc, s.path, s.value), sets[1..], path);
      RemoveInside(doc, s.path, s.value, rest);
      assert set'[1..] == sets[1..];
    } else {
      RemoveInsideOwner(SetPath(doc, sets[0].path, sets[0].value), sets[1..], at - 1, rest);
      assert set'[1..] == sets[1..][at - 1 := set'[at]];
    }
  }

  lemma {:induction false} RemoveAllThen(doc: Json, paths: seq<Path>, path: Path)
    requires path != [] && forall i :: 0 <= i < |paths| ==> paths[i] != []
    ensures forall i :: 0 <= i < |paths + [path]| ==> (paths + [path])[i] != []
    ensures RemoveAll(doc, paths + [path]) == Remove(RemoveAll(doc, paths), path) == RemoveAll(Remove(doc, path), paths)
    decreases |paths|
  {
    if paths == [] {
      assert paths + [path] == [path] && [path][1..] == [];
    } else {
      assert (paths + [path])[0] == paths[0] && (paths + [path])[1..] == paths[1..] + [path];
      RemovesCommute(doc, path, paths[0]);
      RemoveAllThen(Remove(doc, paths[0]), paths[1..], path);
    }
  }

  lemma {:induction false} RemovedAlready(doc: Json, paths: seq<Path>, path: Path)
    requires path in paths && path != [] && forall i :: 0 <= i < |paths| ==> paths[i] != []
    ensures RemoveAll(Remove(doc, path), paths) == RemoveAll(doc, paths)
    decreases |paths|
  {
    if paths[0] == path {
      RemoveTwice(doc, path);
    } else {
      RemovesCommute(doc, path, paths[0]);
      RemovedAlready(Remove(doc, paths[0]), paths[1..], path);
    }
  }

  /** Two documents that hold the same but at a key. */
  ghost predicate SameElsewhere(a: Json, b: Json, key: string) {
    a.Obj? && b.Obj? && forall k :: k != key ==> Get(a, [k]) == Get(b, [k])
  }

  lemma SetKeepsElsewhere(a: Json, b: Json, key: string, s: Assignment)
    requires s.path != [] && SameElsewhere(a, b, key)
    ensures SameElsewhere(SetPath(a, s.path, s.value), if s.path[0] == key then b else SetPath(b, s.path, s.value), key)
  {
    GetKey(a, s.path[0]);
    GetKey(b, s.path[0]);
    var b' := if s.path[0] == key then b else SetPath(b, s.path, s.value);
    forall k ensures k != key ==> Get(SetPath(a, s.path, s.value), [k]) == Get(b', [k]) {
      assert s.path[0] != key ==> Get(a, [s.path[0]]) == Get(b, [s.path[0]]);
      GetKey(SetPath(a, s.path, s.value), k);
      GetKey(b', k);
      GetKey(a, k);
      GetKey(b, k);
    }
  }

  /** What is set at a key or inside it is nothing elsewhere. */
  lemma {:induction false} KeyDroppedElsewhere(a: Json, b: Json, sets: seq<Assignment>, key: string)
    requires AllGiven(sets) && SameElsewhere(a, b, key)
    ensures AllGiven(DropWithin(sets, [key]))
    ensures SameElsewhere(SetAll(a, sets), SetAll(b, DropWithin(sets, [key])), key)
    decreases |sets|
  {
    if sets != [] {
      var s := sets[0];
      assert s.path == [s.path[0]] + s.path[1..];
      SetKeepsElsewhere(a, b, key, s);
      if s.path[0] == key {
        assert [key] <= s.path;
        KeyDroppedElsewhere(SetPath(a, s.path, s.value), b, sets[1..], key);
      } else {
        KeyDroppedElsewhere(SetPath(a, s.path, s.value), SetPath(b, s.path, s.value), sets[1..], key);
        assert DropWithin(sets, [key])[1..] == DropWithin(sets[1..], [key]);
      }
    }
  }

  lemma RemovedElsewhere(a: Json, b: Json, key: string)
    requires SameElsewhere(a, b, key)
    ensures Remove(a, [key]) == Remove(b, [key])
  {
    forall k ensures Get(Remove(a, [key]), [k]) == Get(Remove(b, [key]), [k]) {
      GetKey(Remove(a, [key]), k);
      GetKey(Remove(b, [key]), k);
      GetKey(a, k);
      GetKey(b, k);
    }
    SameKeysSameObject(Remove(a, [key]), Remove(b, [key]));
  }

  lemma FoldUnsetKeeps(w: Writes, path: Path)
    requires IsFold(w) && path != []
    ensures IsFold(FoldUnset(w, path))
  {
    var d := OwnerDepth(w.set', path, 1);
    if d < |path| {
      var at := IndexOf(w.set', path[..d]);
      UnsetWritesInOwner(w, path);
      SetsReplaced(w.set', at, Remove(w.set'[at].value, path[d..]), w.arrays);
    } else {
      KeyDropped(w, path[0]);
      SetsDropped(w.set', path, if |path| == 1 then DropKey(w.arrays, path[0]) else w.arrays);
    }
  }

  lemma SetsDropped(sets: seq<Assignment>, path: Path, arrays: seq<KeyWrites>)
    requires AllGiven(sets) && AllApart(sets) && HeadsFree(sets, arrays)
    ensures var left := DropWithin(sets, path); AllGiven(left) && AllApart(left) && HeadsFree(left, arrays)
  {
    DropWithinApart(sets, path);
    DropWithinHolds(sets, path);
    var left := DropWithin(sets, path);
    forall i | 0 <= i < |left| ensures left[i].path != [] {
      assert left[i] in left;
    }
    forall i, j | 0 <= i < |left| && 0 <= j < |arrays| ensures left[i].path[0] != arrays[j].key {
      assert left[i] in left;
      HeadFree(sets, arrays, left[i]);
      FindsNone(arrays, left[i].path[0]);
    }
  }

  /** What a path's removal comes to where the writes are folded: removed from a value set, or from the document. */
  lemma UnsetLeaves(w: Writes, path: Path, from: Json, left: Json)
    requires PathsGiven(w) && path != []
    requires Remove(from, path) == Remove(left, path)
    ensures var unset := if path in w.unset then w.unset else w.unset + [path];
            && (forall i :: 0 <= i < |unset| ==> unset[i] != [])
            && RemoveAll(left, unset) == Remove(RemoveAll(from, w.unset), path)
  {
    RemoveAllThen(from, w.unset, path);
    RemoveAllThen(left, w.unset, path);
    if path in w.unset {
      RemovedAlready(left, w.unset, path);
    }
  }

  function InOwner(sets: seq<Assignment>, path: Path, d: nat): seq<Assignment>
    requires 0 < d < |path| && HasPath(sets, path[..d])
  {
    var at := IndexOf(sets, path[..d]);
    sets[at := Assignment(path[..d], Remove(sets[at].value, path[d..]))]
  }

  lemma UnsetWritesInOwner(w: Writes, path: Path)
    requires IsFold(w) && path != [] && OwnerDepth(w.set', path, 1) < |path|
    ensures FoldUnset(w, path) == w.(set' := InOwner(w.set', path, OwnerDepth(w.set', path, 1)))
  {
    OwnerCovers(w.set', path, OwnerDepth(w.set', path, 1));
    DropWithinHolds(w.set', path);
  }

  lemma InOwnerMeans(sets: seq<Assignment>, path: Path, d: nat, doc: Json)
    requires AllGiven(sets) && AllApart(sets) && 0 < d < |path| && HasPath(sets, path[..d])
    ensures AllGiven(InOwner(sets, path, d)) && SetAll(doc, InOwner(sets, path, d)) == Remove(SetAll(doc, sets), path)
  {
    assert path == path[..d] + path[d..];
    RemoveInsideOwner(doc, sets, IndexOf(sets, path[..d]), path[d..]);
  }

  // ----- the whole fold -----

  /** The pulls' writes, and the keys they leave to others. */
  lemma {:induction false} PullsMean(pull: seq<KeyItem>, arrays: seq<KeyWrites>, doc: Json)
    requires DistinctItems(pull) && DistinctKeys(arrays) && doc.Obj?
    requires forall i, j :: 0 <= i < |pull| && 0 <= j < |arrays| ==> pull[i].key != arrays[j].key
    requires forall j :: 0 <= j < |arrays| ==> Looked(arrays[j].writes)
    ensures var after := Pulls(pull, arrays);
            && DistinctKeys(after)
            && (forall j :: 0 <= j < |after| ==> Looked(after[j].writes))
            && WriteArrays(doc, after) == PullAll(WriteArrays(doc, arrays), pull)
    decreases |pull|
  {
    if pull != [] {
      var key, put := pull[0].key, ArrayWrites([pull[0].item], []);
      var next := PutKey(arrays, key, put);
      PutKeyDistinct(arrays, key, put);
      PutKeyHolds(arrays, key, put);
      forall j | 0 <= j < |next| ensures next[j] == KeyWrites(key, put) || next[j] in arrays {
      }
      forall i, j | 0 <= i < |pull[1..]| && 0 <= j < |next| ensures pull[1..][i].key != next[j].key {
        assert pull[1..][i] == pull[i + 1];
      }
      assert DistinctItems(pull[1..]);
      PullWritten(pull[0], arrays, doc);
      PullsMean(pull[1..], next, doc);
    }
  }

  lemma PullWritten(pull: KeyItem, arrays: seq<KeyWrites>, doc: Json)
    requires DistinctKeys(arrays) && doc.Obj? && forall j :: 0 <= j < |arrays| ==> pull.key != arrays[j].key
    ensures WriteArrays(doc, PutKey(arrays, pull.key, ArrayWrites([pull.item], [])))
         == PullAt(WriteArrays(doc, arrays), pull.key, pull.item)
  {
    var put := ArrayWrites([pull.item], []);
    var before, after := WriteArrays(doc, arrays), WriteArrays(doc, PutKey(arrays, pull.key, put));
    PutKeyDistinct(arrays, pull.key, put);
    FindsNone(arrays, pull.key);
    ArraysWritten(arrays, doc, pull.key);
    ArraysWritten(PutKey(arrays, pull.key, put), doc, pull.key);
    var pulled := PullAt(before, pull.key, pull.item);
    forall k ensures Get(after, [k]) == Get(pulled, [k]) {
      ArraysWritten(arrays, doc, k);
      ArraysWritten(PutKey(arrays, pull.key, put), doc, k);
      PutKeyFinds(arrays, pull.key, put, k);
      GetKey(before, k);
      GetKey(pulled, k);
    }
    SameKeysSameObject(after, pulled);
  }

  lemma {:induction false} SetsFold(sets: seq<Assignment>, w: Writes, doc: Json)
    requires IsFold(w) && AllGiven(sets) && doc.Obj?
    ensures var after := Sets(sets, w);
            && IsFold(after) && after.unset == w.unset
            && SetAll(WriteArrays(doc, after.arrays), after.set')
              == SetAll(SetAll(WriteArrays(doc, w.arrays), w.set'), sets)
    ensures forall p :: Covers(p, Sets(sets, w).set') ==> Covers(p, w.set') || Covers(p, sets)
    decreases |sets|
  {
    if sets != [] {
      var next := FoldSet(w, sets[0].path, sets[0].value);
      FoldSetMeans(w, sets[0].path, sets[0].value, doc);
      FoldSetCovers(w, sets[0].path, sets[0].value);
      SetsFold(sets[1..], next, doc);
      forall p | Covers(p, Sets(sets, w).set') ensures Covers(p, w.set') || Covers(p, sets) {
        if Covers(p, sets[1..]) {
          var i :| 0 <= i < |sets[1..]| && p <= sets[1..][i].path;
          assert sets[i + 1] == sets[1..][i];
        }
      }
    }
  }

  lemma FoldSetCovers(w: Writes, path: Path, item: Json)
    requires IsFold(w) && path != []
    ensures FoldSet(w, path, item).unset == w.unset
    ensures forall p :: Covers(p, FoldSet(w, path, item).set') ==> Covers(p, w.set') || p <= path
  {
    DropWithinHolds(w.set', path);
    var sets := DropWithin(w.set', path);
    var next := FoldSet(w, path, item).set';
    forall i | 0 <= i < |next| ensures next[i].path == path || exists j ::
      0 <= j < |w.set'| && w.set'[j].path == next[i].path {
      if i < |sets| {
        assert sets[i] in sets && sets[i] in w.set' && sets[i].path == next[i].path;
      }
    }
  }

  lemma {:induction false} AppendsFold(items: seq<KeyItem>, unique: bool, w: Writes, doc: Json)
    requires IsFold(w) && doc.Obj?
    ensures var after := Appends(items, unique, w);
            && IsFold(after) && after.unset == w.unset
            && SetAll(WriteArrays(doc, after.arrays), after.set')
               == PushAll(SetAll(WriteArrays(doc, w.arrays), w.set'), items, unique)
    ensures forall p :: Covers(p, Appends(items, unique, w).set') ==> Covers(p, w.set')
    decreases |items|
  {
    if items != [] {
      AppendToMeans(w, items[0].key, items[0].item, unique, doc);
      var next := AppendTo(w, items[0].key, items[0].item, unique);
      assert forall i :: 0 <= i < |next.set'| ==> next.set'[i].path == w.set'[i].path;
      AppendsFold(items[1..], unique, next, doc);
    }
  }

  lemma FoldUnsetCovers(w: Writes, path: Path)
    requires IsFold(w) && path != []
    ensures forall p :: Covers(p, FoldUnset(w, path).set') ==> Covers(p, w.set')
  {
    DropWithinHolds(w.set', path);
    var sets, next := DropWithin(w.set', path), FoldUnset(w, path).set';
    forall i | 0 <= i < |next| ensures exists j :: 0 <= j < |w.set'| && w.set'[j].path == next[i].path {
      assert sets[i] in sets && sets[i] in w.set' && sets[i].path == next[i].path;
    }
  }

  lemma {:induction false} UnsetsKeep(paths: seq<Path>, w: Writes)
    requires IsFold(w) && forall i :: 0 <= i < |paths| ==> paths[i] != []
    ensures IsFold(Unsets(paths, w))
    decreases |paths|
  {
    if paths != [] {
      FoldUnsetKeeps(w, paths[0]);
      UnsetsKeep(paths[1..], FoldUnset(w, paths[0]));
    }
  }

  /** The fold writes no path twice, whatever the update. */
  lemma FoldIsFolded(u: Update)
    requires Given(u) && DistinctItems(u.pull)
    ensures IsFolded(Folded(u))
  {
    var pulled := Writes([], Pulls(u.pull, []), []);
    PullsMean(u.pull, [], EMPTY_OBJECT);
    SetsFold(u.set', pulled, EMPTY_OBJECT);
    AppendsFold(u.push, false, Sets(u.set', pulled), EMPTY_OBJECT);
    var pushed := Appends(u.push, false, Sets(u.set', pulled));
    AppendsFold(u.addToSet, true, pushed, EMPTY_OBJECT);
    UnsetsKeep(u.unset, Appends(u.addToSet, true, pushed));
  }
}
