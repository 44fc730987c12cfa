/** What the SQL of a folded JSON update leaves is what its writes leave one after another. */
module JsonUpdateTheorem {
  import opened Options
  import opened JsonDocuments
  import opened JsonSql
  import opened Sequences
  import opened JsonUpdates

  // ----- parents, each read off the column as stored -----

  function WithObjects(doc: Json, paths: seq<Path>): Json
    requires forall i :: 0 <= i < |paths| ==> paths[i] != []
    decreases |paths|
  {
    if paths == [] then doc else WithObjects(WithObjectAt(doc, paths[0]), paths[1..])
  }

  function ParentOf(path: Path): Path
    requires path != []
  {
    path[..|path| - 1]
  }

  /** Each path's parent, other than the document, is in `seen` or comes before it. */
  predicate Rooted(seen: set<Path>, paths: seq<Path>)
    decreases |paths|
  {
    paths != [] ==>
      && paths[0] != []
      && (|paths[0]| == 1 || ParentOf(paths[0]) in seen)
      && Rooted(seen + {paths[0]}, paths[1..])
  }

  predicate IsClosed(seen: set<Path>) {
    forall a :: a in seen ==> a != [] && (|a| == 1 || ParentOf(a) in seen)
  }

  lemma {:induction false} RootedInMore(seen: set<Path>, more: set<Path>, paths: seq<Path>)
    requires Rooted(seen, paths) && seen <= more
    ensures Rooted(more, paths)
    decreases |paths|
  {
    if paths != [] {
      RootedInMore(seen + {paths[0]}, more + {paths[0]}, paths[1..]);
    }
  }

  lemma {:induction false} RootedGiven(seen: set<Path>, paths: seq<Path>)
    requires Rooted(seen, paths)
    ensures forall i :: 0 <= i < |paths| ==> paths[i] != []
    decreases |paths|
  {
    if paths != [] {
      RootedGiven(seen + {paths[0]}, paths[1..]);
      assert forall i :: 1 <= i < |paths| ==> paths[i] == paths[1..][i - 1];
    }
  }

  /** What leads to a path of a closed set is in it. */
  lemma {:induction false} ClosedUpward(seen: set<Path>, x: Path, a: Path)
    requires IsClosed(seen) && a in seen && x != [] && x <= a
    ensures x in seen
    decreases |a|
  {
    if x != a {
      assert x <= ParentOf(a);
      ClosedUpward(seen, x, ParentOf(a));
    }
  }

  predicate Leads(x: Path, seen: set<Path>) {
    exists a :: a in seen && x <= a
  }

  lemma LeadsInMore(x: Path, seen: set<Path>, more: set<Path>)
    requires seen <= more
    ensures Leads(x, seen) ==> Leads(x, more)
  {
  }

  /** Whatever leads to no path written yet is as stored, among the paths that begin with one of `heads`. */
  ghost predicate AsStored(doc: Json, stored: Option<Json>, heads: set<string>, seen: set<Path>) {
    forall x: Path :: x != [] && x[0] in heads && !Leads(x, seen) ==> Get(doc, x) == Stored(stored, x)
  }

  /** A parent written as stored, or as an object with no keys, is the object there or one made there. */
  lemma ParentWritten(doc: Json, stored: Option<Json>, heads: set<string>, seen: set<Path>, a: Path)
    requires AllObjects(doc, seen) && IsClosed(seen) && a != [] && a !in seen && a[0] in heads
    requires |a| == 1 || ParentOf(a) in seen
    requires AsStored(doc, stored, heads, seen)
    ensures var v := Eval(OrStored(a, Case(Is(a, IsObject), Missing, Constant(EMPTY_OBJECT))), stored);
            Step(JsonSet, doc, a, v) == WithObjectAt(doc, a)
    ensures IsObjectAt(WithObjectAt(doc, a), a) && WithObjectAt(doc, a).Obj?
    ensures AsStored(WithObjectAt(doc, a), stored, heads, seen + {a})
  {
    if Leads(a, seen) {
      var b :| b in seen && a <= b;
      ClosedUpward(seen, a, b);
    }
    assert Get(doc, a) == Stored(stored, a);
    HoldsUnderParent(doc, a);
    assert |a| == 1 ==> ParentOf(a) == [];
    var made := Case(Is(a, IsObject), Missing, Constant(EMPTY_OBJECT));
    var v := Eval(OrStored(a, made), stored);
    assert Eval(made, stored) == if IsObjectAt(doc, a) then None else Some(EMPTY_OBJECT);
    if IsObjectAt(doc, a) {
      assert Eval(Extract(a), stored) == Stored(stored, a);
      assert v == Get(doc, a);
      PutSame(doc, a, v.value);
    } else {
      assert v == Some(EMPTY_OBJECT);
      PutBelow(doc, a, EMPTY_OBJECT, []);
      assert a + [] == a;
    }
    forall x: Path | x != [] && x[0] in heads && !Leads(x, seen + {a})
      ensures Get(WithObjectAt(doc, a), x) == Stored(stored, x)
    {
      assert a in seen + {a} && !(x <= a);
      LeadsInMore(x, seen, seen + {a});
      if !IsObjectAt(doc, a) {
        MadeObjectHoldsNothing(doc, a, x);
      }
    }
  }

  lemma MadeObjectHoldsNothing(doc: Json, a: Path, x: Path)
    requires a != [] && Holds(doc, a) && !IsObjectAt(doc, a) && !(x <= a)
    ensures Get(Put(doc, a, EMPTY_OBJECT), x) == Get(doc, x)
  {
    if a <= x {
      var t := x[|a|..];
      assert x == a + t && t != [];
      PutBelow(doc, a, EMPTY_OBJECT, t);
      GetThrough(doc, a, t);
    } else {
      PutApart(doc, a, EMPTY_OBJECT, x);
    }
  }

  /** Parents not written yet, each once. */
  predicate Unwritten(seen: set<Path>, heads: set<string>, paths: seq<Path>) {
    && (forall i :: 0 <= i < |paths| ==> paths[i] != [] && paths[i][0] in heads && paths[i] !in seen)
    && (forall i, j :: 0 <= i < j < |paths| ==> paths[i] != paths[j])
  }

  lemma RestUnwritten(seen: set<Path>, heads: set<string>, paths: seq<Path>)
    requires paths != [] && Unwritten(seen, heads, paths)
    ensures Unwritten(seen + {paths[0]}, heads, paths[1..])
  {
    assert forall i :: 0 <= i < |paths[1..]| ==> paths[1..][i] == paths[i + 1];
  }

  predicate AllObjects(doc: Json, seen: set<Path>) {
    doc.Obj? && forall b :: b in seen ==> IsObjectAt(doc, b)
  }

  lemma AllObjectsStay(doc: Json, seen: set<Path>, a: Path)
    requires AllObjects(doc, seen) && a != [] && (|a| == 1 || ParentOf(a) in seen)
    ensures AllObjects(WithObjectAt(doc, a), seen + {a})
  {
    ObjectMade(doc, a);
    forall b | b in seen + {a} ensures IsObjectAt(WithObjectAt(doc, a), b) {
      if b in seen {
        ObjectsStay(doc, b, a);
      }
    }
  }

  lemma ParentApplied(doc: Json, stored: Option<Json>, paths: seq<Path>)
    requires paths != [] && paths[0] != []
    ensures var v := Eval(OrStored(paths[0], Case(Is(paths[0], IsObject), Missing, Constant(EMPTY_OBJECT))), stored);
            Applied(JsonSet, doc, ParentArgs(paths), stored)
              == Applied(JsonSet, Step(JsonSet, doc, paths[0], v), ParentArgs(paths[1..]), stored)
  {
    assert ParentArgs(paths)[1..] == ParentArgs(paths[1..]);
  }

  /** Every parent's write, its value read off the column as stored, makes an object where there is none. */
  lemma {:induction false} ParentsWritten(
    doc: Json, stored: Option<Json>, heads: set<string>, seen: set<Path>, paths: seq<Path>)
    requires AllObjects(doc, seen) && IsClosed(seen) && Rooted(seen, paths) && Unwritten(seen, heads, paths)
    requires AsStored(doc, stored, heads, seen)
    ensures Applied(JsonSet, doc, ParentArgs(paths), stored) == WithObjects(doc, paths)
    decreases |paths|
  {
    if paths != [] {
      var a := paths[0];
      ParentWritten(doc, stored, heads, seen, a);
      AllObjectsStay(doc, seen, a);
      RestUnwritten(seen, heads, paths);
      ParentApplied(doc, stored, paths);
      ParentsWritten(WithObjectAt(doc, a), stored, heads, seen + {a}, paths[1..]);
    }
  }

  lemma {:induction false} OnceHolds(seen: set<Path>, paths: seq<Path>)
    requires Rooted(seen, paths)
    ensures var once := Once(seen, paths);
            && Rooted(seen, once)
            && (forall i :: 0 <= i < |once| ==> once[i] in paths && once[i] !in seen)
            && (forall i, j :: 0 <= i < j < |once| ==> once[i] != once[j])
    decreases |paths|
  {
    if paths != [] {
      var once := Once(seen, paths);
      if paths[0] in seen {
        assert seen + {paths[0]} == seen;
        OnceHolds(seen, paths[1..]);
      } else {
        OnceHolds(seen + {paths[0]}, paths[1..]);
        var rest := Once(seen + {paths[0]}, paths[1..]);
        assert once[1..] == rest;
        assert forall i :: 1 <= i < |once| ==> once[i] == rest[i - 1];
      }
    }
  }

  /** A parent met again is an object already. */
  lemma {:induction false} OnceIsEnough(doc: Json, seen: set<Path>, paths: seq<Path>)
    requires AllObjects(doc, seen) && Rooted(seen, paths)
    requires forall i :: 0 <= i < |paths| ==> paths[i] != []
    requires forall i :: 0 <= i < |Once(seen, paths)| ==> Once(seen, paths)[i] != []
    ensures WithObjects(doc, Once(seen, paths)) == WithObjects(doc, paths)
    decreases |paths|
  {
    if paths != [] {
      var a := paths[0];
      if a in seen {
        assert seen + {a} == seen;
        assert Once(seen, paths) == Once(seen, paths[1..]);
        OnceIsEnough(doc, seen, paths[1..]);
      } else {
        var next := WithObjectAt(doc, a);
        AllObjectsStay(doc, seen, a);
        var rest := Once(seen + {a}, paths[1..]);
        assert Once(seen, paths)[1..] == rest && forall i :: 0 <= i < |rest| ==> rest[i] == Once(seen, paths)[i + 1];
        OnceIsEnough(next, seen + {a}, paths[1..]);
      }
    }
  }

  lemma ObjectMade(doc: Json, a: Path)
    requires doc.Obj? && a != [] && (|a| == 1 || IsObjectAt(doc, ParentOf(a)))
    ensures IsObjectAt(WithObjectAt(doc, a), a) && WithObjectAt(doc, a).Obj?
  {
    assert |a| == 1 ==> ParentOf(a) == [];
    HoldsUnderParent(doc, a);
    if !IsObjectAt(doc, a) {
      PutBelow(doc, a, EMPTY_OBJECT, []);
      assert a + [] == a;
    }
  }

  // ----- the parents of what is set -----

  function AllParents(doc: Json, sets: seq<Assignment>): Json
    requires forall i :: 0 <= i < |sets| ==> sets[i].path != []
    decreases |sets|
  {
    if sets == [] then doc else AllParents(WithParents(doc, sets[0].path), sets[1..])
  }

  lemma {:induction false} WithObjectsAppend(doc: Json, a: seq<Path>, b: seq<Path>)
    requires forall i :: 0 <= i < |a| ==> a[i] != []
    requires forall i :: 0 <= i < |b| ==> b[i] != []
    ensures forall i :: 0 <= i < |a + b| ==> (a + b)[i] != []
    ensures WithObjects(doc, a + b) == WithObjects(WithObjects(doc, a), b)
    decreases |a|
  {
    if a == [] {
      assert a + b == b;
    } else {
      assert (a + b)[0] == a[0] && (a + b)[1..] == a[1..] + b;
      WithObjectsAppend(WithObjectAt(doc, a[0]), a[1..], b);
    }
  }

  lemma {:induction false} AncestorsMade(doc: Json, path: Path)
    requires path != [] && doc.Obj?
    ensures WithObjects(doc, Ancestors(path)) == WithParents(doc, path)
    decreases |path|
  {
    if |path| > 1 {
      var parent, last := ParentOf(path), path[|path| - 1];
      assert path == parent + [last];
      assert forall i :: 0 <= i < |parent| ==> parent[..i] == path[..i];
      assert Ancestors(path) == Ancestors(parent) + [parent];
      AncestorsMade(doc, parent);
      WithObjectsAppend(doc, Ancestors(parent), [parent]);
      assert WithObjects(WithObjects(doc, Ancestors(parent)), [parent])
          == WithObjectAt(WithObjects(doc, Ancestors(parent)), parent);
      ParentsInTurn(doc, parent, last);
    }
  }

  lemma {:induction false} AllAncestorsMade(doc: Json, sets: seq<Assignment>)
    requires doc.Obj? && forall i :: 0 <= i < |sets| ==> sets[i].path != []
    ensures forall i :: 0 <= i < |AllAncestors(sets)| ==> AllAncestors(sets)[i] != []
    ensures WithObjects(doc, AllAncestors(sets)) == AllParents(doc, sets)
    decreases |sets|
  {
    if sets != [] {
      var first := Ancestors(sets[0].path);
      AncestorsMade(doc, sets[0].path);
      AllAncestorsMade(WithParents(doc, sets[0].path), sets[1..]);
      WithObjectsAppend(doc, first, AllAncestors(sets[1..]));
    }
  }

  /** Each path's ancestors come outermost first. */
  lemma {:induction false} AncestorsRooted(seen: set<Path>, path: Path, k: nat, rest: seq<Path>)
    requires path != [] && k < |path| && (k == 0 || path[..k] in seen) && Rooted(seen, rest)
    ensures Rooted(seen, Ancestors(path)[k..] + rest)
    decreases |path| - k
  {
    var paths := Ancestors(path)[k..] + rest;
    if k == |path| - 1 {
      assert paths == rest;
    } else {
      var first := path[..k + 1];
      assert paths[0] == first && paths[1..] == Ancestors(path)[k + 1..] + rest;
      assert ParentOf(first) == path[..k];
      RootedInMore(seen, seen + {first}, rest);
      AncestorsRooted(seen + {first}, path, k + 1, rest);
    }
  }

  lemma {:induction false} AllAncestorsRooted(sets: seq<Assignment>)
    requires forall i :: 0 <= i < |sets| ==> sets[i].path != []
    ensures Rooted({}, AllAncestors(sets))
    ensures forall a :: a in AllAncestors(sets) ==> a != [] && exists i :: 0 <= i < |sets| && a[0] == sets[i].path[0]
    decreases |sets|
  {
    if sets != [] {
      AllAncestorsRooted(sets[1..]);
      AncestorsRooted({}, sets[0].path, 0, AllAncestors(sets[1..]));
      assert Ancestors(sets[0].path)[0..] == Ancestors(sets[0].path);
      forall a | a in AllAncestors(sets) ensures a != [] && exists i :: 0 <= i < |sets| && a[0] == sets[i].path[0] {
        if a in Ancestors(sets[0].path) {
          assert a[0] == sets[0].path[0];
        } else {
          var i :| 0 <= i < |sets[1..]| && a[0] == sets[1..][i].path[0];
          assert sets[i + 1] == sets[1..][i];
        }
      }
    }
  }

  // ----- what is set -----

  predicate AllApart(sets: seq<Assignment>) {
    forall i, j :: 0 <= i < j < |sets| ==> Apart(sets[i].path, sets[j].path)
  }

  lemma {:induction false} AllParentsCommute(doc: Json, p: Path, v: Json, sets: seq<Assignment>)
    requires p != [] && forall i :: 0 <= i < |sets| ==> sets[i].path != [] && Apart(p, sets[i].path)
    ensures SetPath(AllParents(doc, sets), p, v) == AllParents(SetPath(doc, p, v), sets)
    decreases |sets|
  {
    if sets != [] {
      ParentsCommute(doc, p, v, sets[0].path);
      AllParentsCommute(WithParents(doc, sets[0].path), p, v, sets[1..]);
    }
  }

  /** All the parents made before anything is set, or each path's as it is set: the same document. */
  lemma {:induction false} ParentsFirst(doc: Json, sets: seq<Assignment>)
    requires AllApart(sets) && forall i :: 0 <= i < |sets| ==> sets[i].path != []
    ensures SetAll(AllParents(doc, sets), sets) == SetAll(doc, sets)
    decreases |sets|
  {
    if sets != [] {
      var p, v := sets[0].path, sets[0].value;
      forall i | 0 <= i < |sets[1..]| ensures Apart(p, sets[1..][i].path) {
        assert sets[1..][i] == sets[i + 1];
      }
      AllParentsCommute(WithParents(doc, p), p, v, sets[1..]);
      SetMakesItsParents(doc, p, v);
      ParentsFirst(SetPath(doc, p, v), sets[1..]);
    }
  }

  lemma {:induction false} AllParentsHold(doc: Json, sets: seq<Assignment>, q: Path)
    requires q != [] && Holds(doc, q) && forall i :: 0 <= i < |sets| ==> sets[i].path != []
    ensures Holds(AllParents(doc, sets), q)
    decreases |sets|
  {
    if sets != [] {
      ParentsStillHold(doc, q, sets[0].path);
      AllParentsHold(WithParents(doc, sets[0].path), sets[1..], q);
    }
  }

  lemma {:induction false} EachHolds(doc: Json, sets: seq<Assignment>, k: nat)
    requires doc.Obj? && k < |sets| && forall i :: 0 <= i < |sets| ==> sets[i].path != []
    ensures Holds(AllParents(doc, sets), sets[k].path)
    decreases |sets|
  {
    var next := WithParents(doc, sets[0].path);
    if k == 0 {
      ParentsHold(doc, sets[0].path);
      AllParentsHold(next, sets[1..], sets[0].path);
    } else {
      EachHolds(next, sets[1..], k - 1);
    }
  }

  /** Its parents there, each write is what setting its path is. */
  lemma {:induction false} SetsWritten(doc: Json, sets: seq<Assignment>, stored: Option<Json>)
    requires AllApart(sets) && forall i :: 0 <= i < |sets| ==> sets[i].path != [] && Holds(doc, sets[i].path)
    ensures Applied(JsonSet, doc, SetArgs(sets), stored) == SetAll(doc, sets)
    decreases |sets|
  {
    if sets != [] {
      var p, v := sets[0].path, sets[0].value;
      PutIsSet(doc, p, v);
      forall i | 0 <= i < |sets[1..]| ensures Holds(SetPath(doc, p, v), sets[1..][i].path) {
        assert sets[1..][i] == sets[i + 1];
        SetStillHolds(doc, p, v, sets[i + 1].path);
      }
      assert SetArgs(sets)[1..] == SetArgs(sets[1..]);
      SetsWritten(SetPath(doc, p, v), sets[1..], stored);
    }
  }

  lemma {:induction false} UnsetsWritten(doc: Json, paths: seq<Path>, stored: Option<Json>)
    requires forall i :: 0 <= i < |paths| ==> paths[i] != []
    ensures Applied(JsonRemove, doc, UnsetArgs(paths), stored) == RemoveAll(doc, paths)
    decreases |paths|
  {
    if paths != [] {
      assert UnsetArgs(paths)[1..] == UnsetArgs(paths[1..]);
      UnsetsWritten(Remove(doc, paths[0]), paths[1..], stored);
    }
  }

  // ----- a document that is no object -----

  predicate Keyed(args: seq<Arg>) {
    forall i :: 0 <= i < |args| ==> args[i].path != []
  }

  lemma {:induction false} NothingInside(fn: Fn, doc: Json, args: seq<Arg>, stored: Option<Json>)
    requires !doc.Obj? && Keyed(args)
    ensures Applied(fn, doc, args, stored) == doc
    decreases |args|
  {
    if args != [] {
      NothingInside(fn, doc, args[1..], stored);
    }
  }

  lemma {:induction false} NothingSetInside(w: Writes, doc: Json)
    requires !doc.Obj? && PathsGiven(w)
    ensures WriteArrays(doc, w.arrays) == doc && SetAll(doc, w.set') == doc && RemoveAll(doc, w.unset) == doc
    decreases |w.arrays| + |w.set'| + |w.unset|
  {
    if w.arrays != [] {
      NothingSetInside(w.(arrays := w.arrays[1..]), doc);
    } else if w.set' != [] {
      NothingSetInside(w.(set' := w.set'[1..]), doc);
    } else if w.unset != [] {
      NothingSetInside(w.(unset := w.unset[1..]), doc);
    }
  }

  lemma {:induction false} KeyArgsKeyed(f: Flavor, arrays: seq<KeyWrites>, appending: bool)
    ensures Keyed(KeyArgs(f, arrays, appending))
  {
    if arrays != [] {
      KeyArgsKeyed(f, arrays[1..], appending);
    }
  }

  // ----- the theorem -----

  /** No path is written twice: each array's key once, none where a set path begins, and no set path inside another. */
  predicate IsFolded(w: Writes) {
    && PathsGiven(w)
    && DistinctKeys(w.arrays)
    && AllApart(w.set')
    && forall i, j :: 0 <= i < |w.set'| && 0 <= j < |w.arrays| ==> w.set'[i].path[0] != w.arrays[j].key
  }

  /** The calls applied in turn to a document. */
  function Calls(f: Flavor, w: Writes, doc: Json, stored: Option<Json>): Json
    requires PathsGiven(w)
  {
    var pulled := Applied(JsonReplace, doc, KeyArgs(f, w.arrays, false), stored);
    var withArrays := Applied(JsonSet, pulled, KeyArgs(f, w.arrays, true), stored);
    var withSet :=
      if w.set' == [] then withArrays
      else
        var withParents := Applied(JsonSet, withArrays, ParentArgs(Once({}, AllAncestors(w.set'))), stored);
        Applied(JsonSet, withParents, SetArgs(w.set'), stored);
    if w.unset == [] then withSet else Applied(JsonRemove, withSet, UnsetArgs(w.unset), stored)
  }

  /** What is written where something is appended is never NULL. */
  lemma {:induction false} AppendsNotNull(f: Flavor, arrays: seq<KeyWrites>, stored: Option<Json>)
    ensures NoneIsNull(KeyArgs(f, arrays, true), stored)
  {
    if arrays != [] {
      var a, rest := arrays[0], KeyArgs(f, arrays[1..], true);
      AppendsNotNull(f, arrays[1..], stored);
      ArrayWriteMeans(f, [a.key], a.writes, stored);
      if a.writes.appends != [] {
        HeadOf(Arg([a.key], OrStored([a.key], ArrayWriteSql(f, [a.key], a.writes))), rest);
      }
    }
  }

  lemma ParentsNotNull(parents: seq<Path>, stored: Option<Json>)
    ensures NoneIsNull(ParentArgs(parents), stored)
  {
    forall i | 0 <= i < |parents| ensures Eval(ParentArgs(parents)[i].value, stored).Some? {
      var made := Case(Is(parents[i], IsObject), Missing, Constant(EMPTY_OBJECT));
      assert ParentArgs(parents)[i].value == OrStored(parents[i], made);
      assert Eval(made, stored) == if Met(Is(parents[i], IsObject), stored) then None else Some(EMPTY_OBJECT);
      assert Eval(Extract(parents[i]), stored) == Stored(stored, parents[i]);
    }
  }

  lemma SqlCalls(w: Writes, notNull: bool, form: Form, stored: Option<Json>)
    requires PathsGiven(w)
    ensures var target := Eval(TargetSql(w, notNull), stored);
            Eval(ObjectUpdateSql(w, notNull, form), stored)
              == if target.None? then None else Some(Calls(form.flavor, w, target.value, stored))
  {
    hide KeyArgs, Applied, Written;
    var target, f := TargetSql(w, notNull), form.flavor;
    var pulled := Written(form, JsonReplace, target, KeyArgs(f, w.arrays, false));
    WrittenMeans(form, JsonReplace, target, KeyArgs(f, w.arrays, false), stored);
    var withArrays := Written(form, JsonSet, pulled, KeyArgs(f, w.arrays, true));
    AppendsNotNull(f, w.arrays, stored);
    WrittenMeans(form, JsonSet, pulled, KeyArgs(f, w.arrays, true), stored);
    var parents := ParentArgs(Once({}, AllAncestors(w.set')));
    var withParents := Written(form, JsonSet, withArrays, parents);
    ParentsNotNull(Once({}, AllAncestors(w.set')), stored);
    WrittenMeans(form, JsonSet, withArrays, parents, stored);
    WrittenMeans(form, JsonSet, withParents, SetArgs(w.set'), stored);
    var withSet := if w.set' == [] then withArrays else Written(form, JsonSet, withParents, SetArgs(w.set'));
    WrittenMeans(form, JsonRemove, withSet, UnsetArgs(w.unset), stored);
  }

  lemma CallsNothing(f: Flavor, w: Writes, doc: Json, stored: Option<Json>)
    requires PathsGiven(w) && !doc.Obj?
    ensures Calls(f, w, doc, stored) == doc
  {
    KeyArgsKeyed(f, w.arrays, false);
    KeyArgsKeyed(f, w.arrays, true);
    NothingInside(JsonReplace, doc, KeyArgs(f, w.arrays, false), stored);
    NothingInside(JsonSet, doc, KeyArgs(f, w.arrays, true), stored);
    AllAncestorsRooted(w.set');
    OnceHolds({}, AllAncestors(w.set'));
    RootedGiven({}, Once({}, AllAncestors(w.set')));
    NothingInside(JsonSet, doc, ParentArgs(Once({}, AllAncestors(w.set'))), stored);
    NothingInside(JsonSet, doc, SetArgs(w.set'), stored);
    NothingInside(JsonRemove, doc, UnsetArgs(w.unset), stored);
  }

  lemma CallsMean(f: Flavor, w: Writes, stored: Option<Json>)
    requires IsFolded(w) && DocumentOf(stored).Obj?
    ensures var doc := DocumentOf(stored);
            Calls(f, w, doc, stored) == RemoveAll(SetAll(WriteArrays(doc, w.arrays), w.set'), w.unset)
  {
    var doc := DocumentOf(stored);
    ArraysMean(f, w.arrays, stored);
    var withArrays := WriteArrays(doc, w.arrays);
    forall key | Find(w.arrays, key).None? ensures Get(withArrays, [key]) == Stored(stored, [key]) {
      ArraysWritten(w.arrays, doc, key);
      GetKey(doc, key);
    }
    SetsMean(w, stored, withArrays);
    UnsetsWritten(SetAll(withArrays, w.set'), w.unset, stored);
  }

  /** The parents made from the column as stored, and then each path set, are the paths set one after another. */
  lemma SetsMean(w: Writes, stored: Option<Json>, doc: Json)
    requires IsFolded(w) && doc.Obj?
    requires forall key :: Find(w.arrays, key).None? ==> Get(doc, [key]) == Stored(stored, [key])
    ensures var withParents := Applied(JsonSet, doc, ParentArgs(Once({}, AllAncestors(w.set'))), stored);
            Applied(JsonSet, withParents, SetArgs(w.set'), stored) == SetAll(doc, w.set')
  {
    var heads := set i | 0 <= i < |w.set'| :: w.set'[i].path[0];
    var ancestors := AllAncestors(w.set');
    var parents := Once({}, ancestors);
    AllAncestorsRooted(w.set');
    OnceHolds({}, ancestors);
    RootedGiven({}, parents);
    forall i | 0 <= i < |parents| ensures parents[i][0] in heads {
      assert parents[i] in ancestors;
    }
    HeadsAsStored(w, stored, doc, heads);
    ParentsWritten(doc, stored, heads, {}, parents);
    RootedGiven({}, ancestors);
    OnceIsEnough(doc, {}, ancestors);
    AllAncestorsMade(doc, w.set');
    forall k | 0 <= k < |w.set'| ensures Holds(AllParents(doc, w.set'), w.set'[k].path) {
      EachHolds(doc, w.set', k);
    }
    SetsWritten(AllParents(doc, w.set'), w.set', stored);
    ParentsFirst(doc, w.set');
  }

  lemma HeadsAsStored(w: Writes, stored: Option<Json>, doc: Json, heads: set<string>)
    requires IsFolded(w)
    requires forall key :: Find(w.arrays, key).None? ==> Get(doc, [key]) == Stored(stored, [key])
    requires forall h :: h in heads ==> exists i :: 0 <= i < |w.set'| && w.set'[i].path[0] == h
    ensures AsStored(doc, stored, heads, {})
  {
    forall x: Path | x != [] && x[0] in heads ensures Get(doc, x) == Stored(stored, x) {
      FindsNone(w.arrays, x[0]);
      assert x == [x[0]] + x[1..];
      GetThrough(doc, [x[0]], x[1..]);
      if stored.Some? {
        GetThrough(stored.value, [x[0]], x[1..]);
      }
    }
  }

  /**
   * The SQL of an object's folded update, each of whose writes reads the column as stored, is the document its pulls
   * and appends, then its sets with the parents they need, and then its removals leave one after another; it stays
   * NULL where none puts a key in it.
   */
  lemma ObjectUpdateMeans(w: Writes, notNull: bool, form: Form, stored: Option<Json>)
    requires IsFolded(w) && (notNull ==> stored.Some?)
    ensures Eval(ObjectUpdateSql(w, notNull, form), stored) == Updated(w, stored)
  {
    SqlCalls(w, notNull, form, stored);
    if stored.Some? || WritesKeys(w) {
      var doc := DocumentOf(stored);
      assert Eval(TargetSql(w, notNull), stored) == Some(doc);
      if doc.Obj? {
        CallsMean(form.flavor, w, stored);
      } else {
        NothingSetInside(w, doc);
        CallsNothing(form.flavor, w, doc, stored);
      }
    }
  }
}
