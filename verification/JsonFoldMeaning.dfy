/** When the SQL of a JSON update, folded, leaves what its operators leave one after another. */
module JsonFoldMeaning {
  import opened Options
  import opened JsonDocuments
  import opened JsonSql
  import opened JsonUpdates
  import opened JsonUpdateTheorem
  import opened JsonFold
  import opened JsonFoldTheorem
  import opened JsonRemovals

  // ----- the paths an update sets, and those its fold does -----

  /** Some path set is `p` or leads to it. */
  ghost predicate HasRoot(sets: seq<Assignment>, p: Path) {
    exists q :: HasPath(sets, q) && q <= p
  }

  /** `sets` are some of the paths of `given`, and lead to all of them. */
  ghost predicate StandFor(given: seq<Assignment>, sets: seq<Assignment>) {
    && (forall p :: HasPath(sets, p) ==> HasPath(given, p))
    && (forall p {:trigger HasRoot(sets, p)} :: HasPath(given, p) ==> HasRoot(sets, p))
  }

  /** The path of `sets` that leads to one given. */
  lemma RootOf(given: seq<Assignment>, sets: seq<Assignment>, p: Path) returns (q: Path)
    requires StandFor(given, sets) && HasPath(given, p)
    ensures HasPath(sets, q) && HasPath(given, q) && q <= p
  {
    assert HasRoot(sets, p);
    q :| HasPath(sets, q) && q <= p;
  }

  lemma FoldSetPaths(w: Writes, path: Path, item: Json, p: Path)
    requires IsFold(w) && path != []
    ensures HasPath(FoldSet(w, path, item).set', p) ==> HasPath(w.set', p) || p == path
    ensures HasPath(w.set', p) || p == path ==> HasRoot(FoldSet(w, path, item).set', p)
  {
    var sets, next := DropWithin(w.set', path), FoldSet(w, path, item).set';
    var d := OwnerDepth(w.set', path, 1);
    DropWithinPaths(w.set', path, p);
    if d < |path| {
      OwnerKept(w.set', path, d);
      OwnerCovers(w.set', path, d);
      DropWithinHolds(w.set', path);
      SamePaths(next, w.set', p);
      SamePaths(next, w.set', path[..d]);
      assert path[..d] <= path;
    } else {
      HasPathHolds(sets, p);
      HasPathHolds(next, p);
      HasPathHolds(next, path);
      assert next[|sets|].path == path && forall i :: 0 <= i < |sets| ==> next[i] == sets[i];
      assert HasPath(next, path);
      assert HasPath(w.set', p) ==> HasPath(next, p) || path <= p;
    }
  }

  lemma RootOfRoot(sets: seq<Assignment>, next: seq<Assignment>, p: Path)
    requires HasRoot(next, p) && forall q :: HasPath(next, q) ==> HasRoot(sets, q)
    ensures HasRoot(sets, p)
  {
    var q :| HasPath(next, q) && q <= p;
    var r :| HasPath(sets, r) && r <= q;
    PrefixOfPrefix(r, q, p);
  }

  lemma PrefixOfPrefix(r: Path, q: Path, p: Path)
    requires r <= q && q <= p
    ensures r <= p
  {
  }

  lemma {:induction false} SetsPaths(given: seq<Assignment>, w: Writes)
    requires IsFold(w) && AllGiven(given)
    ensures IsFold(Sets(given, w))
    ensures forall p :: HasPath(Sets(given, w).set', p) ==> HasPath(w.set', p) || HasPath(given, p)
    ensures forall p :: HasPath(w.set', p) || HasPath(given, p) ==> HasRoot(Sets(given, w).set', p)
    decreases |given|
  {
    var last := Sets(given, w).set';
    if given == [] {
      forall p | HasPath(w.set', p) ensures HasRoot(last, p) {
        assert p <= p;
      }
    } else {
      var s, rest := given[0], given[1..];
      var next := FoldSet(w, s.path, s.value);
      FoldSetKeeps(w, s.path, s.value);
      SetsPaths(rest, next);
      forall p
        ensures HasPath(last, p) ==> HasPath(w.set', p) || HasPath(given, p)
        ensures HasPath(w.set', p) || HasPath(given, p) ==> HasRoot(last, p)
      {
        FoldSetPaths(w, s.path, s.value, p);
        FirstPath(given, p);
        if HasPath(w.set', p) || p == s.path {
          RootOfRoot(last, next.set', p);
        }
      }
    }
  }

  lemma FirstPath(given: seq<Assignment>, p: Path)
    requires given != []
    ensures HasPath(given, p) <==> given[0].path == p || HasPath(given[1..], p)
  {
  }

  lemma {:induction false} AppendsPaths(items: seq<KeyItem>, unique: bool, w: Writes, p: Path)
    ensures HasPath(Appends(items, unique, w).set', p) <==> HasPath(w.set', p)
    decreases |items|
  {
    if items != [] {
      var next := AppendTo(w, items[0].key, items[0].item, unique);
      SamePaths(next.set', w.set', p);
      AppendsPaths(items[1..], unique, next, p);
    }
  }

  lemma TakesByPath(sets: seq<Assignment>, t: Path)
    ensures TakesSet(sets, t) <==> (exists p :: HasPath(sets, p) && t <= p) && NoneLeads(sets, t)
  {
    CoversPath(sets, t);
    if forall i :: 0 <= i < |sets| ==> !(sets[i].path < t) {
      forall p | HasPath(sets, p) ensures !(p < t) {
        assert sets[IndexOf(sets, p)].path == p;
      }
    }
    if NoneLeads(sets, t) {
      forall i | 0 <= i < |sets| ensures !(sets[i].path < t) {
        HasPathHolds(sets, sets[i].path);
      }
    }
  }

  /** Of two paths on the way to a third, one that does not come before the other comes after it. */
  lemma NotBefore(q: Path, t: Path, s: Path)
    requires q <= s && t <= s && !(q < t)
    ensures t <= q
  {
    Comparable(q, t, s);
  }

  lemma ProperThrough(q: Path, p: Path, t: Path)
    requires q <= p && p < t
    ensures q < t
  {
  }

  lemma RootTakes(given: seq<Assignment>, sets: seq<Assignment>, t: Path)
    requires StandFor(given, sets)
    ensures TakesSet(given, t) <==> TakesSet(sets, t)
  {
    TakesByPath(given, t);
    TakesByPath(sets, t);
    if TakesSet(given, t) {
      var s :| HasPath(given, s) && t <= s;
      var q := RootOf(given, sets, s);
      NotBefore(q, t, s);
    }
    if TakesSet(sets, t) {
      forall p | HasPath(given, p) ensures !(p < t) {
        var q := RootOf(given, sets, p);
        if p < t {
          ProperThrough(q, p, t);
        }
      }
    }
  }

  ghost predicate StaysBeside(sets: seq<Assignment>, unset: seq<Path>, parent: Path) {
    exists p :: HasPath(sets, p) && parent < p && !IsCovered(p, unset)
  }

  lemma MadeByPath(sets: seq<Assignment>, unset: seq<Path>, parent: Path)
    ensures MadeBeside(sets, unset, parent) <==> StaysBeside(sets, unset, parent)
  {
    if MadeBeside(sets, unset, parent) {
      var i :| 0 <= i < |sets| && parent < sets[i].path && !IsCovered(sets[i].path, unset);
      HasPathHolds(sets, sets[i].path);
      assert HasPath(sets, sets[i].path);
    }
    if StaysBeside(sets, unset, parent) {
      var p :| HasPath(sets, p) && parent < p && !IsCovered(p, unset);
      assert sets[IndexOf(sets, p)].path == p;
    }
  }

  lemma RootUncovered(p: Path, q: Path, unset: seq<Path>)
    requires q <= p && !IsCovered(p, unset)
    ensures !IsCovered(q, unset)
  {
    forall i | 0 <= i < |unset| && unset[i] <= q ensures unset[i] <= p {
      PrefixOfPrefix(unset[i], q, p);
    }
  }

  lemma RootBeside(q: Path, t: Path, s: Path)
    requires t != [] && q <= s && ParentOf(t) < s && !(q < t)
    ensures ParentOf(t) < q
  {
    Comparable(q, ParentOf(t), s);
    assert ParentOf(t) < t;
  }

  lemma RootMadeBeside(given: seq<Assignment>, sets: seq<Assignment>, unset: seq<Path>, t: Path)
    requires StandFor(given, sets) && t != [] && TakesSet(sets, t)
    ensures MadeBeside(given, unset, ParentOf(t)) <==> MadeBeside(sets, unset, ParentOf(t))
  {
    MadeByPath(given, unset, ParentOf(t));
    MadeByPath(sets, unset, ParentOf(t));
    TakesByPath(sets, t);
    if StaysBeside(given, unset, ParentOf(t)) {
      var s :| HasPath(given, s) && ParentOf(t) < s && !IsCovered(s, unset);
      var q := RootOf(given, sets, s);
      RootBeside(q, t, s);
      RootUncovered(s, q, unset);
    }
  }

  lemma RootKept(given: seq<Assignment>, sets: seq<Assignment>, unset: seq<Path>)
    requires StandFor(given, sets) && AreGiven(unset)
    ensures ParentsKept(given, unset) <==> ParentsKept(sets, unset)
  {
    forall i | 0 <= i < |unset|
      ensures TakesSet(given, unset[i]) <==> TakesSet(sets, unset[i])
      ensures TakesSet(sets, unset[i]) ==>
                (MadeBeside(given, unset, ParentOf(unset[i])) <==> MadeBeside(sets, unset, ParentOf(unset[i])))
    {
      RootTakes(given, sets, unset[i]);
      if TakesSet(sets, unset[i]) {
        RootMadeBeside(given, sets, unset, unset[i]);
      }
    }
  }

  // ----- the whole fold -----

  /** The parents of each path an update removes are made all the same. */
  predicate KeepsParents(u: Update) {
    ParentsKept(u.set', u.unset)
  }

  /** The writes of all the operators but `$unset`. */
  function BeforeUnset(u: Update): Writes
    requires Given(u)
  {
    Appends(u.addToSet, true, Appends(u.push, false, Sets(u.set', Writes([], Pulls(u.pull, []), []))))
  }

  lemma BeforeUnsetMeans(u: Update, doc: Json)
    requires Given(u) && DistinctItems(u.pull) && doc.Obj?
    ensures IsFold(BeforeUnset(u)) && BeforeUnset(u).unset == [] && Folded(u) == Unsets(u.unset, BeforeUnset(u))
    ensures RemoveAll(Left(BeforeUnset(u), doc), u.unset) == InTurn(u, doc)
  {
    var pulled := Writes([], Pulls(u.pull, []), []);
    PullsMean(u.pull, [], doc);
    SetsFold(u.set', pulled, doc);
    var set' := Sets(u.set', pulled);
    AppendsFold(u.push, false, set', doc);
    AppendsFold(u.addToSet, true, Appends(u.push, false, set'), doc);
  }

  lemma BeforeUnsetRooted(u: Update)
    requires Given(u) && DistinctItems(u.pull)
    ensures StandFor(u.set', BeforeUnset(u).set')
  {
    var pulled := Writes([], Pulls(u.pull, []), []);
    PullsMean(u.pull, [], EMPTY_OBJECT);
    SetsPaths(u.set', pulled);
    var set' := Sets(u.set', pulled);
    forall p ensures HasPath(BeforeUnset(u).set', p) <==> HasPath(set'.set', p) {
      AppendsPaths(u.push, false, set', p);
      AppendsPaths(u.addToSet, true, Appends(u.push, false, set'), p);
    }
    forall p | HasPath(u.set', p) ensures HasRoot(BeforeUnset(u).set', p) {
      var q :| HasPath(set'.set', q) && q <= p;
      assert HasPath(BeforeUnset(u).set', q);
    }
  }

  /**
   * The fold leaves of every object what the operators leave one after another, exactly where the update keeps the
   * parents of what it removes; where it does not, an object of no keys tells the two apart.
   */
  lemma FoldMeansExactly(u: Update)
    requires Given(u) && DistinctItems(u.pull)
    ensures IsFolded(Folded(u))
    ensures (forall doc: Json :: doc.Obj? ==> Left(Folded(u), doc) == InTurn(u, doc)) <==> KeepsParents(u)
    ensures Left(Folded(u), EMPTY_OBJECT) == InTurn(u, EMPTY_OBJECT) <==> KeepsParents(u)
  {
    var w := BeforeUnset(u);
    BeforeUnsetMeans(u, EMPTY_OBJECT);
    BeforeUnsetRooted(u);
    RootKept(u.set', w.set', u.unset);
    UnsetsExactly(w, u.unset);
    if KeepsParents(u) {
      forall doc: Json | doc.Obj? ensures Left(Folded(u), doc) == InTurn(u, doc) {
        BeforeUnsetMeans(u, doc);
      }
    }
    assert EMPTY_OBJECT.Obj?;
  }

  /** An update no removal of which takes a path set with it keeps them. */
  lemma TakingNoneKeeps(u: Update)
    requires forall i :: 0 <= i < |u.unset| ==> |u.unset[i]| == 1 || !Covers(u.unset[i], u.set')
    ensures KeepsParents(u)
  {
  }

  // ----- a column that stores nothing -----

  /** Whether an update puts a key in the document, or an item in one of its arrays. */
  predicate PutsKeys(u: Update) {
    u.set' != [] || u.push != [] || u.addToSet != []
  }

  /** Some path leads from the key. */
  predicate LeadsFrom(sets: seq<Assignment>, key: string) {
    exists i :: 0 <= i < |sets| && [key] <= sets[i].path
  }

  /** Some item goes in an array whose key is not removed, and that no path set leads through. */
  predicate StillAppends(u: Update, items: seq<KeyItem>) {
    exists i :: 0 <= i < |items| && [items[i].key] !in u.unset && !LeadsFrom(u.set', items[i].key)
  }

  /** Some path set or item appended is not removed. */
  predicate StillWrites(u: Update) {
    || (exists i :: 0 <= i < |u.set'| && !IsCovered(u.set'[i].path, u.unset))
    || StillAppends(u, u.push)
    || StillAppends(u, u.addToSet)
  }

  predicate AppendsAt(arrays: seq<KeyWrites>, key: string) {
    Find(arrays, key).Some? && Find(arrays, key).value.appends != []
  }

  lemma {:induction false} AppendsSomewhere(arrays: seq<KeyWrites>)
    requires DistinctKeys(arrays)
    ensures (exists a :: a in arrays && a.writes.appends != []) <==> exists key :: AppendsAt(arrays, key)
  {
    if arrays != [] {
      var rest := arrays[1..];
      HeadIsDistinct(arrays);
      AppendsSomewhere(rest);
      assert arrays == [arrays[0]] + rest;
      if key :| AppendsAt(rest, key) {
        assert AppendsAt(arrays, key);
      }
      if arrays[0].writes.appends != [] {
        assert AppendsAt(arrays, arrays[0].key);
      }
      if key :| AppendsAt(arrays, key) {
        assert key != arrays[0].key ==> AppendsAt(rest, key);
      }
    }
  }

  lemma LeadsByPath(sets: seq<Assignment>, key: string)
    ensures LeadsFrom(sets, key) <==> exists p :: HasPath(sets, p) && [key] <= p
  {
    if LeadsFrom(sets, key) {
      var i :| 0 <= i < |sets| && [key] <= sets[i].path;
      HasPathHolds(sets, sets[i].path);
    }
    if p :| HasPath(sets, p) && [key] <= p {
      assert sets[IndexOf(sets, p)].path == p;
    }
  }

  lemma LeadsIsInside(sets: seq<Assignment>, key: string)
    ensures LeadsFrom(sets, key) <==> HasPath(sets, [key]) || SetsInside(sets, key)
  {
    HasPathHolds(sets, [key]);
    if LeadsFrom(sets, key) {
      var i :| 0 <= i < |sets| && [key] <= sets[i].path;
      assert |sets[i].path| == 1 ==> sets[i].path == [key];
      assert sets[i] in sets;
    }
    if s :| s in sets && [key] <= s.path && |s.path| > 1 {
      var i :| 0 <= i < |sets| && sets[i] == s;
    }
  }

  lemma SameLeads(a: seq<Assignment>, b: seq<Assignment>, key: string)
    requires |a| == |b| && forall i :: 0 <= i < |a| ==> a[i].path == b[i].path
    ensures LeadsFrom(a, key) <==> LeadsFrom(b, key)
  {
    assert forall i :: 0 <= i < |a| ==> ([key] <= a[i].path <==> [key] <= b[i].path);
  }

  lemma AppendToAt(w: Writes, key: string, item: Json, unique: bool, k: string)
    ensures AppendsAt(AppendTo(w, key, item, unique).arrays, k) <==>
            AppendsAt(w.arrays, k) || (k == key && !LeadsFrom(w.set', key))
  {
    LeadsIsInside(w.set', key);
    var found := Find(w.arrays, key);
    var put := WithAppend(if found.Some? then found.value else ArrayWrites([], []), item, unique);
    PutKeyFinds(w.arrays, key, put, k);
    assert put.appends != [];
  }

  lemma {:induction false} AppendsAppend(items: seq<KeyItem>, unique: bool, w: Writes, k: string)
    ensures AppendsAt(Appends(items, unique, w).arrays, k) <==>
            AppendsAt(w.arrays, k) || (!LeadsFrom(w.set', k) && exists i :: 0 <= i < |items| && items[i].key == k)
    decreases |items|
  {
    if items != [] {
      var next := AppendTo(w, items[0].key, items[0].item, unique);
      AppendToAt(w, items[0].key, items[0].item, unique, k);
      AppendsAppend(items[1..], unique, next, k);
      SameLeads(next.set', w.set', k);
      if i :| 0 <= i < |items[1..]| && items[1..][i].key == k {
        assert items[i + 1].key == k;
      }
      if i :| 0 <= i < |items| && items[i].key == k {
        assert i > 0 ==> items[1..][i - 1].key == k;
      }
    }
  }

  lemma {:induction false} PullsAppendNone(pull: seq<KeyItem>, arrays: seq<KeyWrites>, k: string)
    requires !AppendsAt(arrays, k)
    ensures !AppendsAt(Pulls(pull, arrays), k)
    decreases |pull|
  {
    if pull != [] {
      PutKeyFinds(arrays, pull[0].key, ArrayWrites([pull[0].item], []), k);
      PullsAppendNone(pull[1..], PutKey(arrays, pull[0].key, ArrayWrites([pull[0].item], [])), k);
    }
  }

  lemma {:induction false} SetsAppendNone(sets: seq<Assignment>, w: Writes, k: string)
    requires AllGiven(sets) && !AppendsAt(w.arrays, k)
    ensures !AppendsAt(Sets(sets, w).arrays, k)
    decreases |sets|
  {
    if sets != [] {
      DropKeyFinds(w.arrays, sets[0].path[0], k);
      SetsAppendNone(sets[1..], FoldSet(w, sets[0].path, sets[0].value), k);
    }
  }

  lemma {:induction false} UnsetsAppend(paths: seq<Path>, w: Writes, k: string)
    requires AreGiven(paths)
    ensures AppendsAt(Unsets(paths, w).arrays, k) <==> AppendsAt(w.arrays, k) && [k] !in paths
    decreases |paths|
  {
    if paths != [] {
      var t := paths[0];
      DropKeyFinds(w.arrays, t[0], k);
      assert t == [k] <==> |t| == 1 && t[0] == k;
      assert paths == [t] + paths[1..];
      UnsetsAppend(paths[1..], FoldUnset(w, t), k);
    }
  }

  lemma RootLeads(given: seq<Assignment>, sets: seq<Assignment>, key: string)
    requires StandFor(given, sets) && AllGiven(sets)
    ensures LeadsFrom(given, key) <==> LeadsFrom(sets, key)
  {
    LeadsByPath(given, key);
    LeadsByPath(sets, key);
    if p :| HasPath(given, p) && [key] <= p {
      var q := RootOf(given, sets, p);
      assert sets[IndexOf(sets, q)].path == q && q != [] && q[0] == key;
    }
  }

  lemma FoldAppendsAt(u: Update, k: string)
    requires Given(u) && DistinctItems(u.pull)
    ensures AppendsAt(Folded(u).arrays, k) <==>
            && [k] !in u.unset && !LeadsFrom(u.set', k)
            && ((exists i :: 0 <= i < |u.push| && u.push[i].key == k)
                || exists i :: 0 <= i < |u.addToSet| && u.addToSet[i].key == k)
  {
    var pulled := Writes([], Pulls(u.pull, []), []);
    PullsMean(u.pull, [], EMPTY_OBJECT);
    PullsAppendNone(u.pull, [], k);
    SetsAppendNone(u.set', pulled, k);
    SetsPaths(u.set', pulled);
    var set' := Sets(u.set', pulled);
    assert StandFor(u.set', set'.set');
    RootLeads(u.set', set'.set', k);
    AppendsAppend(u.push, false, set', k);
    var pushed := Appends(u.push, false, set');
    LeadsByPath(set'.set', k);
    LeadsByPath(pushed.set', k);
    forall p ensures HasPath(pushed.set', p) <==> HasPath(set'.set', p) {
      AppendsPaths(u.push, false, set', p);
    }
    AppendsAppend(u.addToSet, true, pushed, k);
    UnsetsAppend(u.unset, BeforeUnset(u), k);
  }

  lemma FoldStillSets(u: Update)
    requires Given(u) && DistinctItems(u.pull)
    ensures Folded(u).set' != [] <==> exists i :: 0 <= i < |u.set'| && !IsCovered(u.set'[i].path, u.unset)
  {
    var w, last := BeforeUnset(u), Folded(u).set';
    BeforeUnsetMeans(u, EMPTY_OBJECT);
    BeforeUnsetRooted(u);
    if last != [] {
      var p := last[0].path;
      HasPathHolds(last, p);
      UnsetsPaths(u.unset, w, p);
      assert u.set'[IndexOf(u.set', p)].path == p;
    }
    if i :| 0 <= i < |u.set'| && !IsCovered(u.set'[i].path, u.unset) {
      HasPathHolds(u.set', u.set'[i].path);
      var q := RootOf(u.set', w.set', u.set'[i].path);
      RootUncovered(u.set'[i].path, q, u.unset);
      UnsetsPaths(u.unset, w, q);
      assert last[IndexOf(last, q)].path == q;
    }
  }

  /** The fold puts a key in a document exactly where something the update sets or appends is not removed. */
  lemma FoldWritesKeys(u: Update)
    requires Given(u) && DistinctItems(u.pull)
    ensures WritesKeys(Folded(u)) <==> StillWrites(u)
    ensures StillWrites(u) ==> PutsKeys(u)
  {
    FoldStillSets(u);
    FoldIsFolded(u);
    AppendsSomewhere(Folded(u).arrays);
    forall k ensures AppendsAt(Folded(u).arrays, k) <==>
            && [k] !in u.unset && !LeadsFrom(u.set', k)
            && ((exists i :: 0 <= i < |u.push| && u.push[i].key == k)
                || exists i :: 0 <= i < |u.addToSet| && u.addToSet[i].key == k)
    {
      FoldAppendsAt(u, k);
    }
    if StillAppends(u, u.push) {
      var i :| 0 <= i < |u.push| && [u.push[i].key] !in u.unset && !LeadsFrom(u.set', u.push[i].key);
      assert AppendsAt(Folded(u).arrays, u.push[i].key);
    }
    if StillAppends(u, u.addToSet) {
      var i :| 0 <= i < |u.addToSet| && [u.addToSet[i].key] !in u.unset && !LeadsFrom(u.set', u.addToSet[i].key);
      assert AppendsAt(Folded(u).arrays, u.addToSet[i].key);
    }
  }

  // ----- the update -----

  lemma {:induction false} NothingInTurn(u: Update, doc: Json)
    requires Given(u) && !doc.Obj?
    ensures InTurn(u, doc) == doc
    decreases |u.pull| + |u.set'| + |u.push| + |u.addToSet| + |u.unset|
  {
    if u.pull != [] {
      NothingInTurn(u.(pull := u.pull[1..]), doc);
    } else if u.set' != [] {
      NothingInTurn(u.(set' := u.set'[1..]), doc);
    } else if u.push != [] {
      NothingInTurn(u.(push := u.push[1..]), doc);
    } else if u.addToSet != [] {
      NothingInTurn(u.(addToSet := u.addToSet[1..]), doc);
    } else if u.unset != [] {
      NothingInTurn(u.(unset := u.unset[1..]), doc);
    }
  }

  /**
   * What an update leaves of the column: its operators one after another, NULL where there is nothing to put a key in.
   */
  function UpdatedColumn(u: Update, stored: Option<Json>): Option<Json>
    requires Given(u)
  {
    if stored.None? && !PutsKeys(u) then None else Some(InTurn(u, DocumentOf(stored)))
  }

  /** Nothing is lost of a NULL: something the update sets or appends is not removed, if it does either. */
  predicate KeepsNull(u: Update) {
    PutsKeys(u) ==> StillWrites(u)
  }

  lemma UpdateOfValue(u: Update, notNull: bool, form: Form, doc: Json)
    requires Given(u) && DistinctItems(u.pull) && (KeepsParents(u) || !doc.Obj?)
    ensures IsFolded(Folded(u))
    ensures Eval(ObjectUpdateSql(Folded(u), notNull, form), Some(doc)) == UpdatedColumn(u, Some(doc))
  {
    FoldMeansExactly(u);
    ObjectUpdateMeans(Folded(u), notNull, form, Some(doc));
    if !doc.Obj? {
      NothingSetInside(Folded(u), doc);
      NothingInTurn(u, doc);
    }
  }

  lemma UpdateOfNull(u: Update, form: Form)
    requires Given(u) && DistinctItems(u.pull)
    ensures IsFolded(Folded(u))
    ensures Eval(ObjectUpdateSql(Folded(u), false, form), None) == UpdatedColumn(u, None)
            <==> !PutsKeys(u) || (StillWrites(u) && KeepsParents(u))
  {
    FoldMeansExactly(u);
    FoldWritesKeys(u);
    ObjectUpdateMeans(Folded(u), false, form, None);
  }

  /**
   * The SQL of an object's update, whose every write reads the column as it is stored, leaves what the operators leave
   * one after another: where the parents of what it removes are made all the same, and, of a NULL, where something it
   * sets or appends is not removed.
   */
  lemma JsonUpdateMeans(u: Update, notNull: bool, form: Form, stored: Option<Json>)
    requires Given(u) && DistinctItems(u.pull) && KeepsParents(u)
    requires stored.None? ==> !notNull && KeepsNull(u)
    ensures IsFolded(Folded(u))
    ensures Eval(ObjectUpdateSql(Folded(u), notNull, form), stored) == UpdatedColumn(u, stored)
  {
    if stored.Some? {
      UpdateOfValue(u, notNull, form, stored.value);
    } else {
      UpdateOfNull(u, form);
    }
  }

  /** Over every value a column may store, it does so exactly under those two conditions. */
  lemma JsonUpdateExactly(u: Update, notNull: bool, form: Form)
    requires Given(u) && DistinctItems(u.pull)
    ensures IsFolded(Folded(u))
    ensures (forall stored: Option<Json> :: (notNull ==> stored.Some?) ==>
               Eval(ObjectUpdateSql(Folded(u), notNull, form), stored) == UpdatedColumn(u, stored))
            <==> KeepsParents(u) && (notNull || KeepsNull(u))
  {
    FoldMeansExactly(u);
    if KeepsParents(u) && (notNull || KeepsNull(u)) {
      forall stored: Option<Json> | notNull ==> stored.Some?
        ensures Eval(ObjectUpdateSql(Folded(u), notNull, form), stored) == UpdatedColumn(u, stored)
      {
        JsonUpdateMeans(u, notNull, form, stored);
      }
    } else if KeepsParents(u) {
      UpdateOfNull(u, form);
      assert Option<Json>.None.None?;
    } else {
      ObjectUpdateMeans(Folded(u), notNull, form, Some(EMPTY_OBJECT));
      assert Some(EMPTY_OBJECT).Some?;
    }
  }

  // ----- where the fold leaves less -----

  function SetThenUnset(s: Assignment, t: Path): Update {
    Update([], [s], [], [], [t])
  }

  lemma {:induction false} NoneLeadsTo(s: Assignment, t: Path)
    requires t != [] && t <= s.path
    ensures DropWithin([s], t) == [] && OwnerDepth([s], t, 1) == |t|
  {
    assert [s][1..] == [];
    assert forall d :: 1 <= d < |t| ==> !HasPath([s], t[..d]);
  }

  lemma UnsetTakesTheSet(s: Assignment, t: Path)
    requires |t| > 1 && t <= s.path
    ensures Folded(SetThenUnset(s, t)) == Writes([], [], [t])
  {
    var u, none := SetThenUnset(s, t), Writes([], [], []);
    assert u.set'[1..] == [] && u.unset[1..] == [];
    assert FoldSet(none, s.path, s.value) == Writes([s], [], []);
    assert Sets(u.set', none) == Sets([], Writes([s], [], []));
    NoneLeadsTo(s, t);
    assert FoldUnset(Writes([s], [], []), t) == Writes([], [], [t]);
    assert Unsets(u.unset, Writes([s], [], [])) == Unsets([], Writes([], [], [t]));
  }

  /** A path removed with one set at it or inside it takes the set, and with it the parents the set would have made. */
  lemma UnsetLosesParents(s: Assignment, t: Path)
    requires |t| > 1 && t <= s.path
    ensures PathsGiven(Folded(SetThenUnset(s, t))) && Left(Folded(SetThenUnset(s, t)), EMPTY_OBJECT) == EMPTY_OBJECT
    ensures InTurn(SetThenUnset(s, t), EMPTY_OBJECT) != EMPTY_OBJECT
  {
    var u := SetThenUnset(s, t);
    UnsetTakesTheSet(s, t);
    assert [t][1..] == [] && [s][1..] == [];
    assert RemoveAll(EMPTY_OBJECT, [t]) == RemoveAll(Remove(EMPTY_OBJECT, t), []);
    var set' := SetPath(EMPTY_OBJECT, s.path, s.value);
    assert SetAll(EMPTY_OBJECT, [s]) == SetAll(set', []);
    assert t[0] == s.path[0] && t[0] in set'.fields;
    assert RemoveAll(set', [t]) == RemoveAll(Remove(set', t), []);
    assert t[0] in Remove(set', t).fields;
  }

  /** For one path set and one removed, nothing is lost just where the path is a key, or takes no path set with it. */
  lemma SetThenUnsetMeans(s: Assignment, t: Path)
    requires s.path != [] && t != []
    ensures Given(SetThenUnset(s, t)) && IsFolded(Folded(SetThenUnset(s, t)))
    ensures (forall doc: Json :: doc.Obj? ==>
               Left(Folded(SetThenUnset(s, t)), doc) == InTurn(SetThenUnset(s, t), doc))
            <==> |t| == 1 || !(t <= s.path)
  {
    var u := SetThenUnset(s, t);
    FoldMeansExactly(u);
    if |t| > 1 && t <= s.path {
      UnsetLosesParents(s, t);
    } else {
      TakingNoneKeeps(u);
    }
  }

  /**
   * A removal is harmless, whatever it takes with it, where another path set leads through its parent: the fold leaves
   * what the operators leave of every object.
   */
  lemma BesideMeans(s: Assignment, t: Path, beside: Assignment)
    requires t != [] && t <= s.path && ParentOf(t) < beside.path && !(t <= beside.path)
    ensures var u := Update([], [s, beside], [], [], [t]);
            && Given(u) && IsFolded(Folded(u)) && KeepsParents(u)
            && forall doc: Json :: doc.Obj? ==> Left(Folded(u), doc) == InTurn(u, doc)
  {
    var u := Update([], [s, beside], [], [], [t]);
    assert u.set'[1] == beside && !IsCovered(beside.path, u.unset);
    FoldMeansExactly(u);
  }

  lemma SetThenUnsetInTurn(key: string, v: Json)
    ensures var u := SetThenUnset(Assignment([key], v), [key]); Given(u) && InTurn(u, EMPTY_OBJECT) == EMPTY_OBJECT
  {
    var s, t: Path := Assignment([key], v), [key];
    var sets, paths := [s], [t];
    assert sets[1..] == [] && paths[1..] == [];
    var set' := SetPath(EMPTY_OBJECT, s.path, v);
    assert SetAll(EMPTY_OBJECT, [s]) == SetAll(set', []) == set';
    assert map[key := v] - {key} == map[];
    assert Remove(set', t) == EMPTY_OBJECT;
    assert RemoveAll(set', [t]) == RemoveAll(Remove(set', t), []);
  }

  /** A key set and removed leaves a NULL as it was, where the operators leave an object of no keys. */
  lemma SetThenUnsetOfNull(key: string, v: Json, form: Form)
    ensures var u := SetThenUnset(Assignment([key], v), [key]);
            && Given(u) && IsFolded(Folded(u))
            && Eval(ObjectUpdateSql(Folded(u), false, form), None) == None
            && UpdatedColumn(u, None) == Some(EMPTY_OBJECT)
  {
    var u := SetThenUnset(Assignment([key], v), [key]);
    SetThenUnsetInTurn(key, v);
    FoldMeansExactly(u);
    FoldWritesKeys(u);
    ObjectUpdateMeans(Folded(u), false, form, None);
    assert u.unset[0] <= u.set'[0].path;
  }
}
