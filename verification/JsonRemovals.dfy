/** What the removals of a JSON update lose where they are folded, and exactly when they lose nothing. */
module JsonRemovals {
  import opened Sequences
  import opened JsonDocuments
  import opened JsonSql
  import opened JsonUpdates
  import opened JsonUpdateTheorem
  import opened JsonFold
  import opened JsonFoldTheorem

  // ----- parents made of a document -----

  predicate AreGiven(paths: seq<Path>) {
    forall i :: 0 <= i < |paths| ==> paths[i] != []
  }

  /** `doc` with every parent of each path an object. */
  function WithAllParents(doc: Json, paths: seq<Path>): Json
    requires AreGiven(paths)
    decreases |paths|
  {
    if paths == [] then doc else WithAllParents(WithParents(doc, paths[0]), paths[1..])
  }

  lemma {:induction false} AllParentsThen(doc: Json, paths: seq<Path>, path: Path)
    requires AreGiven(paths) && path != []
    ensures AreGiven(paths + [path])
    ensures WithAllParents(doc, paths + [path]) == WithParents(WithAllParents(doc, paths), path)
    decreases |paths|
  {
    if paths == [] {
      assert paths + [path] == [path] && [path][1..] == [];
    } else {
      HeadAndTail(paths, [path]);
      assert (paths + [path])[0] == paths[0];
      AllParentsThen(WithParents(doc, paths[0]), paths[1..], path);
    }
  }

  lemma {:induction false} AllParentsStayObject(doc: Json, paths: seq<Path>)
    requires AreGiven(paths) && doc.Obj?
    ensures WithAllParents(doc, paths).Obj?
    decreases |paths|
  {
    if paths != [] {
      AllParentsStayObject(WithParents(doc, paths[0]), paths[1..]);
    }
  }

  /** A path set and then removed with all it is inside of leaves the parents it was set in. */
  lemma {:induction false} RemoveOverSet(doc: Json, s: Path, v: Json, t: Path)
    requires t != [] && t <= s
    ensures Remove(SetPath(doc, s, v), t) == Remove(WithParents(doc, t), t)
    decreases |t|
  {
    if doc.Obj? {
      var key, inner := t[0], Inner(doc, t[0]);
      var l := if |s| == 1 then v else SetPath(inner, s[1..], v);
      assert SetPath(doc, s, v) == Obj(doc.fields[key := l]);
      if |t| == 1 {
        assert doc.fields[key := l] - {key} == doc.fields - {key};
        assert key !in doc.fields ==> doc.fields - {key} == doc.fields;
      } else {
        assert t[1..] <= s[1..];
        RemoveOverSet(inner, s[1..], v, t[1..]);
        var r := WithParents(inner, t[1..]);
        assert doc.fields[key := l][key := Remove(l, t[1..])] == doc.fields[key := r][key := Remove(r, t[1..])];
      }
    }
  }

  /** Parents made where there are some are as they were. */
  lemma {:induction false} ParentsOfHeld(doc: Json, t: Path)
    requires t != [] && Holds(doc, t)
    ensures WithParents(doc, t) == doc
    decreases |t|
  {
    if |t| > 1 {
      ParentsOfHeld(doc.fields[t[0]], t[1..]);
      assert doc.fields[t[0] := doc.fields[t[0]]] == doc.fields;
    }
  }

  lemma {:induction false} SetHoldsInside(doc: Json, s: Path, v: Json, t: Path)
    requires t != [] && t <= s && doc.Obj?
    ensures Holds(SetPath(doc, s, v), t)
    decreases |t|
  {
    if |t| > 1 {
      assert t[1..] <= s[1..];
      SetHoldsInside(Inner(doc, t[0]), s[1..], v, t[1..]);
    }
  }

  /** What was set at a removed path or inside it may as well be left out, but for the parents it made. */
  lemma {:induction false} RemovePastDropped(doc: Json, sets: seq<Assignment>, t: Path)
    requires t != [] && doc.Obj? && AllGiven(sets) && Covers(t, sets)
    requires forall s :: s in sets ==> Apart(s.path, t) || t <= s.path
    ensures AllGiven(DropWithin(sets, t))
    ensures Remove(SetAll(doc, sets), t) == Remove(SetAll(WithParents(doc, t), DropWithin(sets, t)), t)
    decreases |sets|
  {
    var s, rest := sets[0], sets[1..];
    var left := DropWithin(sets, t);
    DropWithinHolds(sets, t);
    DropWithinHolds(rest, t);
    assert s in sets && forall x :: x in rest ==> x in sets;
    forall i | 0 <= i < |left| ensures left[i].path != [] {
      assert left[i] in left;
    }
    var next := SetPath(doc, s.path, s.value);
    if t <= s.path {
      assert left == DropWithin(rest, t);
      RemovePastSets(WithParents(doc, t), left, t);
      RemoveOverSet(doc, s.path, s.value, t);
      if Covers(t, rest) {
        RemovePastDropped(next, rest, t);
        SetHoldsInside(doc, s.path, s.value, t);
        ParentsOfHeld(next, t);
      }
      RemovePastSets(next, left, t);
    } else {
      assert left[0] == s && left[1..] == DropWithin(rest, t);
      CoversLater(sets, t);
      ParentsCommute(doc, s.path, s.value, t);
      RemovePastDropped(next, rest, t);
    }
  }

  lemma CoversLater(sets: seq<Assignment>, t: Path)
    requires sets != [] && Covers(t, sets) && !(t <= sets[0].path)
    ensures Covers(t, sets[1..])
  {
    var i :| 0 <= i < |sets| && t <= sets[i].path;
    assert sets[1..][i - 1] == sets[i];
  }

  // ----- one removal -----

  /** What the writes leave of `doc` had it the parents of each of `lost`. */
  function LeftWith(w: Writes, lost: seq<Path>, doc: Json): Json
    requires PathsGiven(w) && AreGiven(lost)
  {
    RemoveAll(SetAll(WithAllParents(WriteArrays(doc, w.arrays), lost), w.set'), w.unset)
  }

  /** The parents a removal loses with the paths set that it takes: none of the document's own keys have any. */
  function Lost(w: Writes, t: Path): (r: seq<Path>)
    ensures t != [] ==> AreGiven(r)
  {
    if |t| > 1 && Covers(t, w.set') then [t] else []
  }

  lemma ParentsKeepElsewhere(a: Json, b: Json, key: string, q: Path)
    requires q != [] && SameElsewhere(a, b, key)
    ensures SameElsewhere(WithParents(a, q), WithParents(b, q), key)
  {
    GetKey(a, q[0]);
    GetKey(b, q[0]);
    forall k ensures k != key ==> Get(WithParents(a, q), [k]) == Get(WithParents(b, q), [k]) {
      assert q[0] != key ==> Get(a, [q[0]]) == Get(b, [q[0]]);
      GetKey(WithParents(a, q), k);
      GetKey(WithParents(b, q), k);
      GetKey(a, k);
      GetKey(b, k);
    }
  }

  lemma {:induction false} AllParentsKeepElsewhere(a: Json, b: Json, key: string, paths: seq<Path>)
    requires AreGiven(paths) && SameElsewhere(a, b, key)
    ensures SameElsewhere(WithAllParents(a, paths), WithAllParents(b, paths), key)
    decreases |paths|
  {
    if paths != [] {
      ParentsKeepElsewhere(a, b, key, paths[0]);
      AllParentsKeepElsewhere(WithParents(a, paths[0]), WithParents(b, paths[0]), key, paths[1..]);
    }
  }

  /** A key removed takes with it whatever is written there. */
  lemma KeyRemoved(w: Writes, key: string, lost: seq<Path>, doc: Json)
    requires IsFold(w) && doc.Obj? && AreGiven(lost)
    ensures AllGiven(DropWithin(w.set', [key]))
    ensures Remove(SetAll(WithAllParents(WriteArrays(doc, w.arrays), lost), w.set'), [key])
         == Remove(SetAll(WithAllParents(WriteArrays(doc, DropKey(w.arrays, key)), lost), DropWithin(w.set', [key])),
                   [key])
  {
    var a, b := WriteArrays(doc, w.arrays), WriteArrays(doc, DropKey(w.arrays, key));
    ArrayIsNoObject(doc, w.arrays, key);
    AllParentsKeepElsewhere(a, b, key, lost);
    var a', b' := WithAllParents(a, lost), WithAllParents(b, lost);
    KeyDroppedElsewhere(a', b', w.set', key);
    RemovedElsewhere(SetAll(a', w.set'), SetAll(b', DropWithin(w.set', [key])), key);
  }

  lemma UnsetInOwner(w: Writes, t: Path, lost: seq<Path>, doc: Json)
    requires IsFold(w) && t != [] && doc.Obj? && AreGiven(lost) && OwnerDepth(w.set', t, 1) < |t|
    ensures PathsGiven(FoldUnset(w, t)) && Lost(w, t) == []
    ensures LeftWith(FoldUnset(w, t), lost, doc) == Remove(LeftWith(w, lost, doc), t)
  {
    var from, d := WithAllParents(WriteArrays(doc, w.arrays), lost), OwnerDepth(w.set', t, 1);
    OwnerCovers(w.set', t, d);
    UnsetWritesInOwner(w, t);
    InOwnerMeans(w.set', t, d, from);
    RemoveAllThen(SetAll(from, w.set'), w.unset, t);
  }

  lemma UnsetOfKey(w: Writes, t: Path, lost: seq<Path>, doc: Json)
    requires IsFold(w) && |t| == 1 && doc.Obj? && AreGiven(lost)
    ensures PathsGiven(FoldUnset(w, t))
    ensures LeftWith(FoldUnset(w, t), lost, doc) == Remove(LeftWith(w, lost, doc), t)
  {
    assert t == [t[0]];
    KeyRemoved(w, t[0], lost, doc);
    UnsetLeaves(w, t, SetAll(WithAllParents(WriteArrays(doc, w.arrays), lost), w.set'),
                SetAll(WithAllParents(WriteArrays(doc, DropKey(w.arrays, t[0])), lost), DropWithin(w.set', t)));
  }

  lemma UnsetOfNone(w: Writes, t: Path, lost: seq<Path>, doc: Json)
    requires IsFold(w) && |t| > 1 && doc.Obj? && AreGiven(lost)
    requires !Covers(t, w.set') && OwnerDepth(w.set', t, 1) == |t|
    ensures PathsGiven(FoldUnset(w, t))
    ensures LeftWith(FoldUnset(w, t), lost, doc) == Remove(LeftWith(w, lost, doc), t)
  {
    var from := SetAll(WithAllParents(WriteArrays(doc, w.arrays), lost), w.set');
    DropWithinHolds(w.set', t);
    UnsetLeaves(w, t, from, from);
  }

  lemma UnsetOfSets(w: Writes, t: Path, lost: seq<Path>, doc: Json)
    requires IsFold(w) && |t| > 1 && doc.Obj? && AreGiven(lost)
    requires Covers(t, w.set') && OwnerDepth(w.set', t, 1) == |t|
    ensures PathsGiven(FoldUnset(w, t)) && AreGiven(lost + [t])
    ensures LeftWith(FoldUnset(w, t), lost + [t], doc) == Remove(LeftWith(w, lost, doc), t)
  {
    var base := WriteArrays(doc, w.arrays);
    var from := WithAllParents(base, lost);
    ArraysWritten(w.arrays, doc, "");
    AllParentsStayObject(base, lost);
    NoOwner(w.set', t);
    RemovePastDropped(from, w.set', t);
    AllParentsThen(base, lost, t);
    UnsetLeaves(w, t, SetAll(from, w.set'), SetAll(WithParents(from, t), DropWithin(w.set', t)));
  }

  /**
   * A removal folded into the writes leaves what removing the path from the document they leave does, given back the
   * parents of a path set that it took: it loses those alone.
   */
  lemma FoldUnsetMeans(w: Writes, t: Path, lost: seq<Path>, doc: Json)
    requires IsFold(w) && t != [] && doc.Obj? && AreGiven(lost)
    ensures IsFold(FoldUnset(w, t)) && AreGiven(lost + Lost(w, t))
    ensures LeftWith(FoldUnset(w, t), lost + Lost(w, t), doc) == Remove(LeftWith(w, lost, doc), t)
  {
    FoldUnsetKeeps(w, t);
    NothingAfter(lost);
    if OwnerDepth(w.set', t, 1) < |t| {
      UnsetInOwner(w, t, lost, doc);
    } else if |t| == 1 {
      UnsetOfKey(w, t, lost, doc);
    } else if Covers(t, w.set') {
      UnsetOfSets(w, t, lost, doc);
    } else {
      UnsetOfNone(w, t, lost, doc);
    }
  }

  // ----- every removal -----

  /** The parents the removals lose, one after another. */
  function LostBy(paths: seq<Path>, w: Writes): (r: seq<Path>)
    requires AreGiven(paths)
    ensures AreGiven(r)
    decreases |paths|
  {
    if paths == [] then [] else Lost(w, paths[0]) + LostBy(paths[1..], FoldUnset(w, paths[0]))
  }

  lemma {:induction false} UnsetsLose(paths: seq<Path>, w: Writes, lost: seq<Path>, doc: Json)
    requires IsFold(w) && doc.Obj? && AreGiven(paths) && AreGiven(lost)
    ensures IsFold(Unsets(paths, w)) && AreGiven(lost + LostBy(paths, w))
    ensures LeftWith(Unsets(paths, w), lost + LostBy(paths, w), doc) == RemoveAll(LeftWith(w, lost, doc), paths)
    decreases |paths|
  {
    if paths == [] {
      NothingAfter(lost);
    } else {
      var one := Lost(w, paths[0]);
      FoldUnsetMeans(w, paths[0], lost, doc);
      UnsetsLose(paths[1..], FoldUnset(w, paths[0]), lost + one, doc);
      Regroup(lost, one, LostBy(paths[1..], FoldUnset(w, paths[0])));
    }
  }

  // ----- which paths are still set -----

  lemma {:induction false} HasPathHolds(sets: seq<Assignment>, p: Path)
    ensures HasPath(sets, p) <==> exists i :: 0 <= i < |sets| && sets[i].path == p
  {
    var i := IndexOf(sets, p);
    assert i < |sets| ==> sets[i].path == p;
  }

  /** Of paths none of which leads through another, one that leads through another's is it. */
  lemma OneOfApart(sets: seq<Assignment>, p: Path, q: Path)
    requires AllApart(sets) && HasPath(sets, p) && HasPath(sets, q) && p <= q
    ensures p == q
  {
    var i, j := IndexOf(sets, p), IndexOf(sets, q);
    assert sets[i].path == p && sets[j].path == q;
  }

  lemma CoversPath(sets: seq<Assignment>, t: Path)
    ensures Covers(t, sets) <==> exists p :: HasPath(sets, p) && t <= p
  {
    if Covers(t, sets) {
      var i :| 0 <= i < |sets| && t <= sets[i].path;
      HasPathHolds(sets, sets[i].path);
      assert HasPath(sets, sets[i].path);
    }
    if p :| HasPath(sets, p) && t <= p {
      assert sets[IndexOf(sets, p)].path == p;
    }
  }

  lemma DropWithinPaths(sets: seq<Assignment>, t: Path, p: Path)
    ensures HasPath(DropWithin(sets, t), p) <==> HasPath(sets, p) && !(t <= p)
  {
    var left := DropWithin(sets, t);
    DropWithinHolds(sets, t);
    HasPathHolds(sets, p);
    HasPathHolds(left, p);
    if HasPath(left, p) {
      assert left[IndexOf(left, p)] in left;
    }
    if HasPath(sets, p) && !(t <= p) {
      assert sets[IndexOf(sets, p)] in left;
    }
  }

  lemma SamePaths(a: seq<Assignment>, b: seq<Assignment>, p: Path)
    requires |a| == |b| && forall i :: 0 <= i < |a| ==> a[i].path == b[i].path
    ensures HasPath(a, p) <==> HasPath(b, p)
  {
    HasPathHolds(a, p);
    HasPathHolds(b, p);
  }

  lemma FoldUnsetPaths(w: Writes, t: Path, p: Path)
    requires IsFold(w) && t != []
    ensures HasPath(FoldUnset(w, t).set', p) <==> HasPath(w.set', p) && !(t <= p)
  {
    DropWithinPaths(w.set', t, p);
    var d := OwnerDepth(w.set', t, 1);
    if d < |t| {
      OwnerKept(w.set', t, d);
      SamePaths(FoldUnset(w, t).set', DropWithin(w.set', t), p);
    }
  }

  predicate IsCovered(p: Path, paths: seq<Path>) {
    exists i :: 0 <= i < |paths| && paths[i] <= p
  }

  /** A path stays set exactly where no removal covers it. */
  lemma {:induction false} UnsetsPaths(paths: seq<Path>, w: Writes, p: Path)
    requires IsFold(w) && AreGiven(paths)
    ensures HasPath(Unsets(paths, w).set', p) <==> HasPath(w.set', p) && !IsCovered(p, paths)
    decreases |paths|
  {
    if paths != [] {
      FoldUnsetKeeps(w, paths[0]);
      FoldUnsetPaths(w, paths[0], p);
      UnsetsPaths(paths[1..], FoldUnset(w, paths[0]), p);
      if IsCovered(p, paths[1..]) {
        var i :| 0 <= i < |paths[1..]| && paths[1..][i] <= p;
        assert paths[i + 1] <= p;
      } else if IsCovered(p, paths) {
        var i :| 0 <= i < |paths| && paths[i] <= p;
        assert i > 0 ==> paths[1..][i - 1] <= p;
      }
    }
  }

  /** No path set leads to `t`. */
  ghost predicate NoneLeads(sets: seq<Assignment>, t: Path) {
    forall p :: HasPath(sets, p) ==> !(p < t)
  }

  lemma ProperPrefixes(t: Path)
    ensures forall d :: 0 <= d < |t| ==> t[..d] < t
  {
  }

  lemma {:induction false} UnsetsGrow(paths: seq<Path>, w: Writes)
    requires AreGiven(paths)
    ensures forall t :: t in w.unset ==> t in Unsets(paths, w).unset
    decreases |paths|
  {
    if paths != [] {
      UnsetsGrow(paths[1..], FoldUnset(w, paths[0]));
    }
  }

  /** A path removed that no path set leads to is removed from the document. */
  lemma {:induction false} UnsetsHold(paths: seq<Path>, w: Writes, i: nat)
    requires IsFold(w) && AreGiven(paths) && i < |paths| && NoneLeads(w.set', paths[i])
    ensures paths[i] in Unsets(paths, w).unset
    decreases |paths|
  {
    var next := FoldUnset(w, paths[0]);
    FoldUnsetKeeps(w, paths[0]);
    if i == 0 {
      ProperPrefixes(paths[0]);
      assert OwnerDepth(w.set', paths[0], 1) == |paths[0]|;
      assert paths[0] in next.unset;
      UnsetsGrow(paths[1..], next);
    } else {
      forall p | HasPath(next.set', p) ensures !(p < paths[i]) {
        FoldUnsetPaths(w, paths[0], p);
      }
      assert paths[1..][i - 1] == paths[i];
      UnsetsHold(paths[1..], next, i - 1);
    }
  }

  /** What is lost are parents of paths removed with a path set. */
  lemma {:induction false} LostIsRemoved(paths: seq<Path>, w: Writes, t: Path)
    requires IsFold(w) && AreGiven(paths) && t in LostBy(paths, w)
    ensures |t| > 1 && t in paths && Covers(t, w.set')
    decreases |paths|
  {
    var next := FoldUnset(w, paths[0]);
    if t !in Lost(w, paths[0]) {
      FoldUnsetKeeps(w, paths[0]);
      LostIsRemoved(paths[1..], next, t);
      FoldUnsetCovers(w, paths[0]);
    }
  }

  // ----- nothing lost -----

  /** No other of `paths` leads to `t`. */
  predicate IsMinimal(paths: seq<Path>, t: Path) {
    forall i :: 0 <= i < |paths| ==> !(paths[i] < t)
  }

  lemma {:induction false} MinimalBelow(paths: seq<Path>, k: nat) returns (i: nat)
    requires k < |paths|
    ensures i < |paths| && paths[i] <= paths[k] && IsMinimal(paths, paths[i])
    decreases |paths[k]|
  {
    if IsMinimal(paths, paths[k]) {
      i := k;
    } else {
      var j :| 0 <= j < |paths| && paths[j] < paths[k];
      i := MinimalBelow(paths, j);
    }
  }

  /** `t` takes a path set with it, and is inside none. */
  predicate TakesSet(sets: seq<Assignment>, t: Path) {
    Covers(t, sets) && forall i :: 0 <= i < |sets| ==> !(sets[i].path < t)
  }

  /** A path set that no removal covers leads through `parent`. */
  predicate MadeBeside(sets: seq<Assignment>, unset: seq<Path>, parent: Path) {
    exists i :: 0 <= i < |sets| && parent < sets[i].path && !IsCovered(sets[i].path, unset)
  }

  /**
   * The parents of each path removed are made all the same: of each that no other removal leads to, that is no key of
   * the document's own, and that takes a path set with it, the parent is on the way of a path that stays set.
   */
  predicate ParentsKept(sets: seq<Assignment>, unset: seq<Path>) {
    forall i :: 0 <= i < |unset| && |unset[i]| > 1 && IsMinimal(unset, unset[i]) && TakesSet(sets, unset[i]) ==>
      MadeBeside(sets, unset, ParentOf(unset[i]))
  }

  lemma ApartTakes(sets: seq<Assignment>, t: Path)
    requires AllApart(sets) && Covers(t, sets)
    ensures TakesSet(sets, t) && NoneLeads(sets, t)
  {
    CoversPath(sets, t);
    var s :| HasPath(sets, s) && t <= s;
    forall p | HasPath(sets, p) ensures !(p < t) {
      if p < t {
        OneOfApart(sets, p, s);
      }
    }
    forall i | 0 <= i < |sets| ensures !(sets[i].path < t) {
      HasPathHolds(sets, sets[i].path);
    }
  }

  lemma {:induction false} SetAllHolds(doc: Json, sets: seq<Assignment>, q: Path)
    requires AllGiven(sets) && q != [] && Holds(doc, q) && forall i :: 0 <= i < |sets| ==> Apart(sets[i].path, q)
    ensures Holds(SetAll(doc, sets), q)
    decreases |sets|
  {
    if sets != [] {
      SetStillHolds(doc, sets[0].path, sets[0].value, q);
      SetAllHolds(SetPath(doc, sets[0].path, sets[0].value), sets[1..], q);
    }
  }

  /** Every path set has its parents in the end. */
  lemma {:induction false} SetHolds(doc: Json, sets: seq<Assignment>, k: nat)
    requires AllGiven(sets) && AllApart(sets) && k < |sets| && doc.Obj?
    ensures Holds(SetAll(doc, sets), sets[k].path) && SetAll(doc, sets).Obj?
    decreases |sets|
  {
    var s := sets[0];
    var next := SetPath(doc, s.path, s.value);
    if k == 0 {
      SetHoldsInside(doc, s.path, s.value, s.path);
      forall i | 0 <= i < |sets[1..]| ensures Apart(sets[1..][i].path, s.path) {
        assert sets[1..][i] == sets[i + 1];
      }
      SetAllHolds(next, sets[1..], s.path);
    } else {
      SetHolds(next, sets[1..], k - 1);
    }
  }

  lemma {:induction false} SetAllStaysObject(doc: Json, sets: seq<Assignment>)
    requires AllGiven(sets) && doc.Obj?
    ensures SetAll(doc, sets).Obj?
    decreases |sets|
  {
    if sets != [] {
      SetAllStaysObject(SetPath(doc, sets[0].path, sets[0].value), sets[1..]);
    }
  }

  /** A path whose parent is on the way of one that has its parents has its own. */
  lemma HoldsBeside(doc: Json, s: Path, t: Path)
    requires t != [] && s != [] && Holds(doc, s) && ParentOf(t) < s
    ensures Holds(doc, t)
  {
    HoldsUnderParent(doc, s);
    HoldsUnderParent(doc, t);
    assert ParentOf(t) <= ParentOf(s);
    ObjectAbove(doc, ParentOf(t), ParentOf(s));
  }

  /** Parents made inside a path about to be removed are nothing, where that path has its own. */
  lemma {:induction false} ParentsInsideRemoved(doc: Json, t: Path, above: Path)
    requires above != [] && above <= t && Holds(doc, above)
    ensures Remove(WithParents(doc, t), above) == Remove(doc, above)
    decreases |above|
  {
    if |t| > 1 {
      var key, f := above[0], doc.fields;
      var made := WithParents(Inner(doc, key), t[1..]);
      assert t[0] == key;
      if |above| == 1 {
        assert f[key := made] - {key} == f - {key};
        assert key !in f ==> f - {key} == f;
      } else {
        assert above[1..] <= t[1..];
        ParentsInsideRemoved(f[key], t[1..], above[1..]);
        assert f[key := made][key := Remove(made, above[1..])] == f[key := Remove(f[key], above[1..])];
      }
    }
  }

  ghost predicate IsRemovedAbove(doc: Json, unset: seq<Path>, t: Path)
    requires AreGiven(unset)
  {
    exists i :: 0 <= i < |unset| && unset[i] <= t && Holds(doc, unset[i])
  }

  lemma {:induction false} ParentsRemoved(doc: Json, lost: seq<Path>, unset: seq<Path>)
    requires AreGiven(lost) && AreGiven(unset)
    requires forall k :: 0 <= k < |lost| ==> IsRemovedAbove(doc, unset, lost[k])
    ensures RemoveAll(WithAllParents(doc, lost), unset) == RemoveAll(doc, unset)
    decreases |lost|
  {
    if lost != [] {
      var t := lost[0];
      var next := WithParents(doc, t);
      forall k | 0 <= k < |lost[1..]| ensures IsRemovedAbove(next, unset, lost[1..][k]) {
        assert IsRemovedAbove(doc, unset, lost[k + 1]);
        var i :| 0 <= i < |unset| && unset[i] <= lost[k + 1] && Holds(doc, unset[i]);
        ParentsStillHold(doc, unset[i], t);
      }
      ParentsRemoved(next, lost[1..], unset);
      assert IsRemovedAbove(doc, unset, t);
      var i :| 0 <= i < |unset| && unset[i] <= t && Holds(doc, unset[i]);
      ParentsInsideRemoved(doc, t, unset[i]);
      RemovedAlready(next, unset, unset[i]);
      RemovedAlready(doc, unset, unset[i]);
    }
  }

  lemma {:induction false} ParentsPastSet(doc: Json, s: Assignment, lost: seq<Path>)
    requires AreGiven(lost) && s.path != [] && forall k :: 0 <= k < |lost| ==> Apart(s.path, lost[k])
    ensures SetPath(WithAllParents(doc, lost), s.path, s.value) == WithAllParents(SetPath(doc, s.path, s.value), lost)
    decreases |lost|
  {
    if lost != [] {
      ParentsCommute(doc, s.path, s.value, lost[0]);
      ParentsPastSet(WithParents(doc, lost[0]), s, lost[1..]);
    }
  }

  lemma {:induction false} ParentsPastSets(doc: Json, sets: seq<Assignment>, lost: seq<Path>)
    requires AreGiven(lost) && AllGiven(sets)
    requires forall i, k :: 0 <= i < |sets| && 0 <= k < |lost| ==> Apart(sets[i].path, lost[k])
    ensures SetAll(WithAllParents(doc, lost), sets) == WithAllParents(SetAll(doc, sets), lost)
    decreases |sets|
  {
    if sets != [] {
      ParentsPastSet(doc, sets[0], lost);
      ParentsPastSets(SetPath(doc, sets[0].path, sets[0].value), sets[1..], lost);
    }
  }

  /** What an update's writes leave once every path is removed, where no parent is lost. */
  lemma NothingLost(w: Writes, unset: seq<Path>, doc: Json)
    requires IsFold(w) && AreGiven(unset) && doc.Obj? && w.unset == [] && ParentsKept(w.set', unset)
    ensures IsFold(Unsets(unset, w)) && Left(Unsets(unset, w), doc) == RemoveAll(Left(w, doc), unset)
  {
    var last, lost := Unsets(unset, w), LostBy(unset, w);
    UnsetsKeep(unset, w);
    UnsetsLose(unset, w, [], doc);
    NothingBefore(lost);
    var base := WriteArrays(doc, last.arrays);
    ArraysWritten(last.arrays, doc, "");
    var left := SetAll(base, last.set');
    forall k | 0 <= k < |lost|
      ensures IsRemovedAbove(left, last.unset, lost[k])
      ensures forall i :: 0 <= i < |last.set'| ==> Apart(last.set'[i].path, lost[k])
    {
      LostIsRemoved(unset, w, lost[k]);
      LostIsApart(w, unset, lost[k]);
      var j :| 0 <= j < |unset| && unset[j] == lost[k];
      RemovedAboveLost(w, unset, doc, j);
    }
    ParentsPastSets(base, last.set', lost);
    ParentsRemoved(left, lost, last.unset);
  }

  /** What stays set is apart from each path removed with a path set. */
  lemma LostIsApart(w: Writes, unset: seq<Path>, t: Path)
    requires IsFold(w) && AreGiven(unset) && t in unset && Covers(t, w.set')
    ensures forall i :: 0 <= i < |Unsets(unset, w).set'| ==> Apart(Unsets(unset, w).set'[i].path, t)
  {
    var last := Unsets(unset, w);
    ApartTakes(w.set', t);
    forall i | 0 <= i < |last.set'| ensures Apart(last.set'[i].path, t) {
      var p := last.set'[i].path;
      HasPathHolds(last.set', p);
      UnsetsPaths(unset, w, p);
      assert !(t <= p) && !(p < t);
    }
  }

  /** The first removal on the way of a path removed with a path set has its parents, where none are lost. */
  lemma RemovedAboveLost(w: Writes, unset: seq<Path>, doc: Json, j: nat)
    requires IsFold(w) && AreGiven(unset) && doc.Obj? && ParentsKept(w.set', unset)
    requires j < |unset| && Covers(unset[j], w.set')
    ensures IsFold(Unsets(unset, w))
    ensures IsRemovedAbove(SetAll(WriteArrays(doc, Unsets(unset, w).arrays), Unsets(unset, w).set'),
                           Unsets(unset, w).unset,
                           unset[j])
  {
    var last := Unsets(unset, w);
    UnsetsKeep(unset, w);
    var base := WriteArrays(doc, last.arrays);
    ArraysWritten(last.arrays, doc, "");
    var left := SetAll(base, last.set');
    SetAllStaysObject(base, last.set');
    var i := MinimalBelow(unset, j);
    var t := unset[i];
    CoversAbove(w.set', t, unset[j]);
    ApartTakes(w.set', t);
    UnsetsHold(unset, w, i);
    if |t| > 1 {
      var k :| 0 <= k < |w.set'| && ParentOf(t) < w.set'[k].path && !IsCovered(w.set'[k].path, unset);
      var s := w.set'[k].path;
      HasPathHolds(w.set', s);
      UnsetsPaths(unset, w, s);
      SetHolds(base, last.set', IndexOf(last.set', s));
      HoldsBeside(left, s, t);
    }
    assert Holds(left, t);
    var n :| 0 <= n < |last.unset| && last.unset[n] == t;
  }

  lemma CoversAbove(sets: seq<Assignment>, above: Path, t: Path)
    requires above <= t && Covers(t, sets)
    ensures Covers(above, sets)
  {
    var i :| 0 <= i < |sets| && t <= sets[i].path;
    assert above <= sets[i].path;
  }

  // ----- something lost -----

  lemma PrefixTails(p: Path, q: Path)
    requires p != [] && q != [] && p[0] == q[0]
    ensures p <= q <==> p[1..] <= q[1..]
    ensures |p| == 1 ==> p <= q
  {
    assert p == [p[0]] + p[1..] && q == [q[0]] + q[1..];
  }

  lemma {:induction false} ObjectPastRemoval(doc: Json, p: Path, t: Path)
    requires t != [] && IsObjectAt(doc, p) && !(t <= p)
    ensures IsObjectAt(Remove(doc, t), p)
    decreases |p|
  {
    if p != [] && doc.Obj? && t[0] in doc.fields && t[0] == p[0] {
      PrefixTails(t, p);
      ObjectPastRemoval(doc.fields[p[0]], p[1..], t[1..]);
    }
  }

  lemma {:induction false} ObjectPastRemovals(doc: Json, p: Path, paths: seq<Path>)
    requires AreGiven(paths) && IsObjectAt(doc, p) && forall i :: 0 <= i < |paths| ==> !(paths[i] <= p)
    ensures IsObjectAt(RemoveAll(doc, paths), p)
    decreases |paths|
  {
    if paths != [] {
      ObjectPastRemoval(doc, p, paths[0]);
      ObjectPastRemovals(Remove(doc, paths[0]), p, paths[1..]);
    }
  }

  lemma {:induction false} NonePastRemoval(doc: Json, p: Path, t: Path)
    requires t != [] && Get(doc, p).None?
    ensures Get(Remove(doc, t), p).None?
    decreases |p|
  {
    if doc.Obj? && t[0] in doc.fields && |t| > 1 && p[0] == t[0] {
      NonePastRemoval(doc.fields[p[0]], p[1..], t[1..]);
    }
  }

  lemma {:induction false} NonePastRemovals(doc: Json, p: Path, paths: seq<Path>)
    requires AreGiven(paths) && Get(doc, p).None?
    ensures Get(RemoveAll(doc, paths), p).None?
    decreases |paths|
  {
    if paths != [] {
      NonePastRemoval(doc, p, paths[0]);
      NonePastRemovals(Remove(doc, paths[0]), p, paths[1..]);
    }
  }

  lemma {:induction false} NonePastSet(doc: Json, s: Path, v: Json, p: Path)
    requires Apart(s, p) && Get(doc, p).None?
    ensures Get(SetPath(doc, s, v), p).None?
    decreases |p|
  {
    if doc.Obj? && s[0] == p[0] {
      ApartTails(s, p);
      NoneInside(doc, p);
      NonePastSet(Inner(doc, p[0]), s[1..], v, p[1..]);
    }
  }

  lemma NoneInside(doc: Json, p: Path)
    requires doc.Obj? && |p| > 1 && Get(doc, p).None?
    ensures Get(Inner(doc, p[0]), p[1..]).None?
  {
  }

  lemma {:induction false} NonePastSets(doc: Json, sets: seq<Assignment>, p: Path)
    requires AllGiven(sets) && Get(doc, p).None? && forall i :: 0 <= i < |sets| ==> Apart(sets[i].path, p)
    ensures Get(SetAll(doc, sets), p).None?
    decreases |sets|
  {
    if sets != [] {
      NonePastSet(doc, sets[0].path, sets[0].value, p);
      NonePastSets(SetPath(doc, sets[0].path, sets[0].value), sets[1..], p);
    }
  }

  lemma {:induction false} UnsetsLeaveArrays(paths: seq<Path>, w: Writes)
    requires AreGiven(paths)
    ensures forall a :: a in Unsets(paths, w).arrays ==> a in w.arrays
    decreases |paths|
  {
    if paths != [] {
      DropKeyHolds(w.arrays, paths[0][0]);
      UnsetsLeaveArrays(paths[1..], FoldUnset(w, paths[0]));
    }
  }

  /** The parent of such a path is an object once the operators are applied to an object of no keys. */
  lemma ParentMade(w: Writes, unset: seq<Path>, t: Path)
    requires IsFold(w) && AreGiven(unset) && w.unset == [] && |t| > 1 && IsMinimal(unset, t) && Covers(t, w.set')
    ensures IsObjectAt(RemoveAll(Left(w, EMPTY_OBJECT), unset), ParentOf(t))
  {
    var base := WriteArrays(EMPTY_OBJECT, w.arrays);
    ArraysWritten(w.arrays, EMPTY_OBJECT, "");
    var k :| 0 <= k < |w.set'| && t <= w.set'[k].path;
    SetHolds(base, w.set', k);
    var left := SetAll(base, w.set');
    HoldsBeside(left, w.set'[k].path, t);
    HoldsUnderParent(left, t);
    forall i | 0 <= i < |unset| ensures !(unset[i] <= ParentOf(t)) {
      assert ParentOf(t) < t && !(unset[i] < t);
    }
    ObjectPastRemovals(left, ParentOf(t), unset);
  }

  /** And it is not there at all once the writes folded are. */
  lemma ParentNotMade(w: Writes, unset: seq<Path>, t: Path)
    requires IsFold(w) && AreGiven(unset) && w.unset == [] && |t| > 1 && Covers(t, w.set')
    requires !MadeBeside(w.set', unset, ParentOf(t)) && t in unset
    ensures IsFold(Unsets(unset, w)) && Get(Left(Unsets(unset, w), EMPTY_OBJECT), ParentOf(t)).None?
  {
    var last, p := Unsets(unset, w), ParentOf(t);
    UnsetsKeep(unset, w);
    ApartTakes(w.set', t);
    var k :| 0 <= k < |w.set'| && t <= w.set'[k].path;
    HeadFree(w.set', w.arrays, w.set'[k]);
    FindsNone(w.arrays, p[0]);
    UnsetsLeaveArrays(unset, w);
    FindsNone(last.arrays, p[0]);
    var base := WriteArrays(EMPTY_OBJECT, last.arrays);
    ArraysWritten(last.arrays, EMPTY_OBJECT, p[0]);
    GetThrough(base, [p[0]], p[1..]);
    assert p == [p[0]] + p[1..];
    forall i | 0 <= i < |last.set'| ensures Apart(last.set'[i].path, p) {
      var s := last.set'[i].path;
      HasPathHolds(last.set', s);
      UnsetsPaths(unset, w, s);
      assert w.set'[IndexOf(w.set', s)].path == s;
      assert !(p < s) && !(s < t);
    }
    NonePastSets(base, last.set', p);
    NonePastRemovals(SetAll(base, last.set'), p, last.unset);
  }

  /** The folded removals leave of every object what the removals do exactly where every parent is kept. */
  lemma UnsetsExactly(w: Writes, unset: seq<Path>)
    requires IsFold(w) && AreGiven(unset) && w.unset == []
    ensures IsFold(Unsets(unset, w))
    ensures ParentsKept(w.set', unset) ==>
              forall doc: Json :: doc.Obj? ==> Left(Unsets(unset, w), doc) == RemoveAll(Left(w, doc), unset)
    ensures Left(Unsets(unset, w), EMPTY_OBJECT) == RemoveAll(Left(w, EMPTY_OBJECT), unset)
            ==> ParentsKept(w.set', unset)
  {
    UnsetsKeep(unset, w);
    if ParentsKept(w.set', unset) {
      forall doc: Json | doc.Obj? ensures Left(Unsets(unset, w), doc) == RemoveAll(Left(w, doc), unset) {
        NothingLost(w, unset, doc);
      }
    } else {
      var i :| 0 <= i < |unset| && |unset[i]| > 1 && IsMinimal(unset, unset[i]) && TakesSet(w.set', unset[i])
            && !MadeBeside(w.set', unset, ParentOf(unset[i]));
      ParentMade(w, unset, unset[i]);
      ParentNotMade(w, unset, unset[i]);
    }
  }
}
