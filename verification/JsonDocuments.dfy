/** JSON documents, and what is read and written at a path of one. */
module JsonDocuments {
  import opened Options

  /** A scalar is known by its JSON text; an object's keys have no order. */
  datatype Json =
    | Null
    | Scalar(text: string)
    | Arr(items: seq<Json>)
    | Obj(fields: map<string, Json>)

  /** The keys a dotted path leads through. */
  type Path = seq<string>

  const EMPTY_OBJECT := Obj(map[])
  const EMPTY_ARRAY := Arr([])

  function Get(doc: Json, path: Path): Option<Json>
    decreases |path|
  {
    if path == [] then Some(doc)
    else if doc.Obj? && path[0] in doc.fields then Get(doc.fields[path[0]], path[1..])
    else None
  }

  /** `JSON_SET` of one path: nothing is written where the path's parent is no object. */
  function Put(doc: Json, path: Path, v: Json): Json
    requires path != []
    decreases |path|
  {
    if !doc.Obj? then doc
    else if |path| == 1 then Obj(doc.fields[path[0] := v])
    else if path[0] !in doc.fields then doc
    else Obj(doc.fields[path[0] := Put(doc.fields[path[0]], path[1..], v)])
  }

  /** `JSON_REPLACE` of one path: only a value already there is written over. */
  function Replace(doc: Json, path: Path, v: Json): Json
    requires path != []
  {
    if Get(doc, path).Some? then Put(doc, path, v) else doc
  }

  /** `JSON_REMOVE` of one path, and a value without what its keys lead to. */
  function Remove(doc: Json, path: Path): Json
    requires path != []
    decreases |path|
  {
    if !doc.Obj? || path[0] !in doc.fields then doc
    else if |path| == 1 then Obj(doc.fields - {path[0]})
    else Obj(doc.fields[path[0] := Remove(doc.fields[path[0]], path[1..])])
  }

  /** The object `doc` is, or holds at `key`, and one with no keys where it is none. */
  function Inner(doc: Json, key: string): Json
    requires doc.Obj?
  {
    if key in doc.fields && doc.fields[key].Obj? then doc.fields[key] else EMPTY_OBJECT
  }

  /** `doc` with `v` at `path`, every parent made an object that is none. */
  function SetPath(doc: Json, path: Path, v: Json): Json
    requires path != []
    decreases |path|
  {
    if !doc.Obj? then doc
    else Obj(doc.fields[path[0] := if |path| == 1 then v else SetPath(Inner(doc, path[0]), path[1..], v)])
  }

  /** `doc` with every parent of `path` an object. */
  function WithParents(doc: Json, path: Path): Json
    requires path != []
    decreases |path|
  {
    if !doc.Obj? || |path| == 1 then doc
    else Obj(doc.fields[path[0] := WithParents(Inner(doc, path[0]), path[1..])])
  }

  /** `path` has an object to be written in. */
  predicate Holds(doc: Json, path: Path)
    requires path != []
    decreases |path|
  {
    doc.Obj? && (|path| == 1 || (path[0] in doc.fields && Holds(doc.fields[path[0]], path[1..])))
  }

  predicate IsObjectAt(doc: Json, path: Path) {
    Get(doc, path).Some? && Get(doc, path).value.Obj?
  }

  /** Neither path leads through the other. */
  predicate Apart(p: Path, q: Path) {
    !(p <= q) && !(q <= p)
  }

  // ----- one write and one read -----

  lemma ApartTails(p: Path, q: Path)
    requires Apart(p, q) && p[0] == q[0]
    ensures |p| > 1 && |q| > 1 && Apart(p[1..], q[1..])
  {
    assert p == [p[0]] + p[1..] && q == [q[0]] + q[1..];
  }

  lemma {:induction false} PutApart(doc: Json, p: Path, v: Json, q: Path)
    requires Apart(p, q)
    ensures Get(Put(doc, p, v), q) == Get(doc, q)
    decreases |p|
  {
    if doc.Obj? && p[0] == q[0] {
      ApartTails(p, q);
      if p[0] in doc.fields {
        PutApart(doc.fields[p[0]], p[1..], v, q[1..]);
      }
    }
  }

  lemma {:induction false} PutBelow(doc: Json, p: Path, v: Json, t: Path)
    requires p != [] && Holds(doc, p)
    ensures Get(Put(doc, p, v), p + t) == Get(v, t)
    decreases |p|
  {
    assert (p + t)[1..] == p[1..] + t;
    if |p| == 1 {
      assert p[1..] + t == t;
    } else {
      PutBelow(doc.fields[p[0]], p[1..], v, t);
    }
  }

  lemma {:induction false} PutSame(doc: Json, p: Path, v: Json)
    requires p != [] && Get(doc, p) == Some(v)
    ensures Put(doc, p, v) == doc
    decreases |p|
  {
    if |p| == 1 {
      assert p[1..] == [];
      assert doc.fields[p[0] := v] == doc.fields;
    } else {
      PutSame(doc.fields[p[0]], p[1..], v);
      assert doc.fields[p[0] := doc.fields[p[0]]] == doc.fields;
    }
  }

  lemma {:induction false} GetThrough(doc: Json, p: Path, t: Path)
    ensures Get(doc, p + t) == if Get(doc, p).None? then None else Get(Get(doc, p).value, t)
    decreases |p|
  {
    if p == [] {
      assert p + t == t;
    } else {
      assert (p + t)[1..] == p[1..] + t;
      if doc.Obj? && p[0] in doc.fields {
        GetThrough(doc.fields[p[0]], p[1..], t);
      }
    }
  }

  /** A path has somewhere to be written just where its parent is an object. */
  lemma {:induction false} HoldsUnderParent(doc: Json, p: Path)
    requires p != []
    ensures Holds(doc, p) <==> IsObjectAt(doc, p[..|p| - 1])
    decreases |p|
  {
    if |p| == 1 {
      assert p[..0] == [];
    } else {
      var parent := p[..|p| - 1];
      assert parent[1..] == p[1..][..|p[1..]| - 1];
      if doc.Obj? && p[0] in doc.fields {
        HoldsUnderParent(doc.fields[p[0]], p[1..]);
      }
    }
  }

  // ----- parents -----

  lemma {:induction false} ParentsHold(doc: Json, p: Path)
    requires p != [] && doc.Obj?
    ensures Holds(WithParents(doc, p), p)
    decreases |p|
  {
    if |p| > 1 {
      ParentsHold(Inner(doc, p[0]), p[1..]);
    }
  }

  lemma {:induction false} ParentsStillHold(doc: Json, p: Path, q: Path)
    requires p != [] && q != [] && Holds(doc, p)
    ensures Holds(WithParents(doc, q), p)
    decreases |p|
  {
    if |q| > 1 && |p| > 1 && p[0] == q[0] {
      if |p| > 2 {
        assert doc.fields[p[0]].Obj?;
      }
      ParentsStillHold(doc.fields[p[0]], p[1..], q[1..]);
    }
  }

  lemma {:induction false} SetStillHolds(doc: Json, p: Path, v: Json, q: Path)
    requires Apart(p, q) && Holds(doc, q)
    ensures Holds(SetPath(doc, p, v), q)
    decreases |p|
  {
    if p[0] == q[0] {
      ApartTails(p, q);
      SetStillHolds(doc.fields[p[0]], p[1..], v, q[1..]);
    }
  }

  /** Where a path has somewhere to be written, writing it makes no parent. */
  lemma {:induction false} PutIsSet(doc: Json, p: Path, v: Json)
    requires p != [] && Holds(doc, p)
    ensures Put(doc, p, v) == SetPath(doc, p, v)
    decreases |p|
  {
    if |p| > 1 {
      PutIsSet(doc.fields[p[0]], p[1..], v);
    }
  }

  lemma {:induction false} SetMakesItsParents(doc: Json, p: Path, v: Json)
    requires p != []
    ensures SetPath(WithParents(doc, p), p, v) == SetPath(doc, p, v)
    decreases |p|
  {
    if doc.Obj? && |p| > 1 {
      var inner := Inner(doc, p[0]);
      SetMakesItsParents(inner, p[1..], v);
      assert Inner(WithParents(doc, p), p[0]) == WithParents(inner, p[1..]);
      assert doc.fields[p[0] := WithParents(inner, p[1..])][p[0] := SetPath(inner, p[1..], v)]
          == doc.fields[p[0] := SetPath(inner, p[1..], v)];
    }
  }

  /** Making one path's parents commutes with setting another apart from it. */
  lemma {:induction false} ParentsCommute(doc: Json, p: Path, v: Json, q: Path)
    requires Apart(p, q)
    ensures SetPath(WithParents(doc, q), p, v) == WithParents(SetPath(doc, p, v), q)
    decreases |p|
  {
    if doc.Obj? && |q| > 1 {
      if p[0] == q[0] {
        ApartTails(p, q);
        var inner := Inner(doc, p[0]);
        ParentsCommute(inner, p[1..], v, q[1..]);
        assert Inner(WithParents(doc, q), p[0]) == WithParents(inner, q[1..]);
        assert Inner(SetPath(doc, p, v), p[0]) == SetPath(inner, p[1..], v);
        var both := SetPath(WithParents(inner, q[1..]), p[1..], v);
        assert doc.fields[p[0] := WithParents(inner, q[1..])][p[0] := both]
            == doc.fields[p[0] := SetPath(inner, p[1..], v)][p[0] := both];
      } else {
        var parents := WithParents(Inner(doc, q[0]), q[1..]);
        var set' := if |p| == 1 then v else SetPath(Inner(doc, p[0]), p[1..], v);
        TwoKeys(doc.fields, q[0], parents, p[0], set');
      }
    }
  }

  // ----- parents one at a time -----

  /** An object at `path`: the one there, or one with no keys in place of anything else. */
  function WithObjectAt(doc: Json, path: Path): Json
    requires path != []
  {
    if IsObjectAt(doc, path) then doc else Put(doc, path, EMPTY_OBJECT)
  }

  /** Every parent but the last is made first, and then the last. */
  lemma {:induction false} ParentsInTurn(doc: Json, p: Path, last: string)
    requires p != [] && doc.Obj?
    ensures WithParents(doc, p + [last]) == WithObjectAt(WithParents(doc, p), p)
    decreases |p|
  {
    var key, inner := p[0], Inner(doc, p[0]);
    assert (p + [last])[1..] == p[1..] + [last];
    if |p| == 1 {
      assert p[1..] == [] && p[1..] + [last] == [last];
      assert WithParents(doc, p + [last]) == Obj(doc.fields[key := inner]);
      assert key in doc.fields ==> Get(doc.fields[key], p[1..]) == Some(doc.fields[key]);
      if IsObjectAt(doc, p) {
        assert doc.fields[key := doc.fields[key]] == doc.fields;
      }
    } else {
      ParentsInTurn(inner, p[1..], last);
      var made := WithParents(inner, p[1..]);
      assert WithParents(doc, p) == Obj(doc.fields[key := made]);
      assert IsObjectAt(WithParents(doc, p), p) <==> IsObjectAt(made, p[1..]);
      assert doc.fields[key := made][key := WithObjectAt(made, p[1..])]
             == doc.fields[key := WithObjectAt(made, p[1..])];
    }
  }

  lemma ObjectAbove(doc: Json, b: Path, a: Path)
    requires b <= a && IsObjectAt(doc, a)
    ensures IsObjectAt(doc, b)
  {
    var t := a[|b|..];
    assert a == b + t;
    GetThrough(doc, b, t);
  }

  /** An object made somewhere leaves those there are. */
  lemma ObjectsStay(doc: Json, a: Path, b: Path)
    requires b != [] && IsObjectAt(doc, a)
    ensures IsObjectAt(WithObjectAt(doc, b), a)
  {
    if b <= a {
      ObjectAbove(doc, b, a);
    } else if a <= b {
      PutUnder(doc, a, b, EMPTY_OBJECT);
    } else {
      PutApart(doc, b, EMPTY_OBJECT, a);
    }
  }

  lemma {:induction false} PutUnder(doc: Json, a: Path, b: Path, v: Json)
    requires a <= b && a != b && IsObjectAt(doc, a)
    ensures IsObjectAt(Put(doc, b, v), a)
    decreases |a|
  {
    if a != [] {
      assert b[0] == a[0] && b[1..][..|a| - 1] == a[1..];
      PutUnder(doc.fields[a[0]], a[1..], b[1..], v);
    }
  }

  // ----- two writes -----

  lemma {:induction false} SetsCommute(doc: Json, p: Path, x: Json, q: Path, y: Json)
    requires Apart(p, q)
    ensures SetPath(SetPath(doc, p, x), q, y) == SetPath(SetPath(doc, q, y), p, x)
    decreases |p|
  {
    if doc.Obj? {
      if p[0] == q[0] {
        ApartTails(p, q);
        SetsCommute(Inner(doc, p[0]), p[1..], x, q[1..], y);
        SetsUnder(doc, p, x, q, y);
        SetsUnder(doc, q, y, p, x);
      } else {
        SetsElsewhere(doc, p, x, q, y);
      }
    }
  }

  lemma SetsUnder(doc: Json, p: Path, x: Json, q: Path, y: Json)
    requires doc.Obj? && |p| > 1 && |q| > 1 && p[0] == q[0]
    ensures SetPath(SetPath(doc, p, x), q, y)
         == Obj(doc.fields[p[0] := SetPath(SetPath(Inner(doc, p[0]), p[1..], x), q[1..], y)])
  {
    var key, l := p[0], SetPath(Inner(doc, p[0]), p[1..], x);
    assert Inner(SetPath(doc, p, x), key) == l;
    assert doc.fields[key := l][key := SetPath(l, q[1..], y)] == doc.fields[key := SetPath(l, q[1..], y)];
  }

  lemma SetsElsewhere(doc: Json, p: Path, x: Json, q: Path, y: Json)
    requires p != [] && q != [] && p[0] != q[0] && doc.Obj?
    ensures SetPath(SetPath(doc, p, x), q, y) == SetPath(SetPath(doc, q, y), p, x)
  {
    var l := if |p| == 1 then x else SetPath(Inner(doc, p[0]), p[1..], x);
    var r := if |q| == 1 then y else SetPath(Inner(doc, q[0]), q[1..], y);
    TwoKeys(doc.fields, p[0], l, q[0], r);
  }

  lemma TwoKeys(fields: map<string, Json>, a: string, x: Json, b: string, y: Json)
    requires a != b
    ensures fields[a := x][b := y] == fields[b := y][a := x]
  {
  }

  /** What is set at a path takes the place of whatever was set at it or inside it. */
  lemma {:induction false} SetOver(doc: Json, q: Path, x: Json, p: Path, v: Json)
    requires p != [] && p <= q
    ensures SetPath(SetPath(doc, q, x), p, v) == SetPath(doc, p, v)
    decreases |p|
  {
    if doc.Obj? {
      var key, inner := p[0], Inner(doc, p[0]);
      if |p| == 1 {
        var l := if |q| == 1 then x else SetPath(inner, q[1..], x);
        assert doc.fields[key := l][key := v] == doc.fields[key := v];
      } else {
        assert p[1..] <= q[1..];
        SetOver(inner, q[1..], x, p[1..], v);
        var l := SetPath(inner, q[1..], x);
        assert Inner(SetPath(doc, q, x), key) == l;
        assert doc.fields[key := l][key := SetPath(l, p[1..], v)] == doc.fields[key := SetPath(inner, p[1..], v)];
      }
    }
  }

  /** `item` set at `path` of `value`, or of an object of no keys in place of anything but an object. */
  function WithPath(value: Json, path: Path, item: Json): Json
    requires path != []
  {
    SetPath(if value.Obj? then value else EMPTY_OBJECT, path, item)
  }

  /** A path set inside a value set is worked out in that value. */
  lemma {:induction false} SetInside(doc: Json, o: Path, value: Json, rest: Path, item: Json)
    requires o != [] && rest != []
    ensures SetPath(SetPath(doc, o, value), o + rest, item) == SetPath(doc, o, WithPath(value, rest, item))
    decreases |o|
  {
    if doc.Obj? {
      assert (o + rest)[1..] == o[1..] + rest;
      if |o| == 1 {
        assert o[1..] + rest == rest;
        SetInsideKey(doc, o[0], value, o + rest, item);
      } else {
        SetInside(Inner(doc, o[0]), o[1..], value, rest, item);
        SetsUnder(doc, o, value, o + rest, item);
      }
    }
  }

  lemma SetInsideKey(doc: Json, key: string, value: Json, path: Path, item: Json)
    requires doc.Obj? && |path| > 1 && path[0] == key
    ensures SetPath(SetPath(doc, [key], value), path, item) == SetPath(doc, [key], WithPath(value, path[1..], item))
  {
    var was := if value.Obj? then value else EMPTY_OBJECT;
    assert Inner(SetPath(doc, [key], value), key) == was;
    assert doc.fields[key := value][key := SetPath(was, path[1..], item)]
           == doc.fields[key := SetPath(was, path[1..], item)];
  }

  lemma {:induction false} RemovesCommute(doc: Json, p: Path, q: Path)
    requires p != [] && q != []
    ensures Remove(Remove(doc, p), q) == Remove(Remove(doc, q), p)
    decreases |p|
  {
    if doc.Obj? && p[0] in doc.fields && q[0] in doc.fields {
      if p[0] == q[0] {
        var key, child := p[0], doc.fields[p[0]];
        if |p| > 1 && |q| > 1 {
          RemovesCommute(child, p[1..], q[1..]);
          var l, r := Remove(child, p[1..]), Remove(child, q[1..]);
          assert doc.fields[key := l][key := Remove(l, q[1..])] == doc.fields[key := r][key := Remove(r, p[1..])];
        } else if |p| > 1 {
          assert doc.fields[key := Remove(child, p[1..])] - {key} == doc.fields - {key};
        } else if |q| > 1 {
          assert doc.fields[key := Remove(child, q[1..])] - {key} == doc.fields - {key};
        }
      } else {
        RemovesOfOthers(doc, p, q);
      }
    }
  }

  lemma RemovesOfOthers(doc: Json, p: Path, q: Path)
    requires p != [] && q != [] && p[0] != q[0] && doc.Obj? && p[0] in doc.fields && q[0] in doc.fields
    ensures Remove(Remove(doc, p), q) == Remove(Remove(doc, q), p)
  {
    var f, a, b := doc.fields, p[0], q[0];
    if |p| == 1 && |q| == 1 {
      assert f - {a} - {b} == f - {b} - {a};
    } else if |p| == 1 {
      var r := Remove(f[b], q[1..]);
      assert (f - {a})[b := r] == f[b := r] - {a};
    } else if |q| == 1 {
      var l := Remove(f[a], p[1..]);
      assert f[a := l] - {b} == (f - {b})[a := l];
    } else {
      var l, r := Remove(f[a], p[1..]), Remove(f[b], q[1..]);
      assert f[a := l][b := r] == f[b := r][a := l];
    }
  }

  lemma {:induction false} RemoveTwice(doc: Json, p: Path)
    requires p != []
    ensures Remove(Remove(doc, p), p) == Remove(doc, p)
    decreases |p|
  {
    if doc.Obj? && p[0] in doc.fields && |p| > 1 {
      var key, child := p[0], doc.fields[p[0]];
      RemoveTwice(child, p[1..]);
      assert doc.fields[key := Remove(child, p[1..])][key := Remove(child, p[1..])]
             == doc.fields[key := Remove(child, p[1..])];
    }
  }

  /** A path removed commutes with one set apart from it. */
  lemma {:induction false} RemoveApart(doc: Json, q: Path, x: Json, p: Path)
    requires Apart(p, q)
    ensures Remove(SetPath(doc, q, x), p) == SetPath(Remove(doc, p), q, x)
    decreases |p|
  {
    if doc.Obj? {
      if p[0] == q[0] {
        ApartTails(p, q);
        var key, inner := p[0], Inner(doc, p[0]);
        var l := SetPath(inner, q[1..], x);
        RemoveApart(inner, q[1..], x, p[1..]);
        assert SetPath(doc, q, x) == Obj(doc.fields[key := l]);
        assert doc.fields[key := l][key := Remove(l, p[1..])] == doc.fields[key := Remove(l, p[1..])];
        if key in doc.fields {
          var r := Remove(doc.fields[key], p[1..]);
          assert Inner(Obj(doc.fields[key := r]), key) == Remove(inner, p[1..]);
          assert doc.fields[key := r][key := Remove(l, p[1..])] == doc.fields[key := Remove(l, p[1..])];
        }
      } else {
        RemoveElsewhere(doc, q, x, p);
      }
    }
  }

  lemma RemoveElsewhere(doc: Json, q: Path, x: Json, p: Path)
    requires p != [] && q != [] && p[0] != q[0] && doc.Obj?
    ensures Remove(SetPath(doc, q, x), p) == SetPath(Remove(doc, p), q, x)
  {
    var f, a, b := doc.fields, p[0], q[0];
    var l := if |q| == 1 then x else SetPath(Inner(doc, b), q[1..], x);
    if a in f {
      if |p| == 1 {
        assert f[b := l] - {a} == (f - {a})[b := l];
      } else {
        var r := Remove(f[a], p[1..]);
        assert f[b := l][a := r] == f[a := r][b := l];
      }
    }
  }

  /** A path removed inside a value set is removed from that value. */
  lemma {:induction false} RemoveInside(doc: Json, o: Path, value: Json, rest: Path)
    requires o != [] && rest != []
    ensures Remove(SetPath(doc, o, value), o + rest) == SetPath(doc, o, Remove(value, rest))
    decreases |o|
  {
    if doc.Obj? {
      var key, inner := o[0], Inner(doc, o[0]);
      assert (o + rest)[1..] == o[1..] + rest;
      if |o| == 1 {
        assert o[1..] + rest == rest;
        assert doc.fields[key := value][key := Remove(value, rest)] == doc.fields[key := Remove(value, rest)];
      } else {
        RemoveInside(inner, o[1..], value, rest);
        var l := SetPath(inner, o[1..], value);
        assert doc.fields[key := l][key := Remove(l, o[1..] + rest)] == doc.fields[key := Remove(l, o[1..] + rest)];
      }
    }
  }
}
