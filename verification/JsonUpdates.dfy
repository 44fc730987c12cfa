/** The writes of a JSON update, what they leave of a document, and the SQL they are written as. */
module JsonUpdates {
  import opened Options
  import opened JsonDocuments
  import opened JsonSql
  import opened Sequences

  /** An item to append: always, or, `unique`, where the stored array does not hold it already. */
  datatype Append = Append(item: Json, unique: bool)

  /** What is done to one array: elements equal to any of `pulls` go, and then `appends` are added in order. */
  datatype ArrayWrites = ArrayWrites(pulls: seq<Json>, appends: seq<Append>)

  datatype KeyWrites = KeyWrites(key: string, writes: ArrayWrites)

  datatype Assignment = Assignment(path: Path, value: Json)

  /** What an update writes of a document: its arrays first, then what it sets, and last what it removes. */
  datatype Writes = Writes(set': seq<Assignment>, arrays: seq<KeyWrites>, unset: seq<Path>)

  // ----- what the writes mean -----

  /** `items` with each append, `stored` being what a unique one is looked for in. */
  function AppendAll(items: seq<Json>, appends: seq<Append>, stored: seq<Json>): seq<Json>
    decreases |appends|
  {
    if appends == [] then items
    else
      var added := if appends[0].unique && appends[0].item in stored then [] else [appends[0].item];
      AppendAll(items + added, appends[1..], stored)
  }

  /** What an array's writes leave of the value there: one that is no array stays, and appends make one of none. */
  function AfterWrites(v: Option<Json>, w: ArrayWrites): Option<Json> {
    if v.Some? && v.value.Arr? then
      Some(Arr(AppendAll(Without(v.value.items, w.pulls), w.appends, v.value.items)))
    else if w.appends != [] && IsNullish(v) then Some(Arr(AppendAll([], w.appends, [])))
    else v
  }

  function WriteArray(doc: Json, w: KeyWrites): Json {
    if !doc.Obj? then doc
    else
      var v := AfterWrites(Get(doc, [w.key]), w.writes);
      if v.None? then doc else Obj(doc.fields[w.key := v.value])
  }

  function WriteArrays(doc: Json, arrays: seq<KeyWrites>): Json
    decreases |arrays|
  {
    if arrays == [] then doc else WriteArrays(WriteArray(doc, arrays[0]), arrays[1..])
  }

  predicate SetPathsGiven(sets: seq<Assignment>) {
    forall i :: 0 <= i < |sets| ==> sets[i].path != []
  }

  predicate PathsGiven(w: Writes) {
    SetPathsGiven(w.set') && forall i :: 0 <= i < |w.unset| ==> w.unset[i] != []
  }

  function SetAll(doc: Json, sets: seq<Assignment>): Json
    requires SetPathsGiven(sets)
    decreases |sets|
  {
    if sets == [] then doc else SetAll(SetPath(doc, sets[0].path, sets[0].value), sets[1..])
  }

  function RemoveAll(doc: Json, paths: seq<Path>): Json
    requires forall i :: 0 <= i < |paths| ==> paths[i] != []
    decreases |paths|
  {
    if paths == [] then doc else RemoveAll(Remove(doc, paths[0]), paths[1..])
  }

  predicate WritesKeys(w: Writes) {
    w.set' != [] || exists a :: a in w.arrays && a.writes.appends != []
  }

  /** The document the writes leave, one after another: none of none where no key is put in it. */
  function Updated(w: Writes, stored: Option<Json>): Option<Json>
    requires PathsGiven(w)
  {
    if stored.None? && !WritesKeys(w) then None
    else
      var doc := if stored.None? then EMPTY_OBJECT else stored.value;
      Some(RemoveAll(SetAll(WriteArrays(doc, w.arrays), w.set'), w.unset))
  }

  // ----- the SQL -----

  /** An array of `item`, or of nothing where `unless` holds. */
  function ItemUnless(item: Json, unless: Option<Cond>): Sql {
    match unless
    case None => BoundArray(item)
    case Some(cond) => Case(cond, Constant(EMPTY_ARRAY), BoundArray(item))
  }

  function Appended(f: Flavor, whole: Sql, item: Json, unless: Option<Cond>): Sql {
    match f
    case Mysql => if unless.None? then ArrayAppend(whole, item) else MergePreserve(whole, ItemUnless(item, unless))
    case Sqlite => InsertLast(whole, unless, item)
    case Postgres => Concat(whole, ItemUnless(item, unless))
  }

  function AppendsSql(f: Flavor, whole: Sql, path: Path, appends: seq<Append>): Sql
    decreases |appends|
  {
    if appends == [] then whole
    else
      var a := appends[0];
      AppendsSql(f, Appended(f, whole, a.item, if a.unique then Some(Contains(path, a.item)) else None), path,
                 appends[1..])
  }

  /** The array an array write starts from, without what is pulled. */
  function KeptSql(path: Path, pulls: seq<Json>): Sql {
    if pulls != [] then Coalesce(KeptAt(path, pulls), Constant(EMPTY_ARRAY)) else Extract(path)
  }

  /** What `w` leaves at `path`, NULL standing for a value there that it cannot write to. */
  function ArrayWriteSql(f: Flavor, path: Path, w: ArrayWrites): Sql {
    var kept := KeptSql(path, w.pulls);
    if w.appends == [] then Case(Is(path, IsArray), kept, Missing)
    else
      Case(Either(IsNull(path), Is(path, IsArray)),
           AppendsSql(f, Case(IsNull(path), Constant(EMPTY_ARRAY), kept), path, w.appends), Missing)
  }

  function OrStored(path: Path, v: Sql): Sql {
    Coalesce(v, Extract(path))
  }

  /** The writes of the arrays that append, or of those that only pull. */
  function KeyArgs(f: Flavor, arrays: seq<KeyWrites>, appending: bool): seq<Arg>
    decreases |arrays|
  {
    if arrays == [] then []
    else
      var path := [arrays[0].key];
      var rest := KeyArgs(f, arrays[1..], appending);
      if (arrays[0].writes.appends != []) == appending
      then [Arg(path, OrStored(path, ArrayWriteSql(f, path, arrays[0].writes)))] + rest
      else rest
  }

  /** Each proper prefix of `path` but the empty one, shortest first. */
  function Ancestors(path: Path): seq<Path>
    requires path != []
  {
    seq(|path| - 1, i requires 0 <= i < |path| - 1 => path[..i + 1])
  }

  function AllAncestors(sets: seq<Assignment>): seq<Path>
    requires SetPathsGiven(sets)
    decreases |sets|
  {
    if sets == [] then [] else Ancestors(sets[0].path) + AllAncestors(sets[1..])
  }

  /** Each path once, where it first comes. */
  function Once(seen: set<Path>, paths: seq<Path>): seq<Path>
    decreases |paths|
  {
    if paths == [] then []
    else if paths[0] in seen then Once(seen, paths[1..])
    else [paths[0]] + Once(seen + {paths[0]}, paths[1..])
  }

  function ParentArgs(parents: seq<Path>): seq<Arg> {
    seq(|parents|, i requires 0 <= i < |parents| =>
      Arg(parents[i], OrStored(parents[i], Case(Is(parents[i], IsObject), Missing, Constant(EMPTY_OBJECT)))))
  }

  function SetArgs(sets: seq<Assignment>): seq<Arg> {
    seq(|sets|, i requires 0 <= i < |sets| => Arg(sets[i].path, Bound(sets[i].value)))
  }

  function UnsetArgs(paths: seq<Path>): seq<Arg> {
    seq(|paths|, i requires 0 <= i < |paths| => Arg(paths[i], Missing))
  }

  function TargetSql(w: Writes, notNull: bool): Sql {
    if !WritesKeys(w) || notNull then Current else Coalesce(Current, Constant(EMPTY_OBJECT))
  }

  /** The arrays pulled from, and then those appended to. */
  function ArraysSql(w: Writes, notNull: bool, form: Form): Sql {
    var pulled := Written(form, JsonReplace, TargetSql(w, notNull), KeyArgs(form.flavor, w.arrays, false));
    Written(form, JsonSet, pulled, KeyArgs(form.flavor, w.arrays, true))
  }

  function SetSql(form: Form, arrays: Sql, sets: seq<Assignment>): Sql
    requires SetPathsGiven(sets)
  {
    if sets == [] then arrays
    else Written(form, JsonSet, Written(form, JsonSet, arrays, ParentArgs(Once({}, AllAncestors(sets)))), SetArgs(sets))
  }

  function UnsetSql(form: Form, target: Sql, unset: seq<Path>): Sql {
    if unset == [] then target else Written(form, JsonRemove, target, UnsetArgs(unset))
  }

  /** The expression of an object's update, whose column takes NULL unless `notNull`. */
  function ObjectUpdateSql(w: Writes, notNull: bool, form: Form): Sql
    requires PathsGiven(w)
  {
    UnsetSql(form, SetSql(form, ArraysSql(w, notNull, form), w.set'), w.unset)
  }

  /** The expression of an array column's update. */
  function ArrayUpdateSql(f: Flavor, w: ArrayWrites): Sql {
    OrStored([], ArrayWriteSql(f, [], w))
  }

  // ----- one array -----

  lemma ItemUnlessMeans(item: Json, unless: Option<Cond>, stored: Option<Json>)
    ensures Eval(ItemUnless(item, unless), stored)
         == Some(Arr(if unless.Some? && Met(unless.value, stored) then [] else [item]))
  {
  }

  lemma AppendedMeans(f: Flavor, whole: Sql, path: Path, a: Append, stored: Option<Json>, items: seq<Json>)
    requires Eval(whole, stored) == Some(Arr(items))
    ensures var added := if a.unique && a.item in Elements(Stored(stored, path)) then [] else [a.item];
            Eval(Appended(f, whole, a.item, if a.unique then Some(Contains(path, a.item)) else None), stored)
              == Some(Arr(items + added))
  {
    hide Stored, Elements;
    var unless := if a.unique then Some(Contains(path, a.item)) else None;
    var added := if a.unique && a.item in Elements(Stored(stored, path)) then [] else [a.item];
    ItemUnlessMeans(a.item, unless, stored);
    NothingAfter(items);
    match f
    case Mysql =>
      if !a.unique {
        assert Eval(ArrayAppend(whole, a.item), stored) == Some(Arr(items + added));
      } else {
        assert Eval(MergePreserve(whole, ItemUnless(a.item, unless)), stored) == Some(Arr(items + added));
      }
    case Sqlite => assert Eval(InsertLast(whole, unless, a.item), stored) == Some(Arr(items + added));
    case Postgres => assert Eval(Concat(whole, ItemUnless(a.item, unless)), stored) == Some(Arr(items + added));
  }

  lemma {:induction false} AppendsMean(
    f: Flavor, whole: Sql, path: Path, appends: seq<Append>, stored: Option<Json>, items: seq<Json>)
    requires Eval(whole, stored) == Some(Arr(items))
    ensures Eval(AppendsSql(f, whole, path, appends), stored)
         == Some(Arr(AppendAll(items, appends, Elements(Stored(stored, path)))))
    decreases |appends|
  {
    if appends != [] {
      var a := appends[0];
      var next := Appended(f, whole, a.item, if a.unique then Some(Contains(path, a.item)) else None);
      var added := if a.unique && a.item in Elements(Stored(stored, path)) then [] else [a.item];
      AppendedMeans(f, whole, path, a, stored, items);
      AppendsMean(f, next, path, appends[1..], stored, items + added);
    }
  }

  lemma {:induction false} WithoutNone(items: seq<Json>)
    ensures Without(items, []) == items
  {
    if items != [] {
      WithoutNone(items[1..]);
      assert items == [items[0]] + items[1..];
    }
  }

  lemma KeptMeans(path: Path, pulls: seq<Json>, stored: Option<Json>)
    requires Stored(stored, path).Some? && Stored(stored, path).value.Arr?
    ensures Eval(KeptSql(path, pulls), stored) == Some(Arr(Without(Stored(stored, path).value.items, pulls)))
  {
    var left := Without(Stored(stored, path).value.items, pulls);
    WithoutNone(Stored(stored, path).value.items);
    assert Eval(KeptAt(path, pulls), stored) == if left == [] then None else Some(Arr(left));
  }

  lemma ArrayWriteMeans(f: Flavor, path: Path, w: ArrayWrites, stored: Option<Json>)
    ensures Eval(OrStored(path, ArrayWriteSql(f, path, w)), stored) == AfterWrites(Stored(stored, path), w)
  {
    var v, sql := Stored(stored, path), ArrayWriteSql(f, path, w);
    var start := Case(IsNull(path), Constant(EMPTY_ARRAY), KeptSql(path, w.pulls));
    assert Eval(OrStored(path, sql), stored) == if Eval(sql, stored).Some? then Eval(sql, stored) else v;
    if v.Some? && v.value.Arr? {
      KeptMeans(path, w.pulls, stored);
      AppendsMean(f, start, path, w.appends, stored, Without(v.value.items, w.pulls));
      assert Met(Is(path, IsArray), stored);
    } else if IsNullish(v) {
      AppendsMean(f, start, path, w.appends, stored, []);
    } else {
      assert !Met(IsNull(path), stored) && !Met(Is(path, IsArray), stored);
    }
  }

  /** An array column's update leaves what its writes leave of the array stored, or of none. */
  lemma ArrayUpdateMeans(f: Flavor, w: ArrayWrites, stored: Option<Json>)
    ensures Eval(ArrayUpdateSql(f, w), stored) == AfterWrites(stored, w)
  {
    ArrayWriteMeans(f, [], w, stored);
    assert stored.Some? ==> Get(stored.value, []) == stored;
  }

  // ----- the arrays of an object -----

  function Find(arrays: seq<KeyWrites>, key: string): Option<ArrayWrites> {
    if arrays == [] then None
    else if arrays[0].key == key then Some(arrays[0].writes)
    else Find(arrays[1..], key)
  }

  function LeftBy(w: Option<ArrayWrites>, v: Option<Json>): Option<Json> {
    if w.Some? then AfterWrites(v, w.value) else v
  }

  /** The writes of `arrays` that append, or those that only pull. */
  function Those(arrays: seq<KeyWrites>, appending: bool): seq<KeyWrites>
    decreases |arrays|
  {
    if arrays == [] then []
    else if (arrays[0].writes.appends != []) == appending then [arrays[0]] + Those(arrays[1..], appending)
    else Those(arrays[1..], appending)
  }

  predicate DistinctKeys(arrays: seq<KeyWrites>) {
    forall i, j :: 0 <= i < j < |arrays| ==> arrays[i].key != arrays[j].key
  }

  lemma {:induction false} FindsNone(arrays: seq<KeyWrites>, key: string)
    ensures Find(arrays, key).None? <==> forall a :: a in arrays ==> a.key != key
  {
    if arrays != [] {
      FindsNone(arrays[1..], key);
      assert arrays == [arrays[0]] + arrays[1..];
    }
  }

  lemma {:induction false} ThoseAreSome(arrays: seq<KeyWrites>, appending: bool)
    ensures forall a :: a in Those(arrays, appending) ==> a in arrays && ((a.writes.appends != []) == appending)
  {
    if arrays != [] {
      ThoseAreSome(arrays[1..], appending);
    }
  }

  lemma HeadIsDistinct(arrays: seq<KeyWrites>)
    requires arrays != [] && DistinctKeys(arrays)
    ensures Find(arrays[1..], arrays[0].key).None? && DistinctKeys(arrays[1..])
  {
    FindsNone(arrays[1..], arrays[0].key);
  }

  /** A key's writes are among those that append or those that only pull, and not both. */
  lemma {:induction false} FindAmong(arrays: seq<KeyWrites>, key: string, v: Option<Json>)
    requires DistinctKeys(arrays)
    ensures LeftBy(Find(Those(arrays, true), key), LeftBy(Find(Those(arrays, false), key), v))
            == LeftBy(Find(arrays, key), v)
    ensures Find(Those(arrays, true), key).Some? ==> Find(Those(arrays, false), key).None?
  {
    if arrays != [] {
      HeadIsDistinct(arrays);
      if arrays[0].key == key {
        ThoseLack(arrays[1..], true, key);
        ThoseLack(arrays[1..], false, key);
      } else {
        FindAmong(arrays[1..], key, v);
      }
    }
  }

  lemma ThoseLack(arrays: seq<KeyWrites>, appending: bool, key: string)
    requires Find(arrays, key).None?
    ensures Find(Those(arrays, appending), key).None?
  {
    ThoseAreSome(arrays, appending);
    FindsNone(arrays, key);
    FindsNone(Those(arrays, appending), key);
  }

  lemma {:induction false} ThoseDistinct(arrays: seq<KeyWrites>, appending: bool)
    requires DistinctKeys(arrays)
    ensures DistinctKeys(Those(arrays, appending))
  {
    if arrays != [] {
      ThoseDistinct(arrays[1..], appending);
      ThoseAreSome(arrays[1..], appending);
      var rest := Those(arrays[1..], appending);
      forall j | 0 <= j < |rest| ensures rest[j].key != arrays[0].key {
        assert rest[j] in rest;
        HeadIsDistinct(arrays);
        FindsNone(arrays[1..], arrays[0].key);
      }
    }
  }

  lemma {:induction false} KeyArgsOfThose(f: Flavor, arrays: seq<KeyWrites>, appending: bool)
    ensures KeyArgs(f, arrays, appending) == KeyArgs(f, Those(arrays, appending), appending)
  {
    if arrays != [] {
      KeyArgsOfThose(f, arrays[1..], appending);
      var rest := Those(arrays[1..], appending);
      if (arrays[0].writes.appends != []) == appending {
        assert Those(arrays, appending)[0] == arrays[0] && Those(arrays, appending)[1..] == rest;
      }
    }
  }

  lemma GetKey(doc: Json, key: string)
    requires doc.Obj?
    ensures Get(doc, [key]) == if key in doc.fields then Some(doc.fields[key]) else None
  {
  }

  lemma FirstKeyArg(f: Flavor, arrays: seq<KeyWrites>, appending: bool, doc: Json, stored: Option<Json>)
    requires arrays != [] && (arrays[0].writes.appends != []) == appending
    ensures var fn, path := if appending then JsonSet else JsonReplace, [arrays[0].key];
            var v := Eval(OrStored(path, ArrayWriteSql(f, path, arrays[0].writes)), stored);
            Applied(fn, doc, KeyArgs(f, arrays, appending), stored)
              == Applied(fn, Step(fn, doc, path, v), KeyArgs(f, arrays[1..], appending), stored)
  {
    var path := [arrays[0].key];
    HeadOf(Arg(path, OrStored(path, ArrayWriteSql(f, path, arrays[0].writes))), KeyArgs(f, arrays[1..], appending));
  }

  /** A key written as its array's writes leave it, and no other. */
  lemma KeyStep(fn: Fn, doc: Json, a: KeyWrites, v: Option<Json>)
    requires doc.Obj? && v == AfterWrites(Get(doc, [a.key]), a.writes)
    requires fn == if a.writes.appends != [] then JsonSet else JsonReplace
    ensures var next := Step(fn, doc, [a.key], v);
            && next.Obj?
            && forall k :: Get(next, [k]) == if k == a.key then LeftBy(Some(a.writes), Get(doc, [k])) else Get(doc, [k])
  {
    var next := Step(fn, doc, [a.key], v);
    forall k ensures next.Obj?
      ensures Get(next, [k]) == if k == a.key then LeftBy(Some(a.writes), Get(doc, [k])) else Get(doc, [k])
    {
      GetKey(doc, a.key);
      GetKey(doc, k);
      GetKey(next, k);
    }
  }

  /** The writes of one kind, each reading the column as stored, leave each key as its own write leaves it. */
  lemma {:induction false} KeysWritten(
    f: Flavor, arrays: seq<KeyWrites>, appending: bool, doc: Json, stored: Option<Json>, key: string)
    requires doc.Obj? && DistinctKeys(arrays)
    requires forall a :: a in arrays ==> (a.writes.appends != []) == appending
    requires forall a :: a in arrays ==> Get(doc, [a.key]) == Stored(stored, [a.key])
    ensures var after := Applied(if appending then JsonSet else JsonReplace, doc, KeyArgs(f, arrays, appending),
                                 stored);
            after.Obj? && Get(after, [key]) == LeftBy(Find(arrays, key), Get(doc, [key]))
    decreases |arrays|
  {
    if arrays != [] {
      var a := arrays[0];
      assert a in arrays && forall x :: x in arrays[1..] ==> x in arrays;
      var fn := if appending then JsonSet else JsonReplace;
      var v := AfterWrites(Get(doc, [a.key]), a.writes);
      ArrayWriteMeans(f, [a.key], a.writes, stored);
      var next := Step(fn, doc, [a.key], v);
      FirstKeyArg(f, arrays, appending, doc, stored);
      HeadIsDistinct(arrays);
      FindsNone(arrays[1..], a.key);
      KeyStep(fn, doc, a, v);
      KeysWritten(f, arrays[1..], appending, next, stored, key);
    }
  }

  lemma {:induction false} ArraysWritten(arrays: seq<KeyWrites>, doc: Json, key: string)
    requires doc.Obj? && DistinctKeys(arrays)
    ensures var after := WriteArrays(doc, arrays);
            after.Obj? && Get(after, [key]) == LeftBy(Find(arrays, key), Get(doc, [key]))
    decreases |arrays|
  {
    if arrays != [] {
      HeadIsDistinct(arrays);
      ArraysWritten(arrays[1..], WriteArray(doc, arrays[0]), key);
    }
  }

  /** Writes leave every value but an array or a null alone, and without an append make no key. */
  lemma ArraysLeaveOthers(arrays: seq<KeyWrites>, doc: Json, key: string)
    requires doc.Obj? && DistinctKeys(arrays)
    ensures var v, left := Get(doc, [key]), Get(WriteArrays(doc, arrays), [key]);
            && (!IsNullish(v) && !v.value.Arr? ==> left == v)
            && ((forall a :: a in arrays && a.key == key ==> a.writes.appends == []) && IsNullish(v) ==> left == v)
  {
    ArraysWritten(arrays, doc, key);
    FindHolds(arrays, key);
  }

  lemma {:induction false} FindHolds(arrays: seq<KeyWrites>, key: string)
    ensures Find(arrays, key).Some? ==> KeyWrites(key, Find(arrays, key).value) in arrays
  {
    if arrays != [] && arrays[0].key != key {
      FindHolds(arrays[1..], key);
    }
  }

  lemma SameKeysSameObject(a: Json, b: Json)
    requires a.Obj? && b.Obj? && forall key :: Get(a, [key]) == Get(b, [key])
    ensures a == b
  {
    forall key ensures key in a.fields <==> key in b.fields
      ensures key in a.fields ==> a.fields[key] == b.fields[key]
    {
      assert Get(a, [key]) == Get(b, [key]);
      GetKey(a, key);
      GetKey(b, key);
    }
    assert a.fields == b.fields;
  }

  function DocumentOf(stored: Option<Json>): Json {
    if stored.None? then EMPTY_OBJECT else stored.value
  }

  /** Pulls alone, and then the writes that append, leave what each key's writes leave in the order they came. */
  lemma ArraysMean(f: Flavor, arrays: seq<KeyWrites>, stored: Option<Json>)
    requires DocumentOf(stored).Obj? && DistinctKeys(arrays)
    ensures var doc := DocumentOf(stored);
            Applied(JsonSet, Applied(JsonReplace, doc, KeyArgs(f, arrays, false), stored), KeyArgs(f, arrays, true),
                    stored)
              == WriteArrays(doc, arrays)
    ensures WriteArrays(DocumentOf(stored), arrays).Obj?
  {
    var doc := DocumentOf(stored);
    var pulls, appends := Those(arrays, false), Those(arrays, true);
    KeyArgsOfThose(f, arrays, false);
    KeyArgsOfThose(f, arrays, true);
    ThoseAreSome(arrays, false);
    ThoseAreSome(arrays, true);
    ThoseDistinct(arrays, false);
    ThoseDistinct(arrays, true);
    forall key ensures Get(doc, [key]) == Stored(stored, [key]) {
      GetKey(doc, key);
    }
    var pulled := Applied(JsonReplace, doc, KeyArgs(f, pulls, false), stored);
    forall key ensures pulled.Obj? && Get(pulled, [key]) == LeftBy(Find(pulls, key), Get(doc, [key])) {
      KeysWritten(f, pulls, false, doc, stored, key);
    }
    forall a | a in appends ensures Get(pulled, [a.key]) == Stored(stored, [a.key]) {
      FindAmong(arrays, a.key, None);
      FindsNone(appends, a.key);
    }
    var after := Applied(JsonSet, pulled, KeyArgs(f, appends, true), stored);
    forall key
      ensures after.Obj? && WriteArrays(doc, arrays).Obj? && Get(after, [key]) == Get(WriteArrays(doc, arrays), [key])
    {
      KeysWritten(f, appends, true, pulled, stored, key);
      FindAmong(arrays, key, Get(doc, [key]));
      ArraysWritten(arrays, doc, key);
    }
    KeysWritten(f, appends, true, pulled, stored, "");
    ArraysWritten(arrays, doc, "");
    SameKeysSameObject(after, WriteArrays(doc, arrays));
  }
}
