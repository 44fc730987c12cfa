/** The edits of a source read off it position by position, with no order of their own: what a rendering is to equal. */
module EditSplice {
  import opened Options
  import opened Edits
  import opened Sequences

  // ----- the reference -----

  /** The insertions at `at`, the last asked for first. */
  function LastFirst(edits: seq<Edit>, at: nat): (r: seq<Edit>)
    ensures forall e :: e in r ==> e in edits
  {
    if edits == [] then []
    else LastFirst(edits[1..], at) + if InsertsAt(edits[0], at) then [edits[0]] else []
  }

  predicate InsertsAt(e: Edit, at: nat) {
    e.start == at && IsInsertion(e)
  }

  lemma {:induction false} LastFirstHolds(edits: seq<Edit>, at: nat)
    ensures forall e :: e in LastFirst(edits, at) <==> e in edits && InsertsAt(e, at)
  {
    if edits != [] {
      LastFirstHolds(edits[1..], at);
      assert edits == [edits[0]] + edits[1..];
    }
  }

  predicate ReplacesAt(e: Edit, at: nat) {
    e.start == at && !IsInsertion(e)
  }

  /** The longest replacement at `at`, the first asked for of those as long. */
  function Outermost(edits: seq<Edit>, at: nat): (r: Option<Edit>)
    ensures r.Some? ==> r.value in edits && ReplacesAt(r.value, at)
  {
    if edits == [] then None
    else
      var rest := Outermost(edits[1..], at);
      if ReplacesAt(edits[0], at) && (rest.None? || edits[0].end >= rest.value.end) then Some(edits[0]) else rest
  }

  /** It is one of those there, and none there is longer; there is none where none replaces anything. */
  lemma {:induction false} OutermostIsLongest(edits: seq<Edit>, at: nat)
    ensures match Outermost(edits, at)
            case None => forall e :: e in edits ==> !ReplacesAt(e, at)
            case Some(o) => forall e :: e in edits && ReplacesAt(e, at) ==> e.end <= o.end
  {
    if edits != [] {
      OutermostIsLongest(edits[1..], at);
      assert edits == [edits[0]] + edits[1..];
    }
  }

  /** `range` of `source`, each position's insertions written, and its outermost replacement in place of its range. */
  function Splice(source: string, edits: seq<Edit>, range: Span, parent: Option<Edit>): string
    requires AreEditsOf(edits, |source|) && range.start <= range.end <= |source|
    decreases |Others(edits, parent)|, 2, 0, 0
  {
    InsideIsFewer(edits, range, parent);
    InsideAreEdits(edits, range, parent);
    SpliceFrom(source, Inside(edits, range, parent), range.start, range.end)
  }

  function SpliceFrom(source: string, edits: seq<Edit>, at: nat, end: nat): string
    requires AreEditsOf(edits, |source|) && at <= end <= |source| && (forall e :: e in edits ==> e.end <= end)
    decreases |edits|, 1, end - at, 1
  {
    LastFirstHolds(edits, at);
    TextsOf(source, edits, LastFirst(edits, at)) + SpliceAfter(source, edits, at, end)
  }

  /** From `at` on, its insertions written. */
  function SpliceAfter(source: string, edits: seq<Edit>, at: nat, end: nat): string
    requires AreEditsOf(edits, |source|) && at <= end <= |source| && (forall e :: e in edits ==> e.end <= end)
    decreases |edits|, 1, end - at, 0
  {
    match Outermost(edits, at)
    case Some(e) =>
      OthersIsFewer(edits, e);
      PartsText(source, edits, e, e.parts) + SpliceFrom(source, edits, e.end, end)
    case None =>
      if at < end then [source[at]] + SpliceFrom(source, edits, at + 1, end) else []
  }

  function TextsOf(source: string, edits: seq<Edit>, list: seq<Edit>): string
    requires AreEditsOf(edits, |source|) && (forall e :: e in list ==> e in edits)
    decreases |edits|, 0, |list|, 0
  {
    if list == [] then []
    else
      var e := list[0];
      assert e in list;
      OthersIsFewer(edits, e);
      PartsText(source, edits, e, e.parts) + TextsOf(source, edits, list[1..])
  }

  /** What `e` writes: its text, and each stretch it keeps spliced in turn. */
  function PartsText(source: string, edits: seq<Edit>, e: Edit, parts: seq<Part>): string
    requires AreEditsOf(edits, |source|) && KeepsWithin(parts, |source|)
    decreases |Others(edits, Some(e))|, 3, |parts|, 0
  {
    if parts == [] then []
    else
      assert parts[0] in parts;
      (match parts[0]
       case Text(text) => text
       case Keep(span) => Splice(source, edits, span, Some(e)))
      + PartsText(source, edits, e, parts[1..])
  }

  // ----- order -----

  ghost predicate IsSorted(edits: seq<Edit>) {
    forall i, j :: 0 <= i < j < |edits| ==> Before(edits[i], edits[j])
  }

  /** Each edit was asked for after the one before it. */
  ghost predicate AsAsked(edits: seq<Edit>) {
    forall i, j :: 0 <= i < j < |edits| ==> edits[i].id < edits[j].id
  }

  /** `ordered` is `asked`, sorted. */
  ghost predicate Sorts(ordered: seq<Edit>, asked: seq<Edit>) {
    IsSorted(ordered) && AsAsked(asked) && forall e :: e in ordered <==> e in asked
  }

  lemma {:induction false} InsertSorts(e: Edit, sorted: seq<Edit>)
    requires IsSorted(sorted) && forall x :: x in sorted ==> x.id != e.id
    ensures IsSorted(Insert(e, sorted))
  {
    if sorted != [] && !Before(e, sorted[0]) {
      assert sorted[0] in sorted && Before(sorted[0], e);
      assert forall x :: x in sorted[1..] ==> x in sorted;
      InsertSorts(e, sorted[1..]);
      InsertHolds(e, sorted[1..]);
      var rest := Insert(e, sorted[1..]);
      forall j | 0 <= j < |rest| ensures Before(sorted[0], rest[j]) {
        assert rest[j] in rest;
        if rest[j] != e {
          var k :| 0 <= k < |sorted[1..]| && sorted[1..][k] == rest[j];
          assert sorted[k + 1] == rest[j];
        }
      }
    } else if sorted != [] {
      forall j | 0 <= j < |sorted| ensures Before(e, sorted[j]) {
        if j > 0 {
          assert Before(sorted[0], sorted[j]);
        }
      }
    }
  }

  lemma {:induction false} OrderedSorts(asked: seq<Edit>)
    requires AsAsked(asked)
    ensures Sorts(Ordered(asked), asked)
  {
    OrderedHolds(asked);
    if asked != [] {
      OrderedSorts(asked[1..]);
      OrderedHolds(asked[1..]);
      InsertSorts(asked[0], Ordered(asked[1..]));
    }
  }

  lemma {:induction false} InsideStaysSorted(edits: seq<Edit>, range: Span, parent: Option<Edit>)
    requires IsSorted(edits)
    ensures IsSorted(Inside(edits, range, parent))
  {
    if edits != [] {
      InsideStaysSorted(edits[1..], range, parent);
      InsideAreEdits(edits[1..], range, parent);
      HeadFirst(edits);
      var rest := Inside(edits[1..], range, parent);
      assert forall k :: 0 <= k < |rest| ==> rest[k] in rest;
    }
  }

  lemma HeadFirst(edits: seq<Edit>)
    requires IsSorted(edits) && edits != []
    ensures forall x :: x in edits[1..] ==> Before(edits[0], x)
  {
  }

  lemma {:induction false} InsideStaysAsAsked(edits: seq<Edit>, range: Span, parent: Option<Edit>)
    requires AsAsked(edits)
    ensures AsAsked(Inside(edits, range, parent))
  {
    if edits != [] {
      InsideStaysAsAsked(edits[1..], range, parent);
      InsideAreEdits(edits[1..], range, parent);
      HeadAskedFirst(edits);
      var rest := Inside(edits[1..], range, parent);
      assert forall k :: 0 <= k < |rest| ==> rest[k] in rest;
    }
  }

  lemma HeadAskedFirst(edits: seq<Edit>)
    requires AsAsked(edits) && edits != []
    ensures forall x :: x in edits[1..] ==> edits[0].id < x.id
  {
  }

  lemma InsideSorts(ordered: seq<Edit>, asked: seq<Edit>, range: Span, parent: Option<Edit>)
    requires Sorts(ordered, asked)
    ensures Sorts(Inside(ordered, range, parent), Inside(asked, range, parent))
  {
    InsideStaysSorted(ordered, range, parent);
    InsideStaysAsAsked(asked, range, parent);
    InsideAreEdits(ordered, range, parent);
    InsideAreEdits(asked, range, parent);
  }

  // ----- insertions -----

  /** The insertions at `at`, as `edits` lists them. */
  function InOrder(edits: seq<Edit>, at: nat): (r: seq<Edit>)
    ensures forall e :: e in r ==> e in edits
  {
    if edits == [] then [] else (if InsertsAt(edits[0], at) then [edits[0]] else []) + InOrder(edits[1..], at)
  }

  lemma {:induction false} InOrderHolds(edits: seq<Edit>, at: nat)
    ensures forall e :: e in InOrder(edits, at) <==> e in edits && InsertsAt(e, at)
  {
    if edits != [] {
      InOrderHolds(edits[1..], at);
      assert edits == [edits[0]] + edits[1..];
    }
  }

  lemma {:induction false} InOrderAppends(a: seq<Edit>, b: seq<Edit>, at: nat)
    ensures InOrder(a + b, at) == InOrder(a, at) + InOrder(b, at)
  {
    if a == [] {
      assert a + b == b;
    } else {
      InOrderAppends(a[1..], b, at);
      HeadAndTail(a, b);
      Regroup(if InsertsAt(a[0], at) then [a[0]] else [], InOrder(a[1..], at), InOrder(b, at));
    }
  }

  ghost predicate LatestFirst(edits: seq<Edit>) {
    forall i, j :: 0 <= i < j < |edits| ==> edits[i].id > edits[j].id
  }

  lemma {:induction false} SortedInsertions(ordered: seq<Edit>, at: nat)
    requires IsSorted(ordered)
    ensures LatestFirst(InOrder(ordered, at))
  {
    if ordered != [] {
      SortedInsertions(ordered[1..], at);
      HeadFirst(ordered);
      InOrderHolds(ordered[1..], at);
      var rest := InOrder(ordered[1..], at);
      assert forall k :: 0 <= k < |rest| ==> rest[k] in rest;
    }
  }

  lemma {:induction false} AskedInsertions(asked: seq<Edit>, at: nat)
    requires AsAsked(asked)
    ensures LatestFirst(LastFirst(asked, at))
  {
    if asked != [] {
      AskedInsertions(asked[1..], at);
      HeadAskedFirst(asked);
      LastFirstHolds(asked[1..], at);
      var rest := LastFirst(asked[1..], at);
      assert forall k :: 0 <= k < |rest| ==> rest[k] in rest;
    }
  }

  lemma {:induction false} SameList(a: seq<Edit>, b: seq<Edit>)
    requires LatestFirst(a) && LatestFirst(b) && forall e :: e in a <==> e in b
    ensures a == b
  {
    if a == [] {
      EmptyOrHolds(b);
    } else {
      assert a[0] in a;
      var k :| 0 <= k < |b| && b[k] == a[0];
      assert b[0] in b;
      var j :| 0 <= j < |a| && a[j] == b[0];
      assert j == 0 && k == 0;
      forall e ensures e in a[1..] <==> e in b[1..] {
        if e in a[1..] {
          var i :| 0 <= i < |a[1..]| && a[1..][i] == e;
          assert a[i + 1] == e && e != a[0] && e in a;
          assert e in b;
        }
        if e in b[1..] {
          var i :| 0 <= i < |b[1..]| && b[1..][i] == e;
          assert b[i + 1] == e && e != b[0] && e in b;
          assert e in a;
        }
      }
      SameList(a[1..], b[1..]);
    }
  }

  lemma SameInsertions(ordered: seq<Edit>, asked: seq<Edit>, at: nat)
    requires Sorts(ordered, asked)
    ensures InOrder(ordered, at) == LastFirst(asked, at)
  {
    SortedInsertions(ordered, at);
    AskedInsertions(asked, at);
    InOrderHolds(ordered, at);
    LastFirstHolds(asked, at);
    SameList(InOrder(ordered, at), LastFirst(asked, at));
  }

  // ----- stretches with no edit -----

  /** Every edit starts before `at`, or inserts there, or starts from `next` on. */
  ghost predicate Plain(edits: seq<Edit>, at: nat, next: nat) {
    forall e :: e in edits ==> e.start < at || (e.start == at && IsInsertion(e)) || e.start >= next
  }

  lemma PlainCharacter(source: string, edits: seq<Edit>, at: nat, end: nat)
    requires AreEditsOf(edits, |source|) && at < end <= |source| && (forall e :: e in edits ==> e.end <= end)
    requires Outermost(edits, at).None?
    ensures SpliceAfter(source, edits, at, end) == [source[at]] + SpliceFrom(source, edits, at + 1, end)
  {
  }

  lemma NothingInserted(source: string, edits: seq<Edit>, at: nat, end: nat)
    requires AreEditsOf(edits, |source|) && at <= end <= |source| && (forall e :: e in edits ==> e.end <= end)
    requires forall e :: e in edits ==> !InsertsAt(e, at)
    ensures SpliceFrom(source, edits, at, end) == SpliceAfter(source, edits, at, end)
  {
    LastFirstHolds(edits, at);
    EmptyOrHolds(LastFirst(edits, at));
    NothingBefore(SpliceAfter(source, edits, at, end));
  }

  lemma NoneReplaces(edits: seq<Edit>, at: nat, next: nat)
    requires Plain(edits, at, next) && at < next
    ensures Outermost(edits, at).None?
  {
  }

  lemma PlainNext(edits: seq<Edit>, at: nat, next: nat)
    requires Plain(edits, at, next) && at + 1 < next
    ensures Plain(edits, at + 1, next) && forall e :: e in edits ==> !InsertsAt(e, at + 1)
  {
  }

  lemma {:induction false} PlainStretch(source: string, edits: seq<Edit>, at: nat, next: nat, end: nat)
    requires AreEditsOf(edits, |source|) && at < next <= end <= |source| && (forall e :: e in edits ==> e.end <= end)
    requires Plain(edits, at, next)
    ensures SpliceAfter(source, edits, at, end) == source[at..next] + SpliceFrom(source, edits, next, end)
    decreases next - at
  {
    hide SpliceFrom, Splice, Outermost;
    NoneReplaces(edits, at, next);
    PlainCharacter(source, edits, at, end);
    if at + 1 < next {
      PlainNext(edits, at, next);
      PlainStretch(source, edits, at + 1, next, end);
      NothingInserted(source, edits, at + 1, end);
      Regroup([source[at]], source[at + 1..next], SpliceFrom(source, edits, next, end));
      assert source[at..next] == [source[at]] + source[at + 1..next];
    } else {
      assert source[at..next] == [source[at]];
    }
  }

  lemma PlainTail(source: string, edits: seq<Edit>, at: nat, end: nat)
    requires AreEditsOf(edits, |source|) && at <= end <= |source| && (forall e :: e in edits ==> e.end <= end)
    requires Plain(edits, at, end + 1)
    ensures SpliceAfter(source, edits, at, end) == source[at..end]
  {
    if at == end {
      assert Outermost(edits, at).None?;
    } else {
      PlainStretch(source, edits, at, end, end);
      NothingInserted(source, edits, end, end);
      assert Outermost(edits, end).None?;
      NothingAfter(source[at..end]);
    }
  }

  // ----- rendering is splicing -----

  lemma {:induction false} TextOfAppends(source: string, a: seq<Segment>, b: seq<Segment>)
    requires SegmentsOf(source, a) && SegmentsOf(source, b)
    ensures TextOf(source, a + b) == TextOf(source, a) + TextOf(source, b)
  {
    if a == [] {
      assert a + b == b;
    } else {
      TextOfAppends(source, a[1..], b);
      HeadAndTail(a, b);
      assert (a + b)[0] == a[0];
    }
  }

  lemma TextOfGap(source: string, from: nat, to: nat)
    requires to <= |source|
    ensures TextOf(source, Gap(from, to)) == Slice(source, from, to)
  {
    if from <= to {
      assert TextOf(source, Gap(from, to)[1..]) == [];
    }
  }

  /** Of the replacements at its offset, the first in order is the outermost. */
  lemma {:induction false} FirstIsOutermost(asked: seq<Edit>, e: Edit)
    requires AsAsked(asked) && e in asked && !IsInsertion(e)
    requires forall x :: x in asked && ReplacesAt(x, e.start) && x != e ==>
               x.end < e.end || (x.end == e.end && e.id < x.id)
    ensures Outermost(asked, e.start) == Some(e)
  {
    if asked[0] != e {
      assert e in asked[1..];
      assert forall x :: x in asked[1..] ==> x in asked;
      FirstIsOutermost(asked[1..], e);
      var k :| 0 <= k < |asked[1..]| && asked[1..][k] == e;
      assert asked[k + 1] == e && asked[0].id < e.id && asked[0] in asked;
    } else {
      var rest := Outermost(asked[1..], e.start);
      assert rest.Some? ==> rest.value in asked[1..] && rest.value in asked;
    }
  }

  lemma {:induction false} PartsAreSpliced(
    source: string, ordered: seq<Edit>, asked: seq<Edit>, e: Edit, parts: seq<Part>)
    requires AreEditsOf(ordered, |source|) && KeepsWithin(parts, |source|) && Sorts(ordered, asked)
    requires RenderParts(source, ordered, e, parts).Rendered?
    ensures RenderParts(source, ordered, e, parts).value == PartsText(source, asked, e, parts)
    decreases |Others(ordered, Some(e))|, 3, |parts|
  {
    if parts != [] {
      assert parts[0] in parts;
      PartsAreSpliced(source, ordered, asked, e, parts[1..]);
      if parts[0].Keep? {
        RenderIsSplice(source, ordered, asked, parts[0].span, Some(e));
      }
    }
  }

  /** However the edits of a source are ordered to be rendered, its rendering is its splice. */
  lemma {:induction false} RenderIsSplice(
    source: string, ordered: seq<Edit>, asked: seq<Edit>, range: Span, parent: Option<Edit>)
    requires AreEditsOf(ordered, |source|) && range.start <= range.end <= |source| && Sorts(ordered, asked)
    requires Render(source, ordered, range, parent).Rendered?
    ensures TextOf(source, Render(source, ordered, range, parent).value) == Splice(source, asked, range, parent)
    decreases |Others(ordered, parent)|, 2, 0
  {
    InsideIsFewer(ordered, range, parent);
    InsideAreEdits(ordered, range, parent);
    InsideSorts(ordered, asked, range, parent);
    var inside, within := Inside(ordered, range, parent), Inside(asked, range, parent);
    ScanIsSplice(source, inside, within, [], inside, range.start, range.end);
    SameInsertions(inside, within, range.start);
  }

  lemma {:induction false} ScanIsSplice(
    source: string, inside: seq<Edit>, asked: seq<Edit>, done: seq<Edit>, left: seq<Edit>, at: nat, end: nat)
    requires AreEditsOf(inside, |source|) && at <= end <= |source| && Sorts(inside, asked)
    requires inside == done + left && forall e :: e in inside ==> e.end <= end
    requires forall d :: d in done ==> d.start < at || (d.start == at && IsInsertion(d))
    requires Scan(source, inside, left, at, end).Rendered?
    ensures TextOf(source, Scan(source, inside, left, at, end).value)
         == TextsOf(source, asked, InOrder(left, at)) + SpliceAfter(source, asked, at, end)
    decreases |inside|, 1, |left|, 1
  {
    if left == [] {
      assert inside == done;
      PlainTail(source, asked, at, end);
      TextOfGap(source, at, end);
    } else {
      var e := left[0];
      assert inside[|done|] == e && e in inside;
      assert inside == (done + [e]) + left[1..];
      if e.start < at {
        NothingBefore(InOrder(left[1..], at));
        ScanIsSplice(source, inside, asked, done + [e], left[1..], at, end);
      } else {
        ScanSteps(source, inside, asked, done, left, at, end);
      }
    }
  }

  lemma {:induction false} ScanSteps(
    source: string, inside: seq<Edit>, asked: seq<Edit>, done: seq<Edit>, left: seq<Edit>, at: nat, end: nat)
    requires AreEditsOf(inside, |source|) && at <= end <= |source| && Sorts(inside, asked)
    requires inside == done + left && forall e :: e in inside ==> e.end <= end
    requires forall d :: d in done ==> d.start < at || (d.start == at && IsInsertion(d))
    requires Scan(source, inside, left, at, end).Rendered?
    requires left != [] && left[0].start >= at
    ensures TextOf(source, Scan(source, inside, left, at, end).value)
         == TextsOf(source, asked, InOrder(left, at)) + SpliceAfter(source, asked, at, end)
    decreases |inside|, 1, |left|, 0
  {
    var e := left[0];
    var p := e.start;
    assert inside[|done|] == e && e in inside;
    assert inside == (done + [e]) + left[1..];
    OthersIsFewer(inside, e);
    PartsAreSpliced(source, inside, asked, e, e.parts);
    ScanIsSplice(source, inside, asked, done + [e], left[1..], e.end, end);
    var text := RenderParts(source, inside, e, e.parts).value;
    var more := Scan(source, inside, left[1..], e.end, end).value;
    TextOfGap(source, at, p);
    TextOfAppends(source, Gap(at, p) + [Written(e, text)], more);
    TextOfAppends(source, Gap(at, p), [Written(e, text)]);
    assert TextOf(source, [Written(e, text)]) == text;
    StepIsSplice(source, inside, asked, done, left, at, end, text, TextOf(source, more));
  }

  /** An edit written at `at` or past it, with what the rest of the scan writes. */
  lemma StepIsSplice(
    source: string, inside: seq<Edit>, asked: seq<Edit>, done: seq<Edit>, left: seq<Edit>, at: nat, end: nat,
    text: string, more: string)
    requires AreEditsOf(inside, |source|) && at <= end <= |source| && Sorts(inside, asked)
    requires inside == done + left && forall e :: e in inside ==> e.end <= end
    requires forall d :: d in done ==> d.start < at || (d.start == at && IsInsertion(d))
    requires left != [] && left[0].start >= at && left[0] in inside
    requires text == PartsText(source, asked, left[0], left[0].parts)
    requires more == TextsOf(source, asked, InOrder(left[1..], left[0].end))
             + SpliceAfter(source, asked, left[0].end, end)
    ensures Slice(source, at, left[0].start) + text + more
         == TextsOf(source, asked, InOrder(left, at)) + SpliceAfter(source, asked, at, end)
  {
    var p := left[0].start;
    LeftStartsLater(inside, done, left);
    if IsInsertion(left[0]) {
      InsertionIsSplice(source, inside, asked, left, end, text, more);
    } else {
      ReplacementIsSplice(source, inside, asked, done, left, end, text, more);
    }
    Regroup(Slice(source, at, p), text, more);
    if at < p {
      PlainStretch(source, asked, at, p, end);
      InsertionsAfter(inside, asked, done, left, p);
      InOrderHolds(left, at);
      EmptyOrHolds(InOrder(left, at));
      NothingBefore(SpliceAfter(source, asked, at, end));
    } else {
      NothingBefore(text + more);
    }
  }

  lemma InsertionIsSplice(
    source: string, inside: seq<Edit>, asked: seq<Edit>, left: seq<Edit>, end: nat, text: string, more: string)
    requires AreEditsOf(asked, |source|) && end <= |source| && forall e :: e in asked ==> e.end <= end
    requires left != [] && IsInsertion(left[0]) && forall e :: e in left ==> e in asked
    requires left[0] in left && text == PartsText(source, asked, left[0], left[0].parts)
    requires more == TextsOf(source, asked, InOrder(left[1..], left[0].end))
             + SpliceAfter(source, asked, left[0].end, end)
    ensures text + more
         == TextsOf(source, asked, InOrder(left, left[0].start)) + SpliceAfter(source, asked, left[0].start, end)
  {
    var p := left[0].start;
    var rest := InOrder(left[1..], p);
    assert InOrder(left, p) == [left[0]] + rest;
    assert ([left[0]] + rest)[1..] == rest;
    Regroup(text, TextsOf(source, asked, rest), SpliceAfter(source, asked, p, end));
  }

  lemma OutermostIsNext(inside: seq<Edit>, asked: seq<Edit>, done: seq<Edit>, left: seq<Edit>)
    requires Sorts(inside, asked) && inside == done + left && left != [] && !IsInsertion(left[0])
    requires forall d :: d in done ==> d.start < left[0].start || (d.start == left[0].start && IsInsertion(d))
    ensures Outermost(asked, left[0].start) == Some(left[0])
  {
    var e := left[0];
    assert inside[|done|] == e && e in inside;
    NoInsertionAfter(inside, done, left);
    forall x | x in asked && ReplacesAt(x, e.start) && x != e
      ensures x.end < e.end || (x.end == e.end && e.id < x.id)
    {
      assert x in inside && x !in done;
    }
    FirstIsOutermost(asked, e);
  }

  lemma ReplacementIsSplice(
    source: string, inside: seq<Edit>, asked: seq<Edit>, done: seq<Edit>, left: seq<Edit>, end: nat, text: string,
    more: string)
    requires AreEditsOf(inside, |source|) && end <= |source| && Sorts(inside, asked)
    requires inside == done + left && forall e :: e in inside ==> e.end <= end
    requires left != [] && !IsInsertion(left[0]) && left[0] in inside
    requires forall d :: d in done ==> d.start < left[0].start || (d.start == left[0].start && IsInsertion(d))
    requires text == PartsText(source, asked, left[0], left[0].parts)
    requires more == TextsOf(source, asked, InOrder(left[1..], left[0].end))
             + SpliceAfter(source, asked, left[0].end, end)
    ensures text + more
         == TextsOf(source, asked, InOrder(left, left[0].start)) + SpliceAfter(source, asked, left[0].start, end)
  {
    var e := left[0];
    NoInsertionAfter(inside, done, left);
    OutermostIsNext(inside, asked, done, left);
    assert inside == (done + [e]) + left[1..];
    InsertionsAfter(inside, asked, done + [e], left[1..], e.end);
    assert SpliceFrom(source, asked, e.end, end) == more;
    NothingBefore(SpliceAfter(source, asked, e.start, end));
  }

  lemma LeftStartsLater(inside: seq<Edit>, done: seq<Edit>, left: seq<Edit>)
    requires IsSorted(inside) && inside == done + left && left != []
    ensures forall x :: x in left && x != left[0] ==> Before(left[0], x)
    ensures forall x :: x in left ==> x.start >= left[0].start
  {
    forall x | x in left ensures x == left[0] || Before(left[0], x) {
      var k :| 0 <= k < |left| && left[k] == x;
      assert inside[|done| + k] == x && inside[|done|] == left[0];
    }
  }

  /** A replacement comes after the insertions at its offset, and before the shorter ones there. */
  lemma NoInsertionAfter(inside: seq<Edit>, done: seq<Edit>, left: seq<Edit>)
    requires IsSorted(inside) && inside == done + left && left != [] && !IsInsertion(left[0])
    ensures InOrder(left, left[0].start) == []
    ensures forall x :: x in left && ReplacesAt(x, left[0].start) && x != left[0] ==>
              x.end < left[0].end || (x.end == left[0].end && left[0].id < x.id)
  {
    LeftStartsLater(inside, done, left);
    InOrderHolds(left, left[0].start);
    EmptyOrHolds(InOrder(left, left[0].start));
  }

  /** At an offset past every edit done, the insertions left are all there are. */
  lemma InsertionsAfter(inside: seq<Edit>, asked: seq<Edit>, done: seq<Edit>, left: seq<Edit>, at: nat)
    requires Sorts(inside, asked) && inside == done + left && forall d :: d in done ==> d.start < at
    ensures InOrder(left, at) == LastFirst(asked, at)
  {
    SameInsertions(inside, asked, at);
    InOrderAppends(done, left, at);
    InOrderHolds(done, at);
    EmptyOrHolds(InOrder(done, at));
  }

  /** A list of edits that does not overlap makes of a source what splicing it position by position does. */
  lemma EditedIsSplice(source: string, edits: seq<Edit>)
    requires AreEditsOf(edits, |source|) && AsAsked(edits)
    requires EditedSegments(source, edits).Rendered?
    ensures TextOf(source, EditedSegments(source, edits).value) == Splice(source, edits, Span(0, |source|), None)
  {
    OrderedHolds(edits);
    OrderedSorts(edits);
    RenderIsSplice(source, Ordered(edits), edits, Span(0, |source|), None);
  }

  // ----- overlaps -----

  /** Two edits overlap, and neither holds the other. */
  predicate Crosses(a: Edit, b: Edit) {
    a.start < b.start < a.end < b.end
  }

  ghost predicate NoneCross(edits: seq<Edit>) {
    forall a, b :: a in edits && b in edits ==> !Crosses(a, b)
  }

  /** Edits no two of which cross never throw, whatever the stretches they keep. */
  lemma {:induction false} NoneCrossRenders(source: string, ordered: seq<Edit>, range: Span, parent: Option<Edit>)
    requires AreEditsOf(ordered, |source|) && range.start <= range.end <= |source|
    requires IsSorted(ordered) && NoneCross(ordered)
    ensures Render(source, ordered, range, parent).Rendered?
    decreases |Others(ordered, parent)|, 2, 0
  {
    InsideIsFewer(ordered, range, parent);
    InsideAreEdits(ordered, range, parent);
    InsideStaysSorted(ordered, range, parent);
    var inside := Inside(ordered, range, parent);
    NoneCrossScans(source, inside, [], inside, range.start, range.end);
  }

  lemma {:induction false} NoneCrossScans(
    source: string, inside: seq<Edit>, done: seq<Edit>, left: seq<Edit>, at: nat, end: nat)
    requires AreEditsOf(inside, |source|) && at <= end <= |source|
    requires IsSorted(inside) && NoneCross(inside) && inside == done + left && forall e :: e in inside ==> e.end <= end
    requires (forall e :: e in left ==> e.start >= at) || exists d :: d in done && d.end == at
    ensures Scan(source, inside, left, at, end).Rendered?
    decreases |inside|, 1, |left|
  {
    if left != [] {
      var e := left[0];
      assert inside[|done|] == e && e in inside;
      assert inside == (done + [e]) + left[1..];
      if e.start < at {
        assert e in left;
        var d :| d in done && d.end == at;
        assert d in done + [e];
        DoneComesFirst(inside, done, left, d);
        assert !Crosses(d, e);
        NoneCrossScans(source, inside, done + [e], left[1..], at, end);
      } else {
        OthersIsFewer(inside, e);
        NoneCrossParts(source, inside, e, e.parts);
        assert e in done + [e];
        NoneCrossScans(source, inside, done + [e], left[1..], e.end, end);
      }
    }
  }

  lemma DoneComesFirst(inside: seq<Edit>, done: seq<Edit>, left: seq<Edit>, d: Edit)
    requires IsSorted(inside) && inside == done + left && left != [] && d in done
    ensures Before(d, left[0])
  {
    var k :| 0 <= k < |done| && done[k] == d;
    assert inside[k] == d && inside[|done|] == left[0];
  }

  lemma {:induction false} NoneCrossParts(source: string, inside: seq<Edit>, e: Edit, parts: seq<Part>)
    requires AreEditsOf(inside, |source|) && KeepsWithin(parts, |source|)
    requires IsSorted(inside) && NoneCross(inside)
    ensures RenderParts(source, inside, e, parts).Rendered?
    decreases |Others(inside, Some(e))|, 3, |parts|
  {
    if parts != [] {
      assert parts[0] in parts;
      NoneCrossParts(source, inside, e, parts[1..]);
      if parts[0].Keep? {
        NoneCrossRenders(source, inside, parts[0].span, Some(e));
      }
    }
  }

  /** Edits no two of which cross are spliced, and never throw. */
  lemma NoneCrossSplices(source: string, edits: seq<Edit>)
    requires AreEditsOf(edits, |source|) && AsAsked(edits) && NoneCross(edits)
    ensures EditedSegments(source, edits).Rendered?
    ensures TextOf(source, EditedSegments(source, edits).value) == Splice(source, edits, Span(0, |source|), None)
  {
    OrderedHolds(edits);
    OrderedSorts(edits);
    NoneCrossRenders(source, Ordered(edits), Span(0, |source|), None);
    EditedIsSplice(source, edits);
  }

  // ----- insertions where a replacement starts or ends -----

  lemma {:induction false} InsideIgnoresEdge(edits: seq<Edit>, i: Edit, range: Span, e: Edit)
    requires InsertsAt(i, e.start) || InsertsAt(i, e.end)
    ensures Inside(Others(edits, Some(i)), range, Some(e)) == Inside(edits, range, Some(e))
  {
    if edits != [] {
      InsideIgnoresEdge(edits[1..], i, range, e);
      var rest := Others(edits[1..], Some(i));
      if edits[0] == i {
        NothingBefore(rest);
        NothingBefore(Inside(edits[1..], range, Some(e)));
      } else {
        assert ([edits[0]] + rest)[0] == edits[0] && ([edits[0]] + rest)[1..] == rest;
      }
    }
  }

  /**
   * A replacement writes no insertion at its own edges, though it keeps its whole range: what it writes is what it
   * would write were the insertion never asked for.
   */
  lemma {:induction false} EdgeInsertionStaysOutside(
    source: string, inside: seq<Edit>, i: Edit, e: Edit, parts: seq<Part>)
    requires AreEditsOf(inside, |source|) && KeepsWithin(parts, |source|)
    requires InsertsAt(i, e.start) || InsertsAt(i, e.end)
    ensures AreEditsOf(Others(inside, Some(i)), |source|)
    ensures RenderParts(source, Others(inside, Some(i)), e, parts) == RenderParts(source, inside, e, parts)
    decreases |parts|
  {
    OthersAreEdits(inside, i);
    if parts != [] {
      assert parts[0] in parts;
      EdgeInsertionStaysOutside(source, inside, i, e, parts[1..]);
      if parts[0].Keep? {
        InsideIgnoresEdge(inside, i, parts[0].span, e);
      }
    }
  }

  lemma {:induction false} OthersAreEdits(edits: seq<Edit>, i: Edit)
    ensures forall x :: x in Others(edits, Some(i)) ==> x in edits
  {
    if edits != [] {
      OthersAreEdits(edits[1..], i);
    }
  }
}
