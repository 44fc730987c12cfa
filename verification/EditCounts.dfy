/** How many times an insertion is written, the copies inside what other edits keep counted too. */
module EditCounts {
  import opened Options
  import opened Edits
  import opened EditSplice
  import opened Sequences

  // ----- counting along the rendering -----

  /** How many times a rendering writes `i`, wherever it is nested. */
  function Writings(edits: seq<Edit>, range: Span, parent: Option<Edit>, i: Edit): nat
    decreases |Others(edits, parent)|, 2, 0
  {
    InsideIsFewer(edits, range, parent);
    var inside := Inside(edits, range, parent);
    ScanWritings(inside, inside, range.start, i)
  }

  function ScanWritings(inside: seq<Edit>, left: seq<Edit>, at: nat, i: Edit): nat
    requires forall e :: e in left ==> e in inside
    decreases |inside|, 1, |left|
  {
    if left == [] then 0
    else
      var e := left[0];
      assert e in left;
      if e.start < at then ScanWritings(inside, left[1..], at, i)
      else
        OthersIsFewer(inside, e);
        (if e == i then 1 else 0) + PartsWritings(inside, e, e.parts, i) + ScanWritings(inside, left[1..], e.end, i)
  }

  function PartsWritings(inside: seq<Edit>, e: Edit, parts: seq<Part>, i: Edit): nat
    decreases |Others(inside, Some(e))|, 3, |parts|
  {
    if parts == [] then 0
    else
      (match parts[0]
       case Text(_) => 0
       case Keep(span) => Writings(inside, span, Some(e), i))
      + PartsWritings(inside, e, parts[1..], i)
  }

  // ----- the count is the text's -----

  /** `i` with one character more in front of its text. */
  function Longer(i: Edit, c: char): (r: Edit)
    ensures r != i && r.start == i.start && r.end == i.end && r.id == i.id
  {
    LongerDiffers(i.parts, c);
    i.(parts := [Text([c])] + i.parts)
  }

  lemma LongerDiffers(parts: seq<Part>, c: char)
    ensures [Text([c])] + parts != parts
  {
    assert |[Text([c])] + parts| == |parts| + 1;
  }

  function LongerIf(e: Edit, i: Edit, c: char): Edit {
    if e == i then Longer(i, c) else e
  }

  function Lengthened(edits: seq<Edit>, i: Edit, c: char): (r: seq<Edit>)
    ensures |r| == |edits| && forall k :: 0 <= k < |r| ==> r[k] == LongerIf(edits[k], i, c)
  {
    if edits == [] then [] else [LongerIf(edits[0], i, c)] + Lengthened(edits[1..], i, c)
  }

  function LongerParent(parent: Option<Edit>, i: Edit, c: char): Option<Edit> {
    if parent == Some(i) then Some(Longer(i, c)) else parent
  }

  lemma LengthenedAreEdits(edits: seq<Edit>, i: Edit, c: char, length: nat)
    requires AreEditsOf(edits, length)
    ensures AreEditsOf(Lengthened(edits, i, c), length)
  {
    var longer := Lengthened(edits, i, c);
    forall k | 0 <= k < |longer| ensures IsEditOf(longer[k], length) {
      assert edits[k] in edits;
    }
  }

  lemma {:induction false} LengthenedInside(edits: seq<Edit>, range: Span, parent: Option<Edit>, i: Edit, c: char)
    requires Longer(i, c) !in edits && parent != Some(Longer(i, c))
    ensures Inside(Lengthened(edits, i, c), range, LongerParent(parent, i, c))
         == Lengthened(Inside(edits, range, parent), i, c)
  {
    if edits != [] {
      LengthenedInside(edits[1..], range, parent, i, c);
      var rest := Inside(edits[1..], range, parent);
      assert edits[0] in edits;
      assert Within(LongerIf(edits[0], i, c), range, LongerParent(parent, i, c)) == Within(edits[0], range, parent);
      if Within(edits[0], range, parent) {
        assert ([edits[0]] + rest)[1..] == rest;
      } else {
        NothingBefore(rest);
        NothingBefore(Lengthened(rest, i, c));
      }
    }
  }

  /** Lengthening `i` by one character lengthens a rendering by one for each time it writes `i`. */
  lemma {:induction false} RenderLengthens(
    source: string, edits: seq<Edit>, range: Span, parent: Option<Edit>, i: Edit, c: char)
    requires AreEditsOf(edits, |source|) && range.start <= range.end <= |source|
    requires Longer(i, c) !in edits && parent != Some(Longer(i, c))
    requires Render(source, edits, range, parent).Rendered?
    ensures AreEditsOf(Lengthened(edits, i, c), |source|)
    ensures var longer := Render(source, Lengthened(edits, i, c), range, LongerParent(parent, i, c));
            longer.Rendered? && |TextOf(source, longer.value)|
                             == |TextOf(source, Render(source, edits, range, parent).value)| + Writings(edits, range,
                                 parent, i)
    decreases |Others(edits, parent)|, 2, 0
  {
    InsideIsFewer(edits, range, parent);
    InsideAreEdits(edits, range, parent);
    LengthenedAreEdits(edits, i, c, |source|);
    LengthenedInside(edits, range, parent, i, c);
    InsideAreEdits(Lengthened(edits, i, c), range, LongerParent(parent, i, c));
    var inside := Inside(edits, range, parent);
    ScanLengthens(source, inside, inside, range.start, range.end, i, c);
  }

  lemma LengthenedHolds(edits: seq<Edit>, part: seq<Edit>, i: Edit, c: char)
    requires forall e :: e in part ==> e in edits
    ensures forall e :: e in Lengthened(part, i, c) ==> e in Lengthened(edits, i, c)
  {
    var longer := Lengthened(part, i, c);
    forall k | 0 <= k < |longer| ensures longer[k] in Lengthened(edits, i, c) {
      assert part[k] in part;
      var j :| 0 <= j < |edits| && edits[j] == part[k];
      assert Lengthened(edits, i, c)[j] == longer[k];
    }
  }

  lemma LengthenedEnd(part: seq<Edit>, end: nat, i: Edit, c: char)
    requires forall e :: e in part ==> e.end <= end
    ensures forall e :: e in Lengthened(part, i, c) ==> e.end <= end
  {
    var longer := Lengthened(part, i, c);
    forall k | 0 <= k < |longer| ensures longer[k].end <= end {
      assert part[k] in part;
    }
  }

  lemma {:induction false} ScanLengthens(
    source: string, inside: seq<Edit>, left: seq<Edit>, at: nat, end: nat, i: Edit, c: char)
    requires AreEditsOf(inside, |source|) && at <= end <= |source|
    requires forall e :: e in left ==> e in inside && e.end <= end
    requires Longer(i, c) !in inside && Scan(source, inside, left, at, end).Rendered?
    ensures AreEditsOf(Lengthened(inside, i, c), |source|)
    ensures forall e :: e in Lengthened(left, i, c) ==> e in Lengthened(inside, i, c) && e.end <= end
    ensures var longer := Scan(source, Lengthened(inside, i, c), Lengthened(left, i, c), at, end);
            longer.Rendered? && |TextOf(source, longer.value)|
                             == |TextOf(source, Scan(source, inside, left, at, end).value)| + ScanWritings(inside, left,
                                 at, i)
    decreases |inside|, 1, |left|
  {
    LengthenedAreEdits(inside, i, c, |source|);
    LengthenedHolds(inside, left, i, c);
    LengthenedEnd(left, end, i, c);
    if left != [] {
      var e := left[0];
      assert e in left;
      var all, longer := Lengthened(inside, i, c), Lengthened(left, i, c);
      assert longer[0] == LongerIf(e, i, c) && longer[1..] == Lengthened(left[1..], i, c);
      if e.start < at {
        ScanLengthens(source, inside, left[1..], at, end, i, c);
      } else {
        OthersIsFewer(inside, e);
        ScanLengthens(source, inside, left[1..], e.end, end, i, c);
        PartsLengthen(source, inside, e, e.parts, i, c);
        OwnPartsLengthen(source, inside, e, i, c);
        StepLength(source, inside, left, at, end);
        StepLength(source, all, longer, at, end);
      }
    }
  }

  /** What `e` writes, lengthened where it is `i`. */
  lemma OwnPartsLengthen(source: string, inside: seq<Edit>, e: Edit, i: Edit, c: char)
    requires AreEditsOf(inside, |source|) && e in inside
    requires AreEditsOf(Lengthened(inside, i, c), |source|)
    requires RenderParts(source, Lengthened(inside, i, c), LongerIf(e, i, c), e.parts).Rendered?
    ensures KeepsWithin(LongerIf(e, i, c).parts, |source|)
    ensures var all, longer := Lengthened(inside, i, c), LongerIf(e, i, c);
            && RenderParts(source, all, longer, longer.parts).Rendered?
            && |RenderParts(source, all, longer, longer.parts).value|
               == |RenderParts(source, all, longer, e.parts).value| + if e == i then 1 else 0
  {
    if e == i {
      FrontLengthens(source, Lengthened(inside, i, c), Longer(i, c), e.parts, c);
    }
  }

  /** How long a scan's text is, its first edit written. */
  lemma StepLength(source: string, inside: seq<Edit>, left: seq<Edit>, at: nat, end: nat)
    requires AreEditsOf(inside, |source|) && at <= end <= |source|
    requires forall e :: e in left ==> e in inside && e.end <= end
    requires left != [] && left[0] in left && left[0].start >= at
    requires RenderParts(source, inside, left[0], left[0].parts).Rendered?
    requires Scan(source, inside, left[1..], left[0].end, end).Rendered?
    ensures Scan(source, inside, left, at, end).Rendered?
    ensures |TextOf(source, Scan(source, inside, left, at, end).value)|
         == left[0].start - at + |RenderParts(source, inside, left[0], left[0].parts).value|
            + |TextOf(source, Scan(source, inside, left[1..], left[0].end, end).value)|
  {
    var text := RenderParts(source, inside, left[0], left[0].parts).value;
    StretchText(source, at, left[0], text, Scan(source, inside, left[1..], left[0].end, end).value);
  }

  /** A piece of one character in front of the others is one character more. */
  lemma FrontLengthens(source: string, inside: seq<Edit>, e: Edit, parts: seq<Part>, c: char)
    requires AreEditsOf(inside, |source|) && KeepsWithin(parts, |source|)
    requires RenderParts(source, inside, e, parts).Rendered?
    ensures KeepsWithin([Text([c])] + parts, |source|)
    ensures var all := RenderParts(source, inside, e, [Text([c])] + parts);
            all.Rendered? && |all.value| == 1 + |RenderParts(source, inside, e, parts).value|
  {
    HeadOf(Text([c]), parts);
  }

  lemma StretchText(source: string, at: nat, e: Edit, text: string, more: seq<Segment>)
    requires at <= e.start <= |source| && SegmentsOf(source, more)
    ensures SegmentsOf(source, Gap(at, e.start) + [Written(e, text)] + more)
    ensures TextOf(source, Gap(at, e.start) + [Written(e, text)] + more)
         == source[at..e.start] + text + TextOf(source, more)
  {
    TextOfAppends(source, Gap(at, e.start) + [Written(e, text)], more);
    TextOfAppends(source, Gap(at, e.start), [Written(e, text)]);
    TextOfGap(source, at, e.start);
    assert TextOf(source, [Written(e, text)]) == text + TextOf(source, []);
  }

  lemma {:induction false} PartsLengthen(
    source: string, inside: seq<Edit>, e: Edit, parts: seq<Part>, i: Edit, c: char)
    requires AreEditsOf(inside, |source|) && KeepsWithin(parts, |source|)
    requires Longer(i, c) !in inside && e != Longer(i, c) && RenderParts(source, inside, e, parts).Rendered?
    ensures AreEditsOf(Lengthened(inside, i, c), |source|)
    ensures var longer := RenderParts(source, Lengthened(inside, i, c), LongerIf(e, i, c), parts);
            longer.Rendered? && |longer.value|
                             == |RenderParts(source, inside, e, parts).value| + PartsWritings(inside, e, parts, i)
    decreases |Others(inside, Some(e))|, 3, |parts|
  {
    LengthenedAreEdits(inside, i, c, |source|);
    if parts != [] {
      assert parts[0] in parts;
      PartsLengthen(source, inside, e, parts[1..], i, c);
      if parts[0].Keep? {
        RenderLengthens(source, inside, parts[0].span, Some(e), i, c);
      }
    }
  }

  // ----- the reference: live edits, in no order -----

  /** Whether an edit that goes before `e` replaces text past where `e` starts: such an `e` is moot. */
  ghost predicate Moot(edits: seq<Edit>, e: Edit) {
    exists a :: a in edits && Overrides(a, e)
  }

  predicate Overrides(a: Edit, e: Edit) {
    Before(a, e) && e.start < a.end
  }

  /** Once if `i` is live in `range`, and once more for each writing by a live edit of a stretch it keeps. */
  ghost function LiveWritings(edits: seq<Edit>, range: Span, parent: Option<Edit>, i: Edit): nat
    decreases |Others(edits, parent)|, 2, 0
  {
    InsideIsFewer(edits, range, parent);
    var inside := Inside(edits, range, parent);
    LiveSum(inside, inside, i)
  }

  ghost function LiveSum(inside: seq<Edit>, list: seq<Edit>, i: Edit): nat
    requires forall e :: e in list ==> e in inside
    decreases |inside|, 1, |list|
  {
    if list == [] then 0
    else
      assert list[0] in list;
      LiveOwn(inside, list[0], i) + LiveSum(inside, list[1..], i)
  }

  /** What `e` accounts for. */
  ghost function LiveOwn(inside: seq<Edit>, e: Edit, i: Edit): nat
    requires e in inside
    decreases |inside|, 0, 0
  {
    OthersIsFewer(inside, e);
    if Moot(inside, e) then 0 else (if e == i then 1 else 0) + LiveKept(inside, e, e.parts, i)
  }

  ghost function LiveKept(inside: seq<Edit>, e: Edit, parts: seq<Part>, i: Edit): nat
    decreases |Others(inside, Some(e))|, 3, |parts|
  {
    if parts == [] then 0
    else
      (match parts[0]
       case Text(_) => 0
       case Keep(span) => LiveWritings(inside, span, Some(e), i))
      + LiveKept(inside, e, parts[1..], i)
  }

  /** Up to `at` every edit is done, and none of them reaches past it. */
  ghost predicate DoneUpTo(done: seq<Edit>, left: seq<Edit>, at: nat) {
    && (forall d :: d in done ==> d.end <= at)
    && ((forall e :: e in left ==> e.start >= at) || exists d :: d in done && d.end == at)
  }

  /** The scan skips exactly the edits that are moot. */
  lemma SkipsTheMoot(inside: seq<Edit>, done: seq<Edit>, left: seq<Edit>, at: nat)
    requires IsSorted(inside) && inside == done + left && left != [] && DoneUpTo(done, left, at)
    ensures left[0].start < at <==> Moot(inside, left[0])
  {
    var e := left[0];
    assert e in left && e in inside;
    if e.start < at {
      var d :| d in done && d.end == at;
      DoneComesFirst(inside, done, left, d);
      assert d in inside && Overrides(d, e);
    }
    if Moot(inside, e) {
      var a :| a in inside && Overrides(a, e);
      if a !in done {
        LeftStartsLater(inside, done, left);
      }
    }
  }

  /** A rendering that does not overlap writes `i` as often as the live edits do. */
  lemma {:induction false} RenderWritesTheLive(
    source: string, ordered: seq<Edit>, range: Span, parent: Option<Edit>, i: Edit)
    requires AreEditsOf(ordered, |source|) && range.start <= range.end <= |source| && IsSorted(ordered)
    requires Render(source, ordered, range, parent).Rendered?
    ensures Writings(ordered, range, parent, i) == LiveWritings(ordered, range, parent, i)
    decreases |Others(ordered, parent)|, 2, 0
  {
    InsideIsFewer(ordered, range, parent);
    InsideAreEdits(ordered, range, parent);
    InsideStaysSorted(ordered, range, parent);
    var inside := Inside(ordered, range, parent);
    ScanWritesTheLive(source, inside, [], inside, range.start, range.end, i);
  }

  lemma {:induction false} ScanWritesTheLive(
    source: string, inside: seq<Edit>, done: seq<Edit>, left: seq<Edit>, at: nat, end: nat, i: Edit)
    requires AreEditsOf(inside, |source|) && at <= end <= |source|
    requires IsSorted(inside) && inside == done + left && forall e :: e in inside ==> e.end <= end
    requires DoneUpTo(done, left, at) && Scan(source, inside, left, at, end).Rendered?
    ensures ScanWritings(inside, left, at, i) == LiveSum(inside, left, i)
    decreases |inside|, 1, |left|
  {
    if left != [] {
      var e := left[0];
      assert inside[|done|] == e && e in inside;
      assert inside == (done + [e]) + left[1..];
      assert e in done + [e] && forall x :: x in left[1..] ==> x in left;
      SkipsTheMoot(inside, done, left, at);
      if e.start < at {
        ScanWritesTheLive(source, inside, done + [e], left[1..], at, end, i);
      } else {
        OthersIsFewer(inside, e);
        PartsWriteTheLive(source, inside, e, e.parts, i);
        ScanWritesTheLive(source, inside, done + [e], left[1..], e.end, end, i);
      }
    }
  }

  lemma {:induction false} PartsWriteTheLive(source: string, inside: seq<Edit>, e: Edit, parts: seq<Part>, i: Edit)
    requires AreEditsOf(inside, |source|) && KeepsWithin(parts, |source|) && IsSorted(inside)
    requires RenderParts(source, inside, e, parts).Rendered?
    ensures PartsWritings(inside, e, parts, i) == LiveKept(inside, e, parts, i)
    decreases |Others(inside, Some(e))|, 3, |parts|
  {
    if parts != [] {
      assert parts[0] in parts;
      PartsWriteTheLive(source, inside, e, parts[1..], i);
      if parts[0].Keep? {
        RenderWritesTheLive(source, inside, parts[0].span, Some(e), i);
      }
    }
  }

  // ----- the order they were asked for in does not matter -----

  lemma {:induction false} InsertIsSame(e: Edit, sorted: seq<Edit>)
    ensures multiset(Insert(e, sorted)) == multiset([e] + sorted)
  {
    if sorted != [] && !Before(e, sorted[0]) {
      InsertIsSame(e, sorted[1..]);
      assert sorted == [sorted[0]] + sorted[1..];
    }
  }

  lemma {:induction false} OrderedIsSame(edits: seq<Edit>)
    ensures multiset(Ordered(edits)) == multiset(edits)
  {
    if edits != [] {
      OrderedIsSame(edits[1..]);
      InsertIsSame(edits[0], Ordered(edits[1..]));
      assert edits == [edits[0]] + edits[1..];
    }
  }

  lemma {:induction false} InsideCounts(edits: seq<Edit>, range: Span, parent: Option<Edit>, x: Edit)
    ensures multiset(Inside(edits, range, parent))[x] == if Within(x, range, parent) then multiset(edits)[x] else 0
  {
    if edits != [] {
      InsideCounts(edits[1..], range, parent, x);
      assert edits == [edits[0]] + edits[1..];
    }
  }

  lemma InsideIsSame(a: seq<Edit>, b: seq<Edit>, range: Span, parent: Option<Edit>)
    requires multiset(a) == multiset(b)
    ensures multiset(Inside(a, range, parent)) == multiset(Inside(b, range, parent))
  {
    forall x ensures multiset(Inside(a, range, parent))[x] == multiset(Inside(b, range, parent))[x] {
      InsideCounts(a, range, parent, x);
      InsideCounts(b, range, parent, x);
    }
  }

  lemma SameHolds(a: seq<Edit>, b: seq<Edit>)
    requires multiset(a) == multiset(b)
    ensures forall x :: x in a <==> x in b
  {
    assert forall x :: x in a <==> x in multiset(a);
    assert forall x :: x in b <==> x in multiset(b);
  }

  lemma {:induction false} LiveWritingsAsAsked(a: seq<Edit>, b: seq<Edit>, range: Span, parent: Option<Edit>, i: Edit)
    requires multiset(a) == multiset(b)
    ensures LiveWritings(a, range, parent, i) == LiveWritings(b, range, parent, i)
    decreases |Others(a, parent)|, 2, 0, 0
  {
    InsideIsFewer(a, range, parent);
    InsideIsSame(a, b, range, parent);
    var inA, inB := Inside(a, range, parent), Inside(b, range, parent);
    LiveSumAsAsked(inA, inB, inA, inB, i);
  }

  lemma {:induction false} LiveSumTakesOut(inside: seq<Edit>, list: seq<Edit>, k: nat, i: Edit)
    requires (forall e :: e in list ==> e in inside) && k < |list|
    ensures list[k] in inside && forall e :: e in list[..k] + list[k + 1..] ==> e in inside
    ensures LiveSum(inside, list, i) == LiveOwn(inside, list[k], i) + LiveSum(inside, list[..k] + list[k + 1..], i)
  {
    var less := list[..k] + list[k + 1..];
    assert list[k] in list && forall e :: e in less ==> e in list;
    if k == 0 {
      NothingBefore(list[1..]);
      assert less == list[1..];
    } else {
      LiveSumTakesOut(inside, list[1..], k - 1, i);
      assert list[1..][..k - 1] + list[1..][k..] == less[1..];
      assert less[0] == list[0];
    }
  }

  lemma TakenOut(a: seq<Edit>, b: seq<Edit>, k: nat)
    requires a != [] && multiset(a) == multiset(b) && k < |b| && b[k] == a[0]
    ensures multiset(a[1..]) == multiset(b[..k] + b[k + 1..])
  {
    assert a == [a[0]] + a[1..];
    assert b == (b[..k] + [b[k]]) + b[k + 1..];
    assert multiset(a[1..]) == multiset(a) - multiset{a[0]};
    assert multiset(b[..k] + b[k + 1..]) == multiset(b) - multiset{b[k]};
  }

  lemma {:induction false} LiveSumAsAsked(inA: seq<Edit>, inB: seq<Edit>, a: seq<Edit>, b: seq<Edit>, i: Edit)
    requires multiset(inA) == multiset(inB) && multiset(a) == multiset(b)
    requires forall e :: e in a ==> e in inA
    ensures forall e :: e in b ==> e in inB
    ensures LiveSum(inA, a, i) == LiveSum(inB, b, i)
    decreases |inA|, 1, |a|, 0
  {
    SameHolds(inA, inB);
    SameHolds(a, b);
    if a == [] {
      EmptyOrHolds(b);
    } else {
      assert a[0] in a;
      var k :| 0 <= k < |b| && b[k] == a[0];
      var less := b[..k] + b[k + 1..];
      TakenOut(a, b, k);
      LiveSumAsAsked(inA, inB, a[1..], less, i);
      LiveSumTakesOut(inB, b, k, i);
      LiveOwnAsAsked(inA, inB, a[0], i);
    }
  }

  lemma {:induction false} LiveOwnAsAsked(inA: seq<Edit>, inB: seq<Edit>, e: Edit, i: Edit)
    requires multiset(inA) == multiset(inB) && e in inA
    ensures e in inB && LiveOwn(inA, e, i) == LiveOwn(inB, e, i)
    decreases |inA|, 1, 0, 0
  {
    SameHolds(inA, inB);
    OthersIsFewer(inA, e);
    LiveKeptAsAsked(inA, inB, e, e.parts, i);
  }

  lemma {:induction false} LiveKeptAsAsked(inA: seq<Edit>, inB: seq<Edit>, e: Edit, parts: seq<Part>, i: Edit)
    requires multiset(inA) == multiset(inB)
    ensures LiveKept(inA, e, parts, i) == LiveKept(inB, e, parts, i)
    decreases |Others(inA, Some(e))|, 3, |parts|, 0
  {
    if parts != [] {
      LiveKeptAsAsked(inA, inB, e, parts[1..], i);
      if parts[0].Keep? {
        LiveWritingsAsAsked(inA, inB, parts[0].span, Some(e), i);
      }
    }
  }

  // ----- whether it is written, and whether only once -----

  /** `i` is live in `range`, or a live edit there keeps a stretch in which it is reached. */
  ghost predicate Reached(edits: seq<Edit>, range: Span, parent: Option<Edit>, i: Edit)
    decreases |Others(edits, parent)|, 2, 0
  {
    InsideIsFewer(edits, range, parent);
    var inside := Inside(edits, range, parent);
    && i in inside
    && (!Moot(inside, i) ||
        exists e, span :: e in inside && !Moot(inside, e) && Keep(span) in e.parts && ReachedIn(inside, e, span, i))
  }

  ghost predicate ReachedIn(inside: seq<Edit>, e: Edit, span: Span, i: Edit)
    requires e in inside
    decreases |inside|, 1, 0
  {
    OthersIsFewer(inside, e);
    Reached(inside, span, Some(e), i)
  }

  lemma ReachedHolds(edits: seq<Edit>, range: Span, parent: Option<Edit>, i: Edit)
    requires Reached(edits, range, parent, i)
    ensures i in edits && Within(i, range, parent)
  {
    InsideAreEdits(edits, range, parent);
  }

  /** It is written somewhere exactly where it is reached. */
  lemma {:induction false} WrittenIffReached(edits: seq<Edit>, range: Span, parent: Option<Edit>, i: Edit)
    ensures LiveWritings(edits, range, parent, i) > 0 <==> Reached(edits, range, parent, i)
    decreases |Others(edits, parent)|, 2, 0, 0
  {
    InsideIsFewer(edits, range, parent);
    var inside := Inside(edits, range, parent);
    SumWrites(inside, inside, i);
    forall e | e in inside
      ensures LiveOwn(inside, e, i) > 0 <==>
              !Moot(inside, e) && (e == i || exists span :: Keep(span) in e.parts && ReachedIn(inside, e, span, i))
      ensures forall span :: ReachedIn(inside, e, span, i) ==> i in inside
    {
      OwnWrites(inside, e, i);
    }
  }

  lemma {:induction false} SumWrites(inside: seq<Edit>, list: seq<Edit>, i: Edit)
    requires forall e :: e in list ==> e in inside
    ensures LiveSum(inside, list, i) > 0 <==> exists e :: e in list && LiveOwn(inside, e, i) > 0
    decreases |list|
  {
    if list != [] {
      assert list == [list[0]] + list[1..] && list[0] in list;
      SumWrites(inside, list[1..], i);
    }
  }

  lemma {:induction false} OwnWrites(inside: seq<Edit>, e: Edit, i: Edit)
    requires e in inside
    ensures LiveOwn(inside, e, i) > 0 <==>
            !Moot(inside, e) && (e == i || exists span :: Keep(span) in e.parts && ReachedIn(inside, e, span, i))
    ensures forall span :: ReachedIn(inside, e, span, i) ==> i in inside
    decreases |inside|, 1, 0, 0
  {
    OthersIsFewer(inside, e);
    KeptWrites(inside, e, e.parts, i);
    forall span | ReachedIn(inside, e, span, i) ensures i in inside {
      ReachedHolds(inside, span, Some(e), i);
    }
  }

  lemma {:induction false} KeptWrites(inside: seq<Edit>, e: Edit, parts: seq<Part>, i: Edit)
    requires e in inside
    ensures LiveKept(inside, e, parts, i) > 0 <==> exists span :: Keep(span) in parts && ReachedIn(inside, e, span, i)
    decreases |Others(inside, Some(e))|, 3, |parts|, 0
  {
    if parts != [] {
      assert parts == [parts[0]] + parts[1..];
      KeptWrites(inside, e, parts[1..], i);
      if parts[0].Keep? {
        WrittenIffReached(inside, parts[0].span, Some(e), i);
        assert Keep(parts[0].span) in parts;
      }
    }
  }

  /** Whether `a` replaces text on both sides of where `i` inserts. */
  predicate Swallows(a: Edit, i: Edit) {
    a.start < i.start < a.end
  }

  /** How many of `parts` keep a stretch that `e`, their edit, renders with `i` in it. */
  function TimesKept(e: Edit, parts: seq<Part>, i: Edit): nat {
    if parts == [] then 0
    else (if parts[0].Keep? && Within(i, parts[0].span, Some(e)) then 1 else 0) + TimesKept(e, parts[1..], i)
  }

  /** `e` keeps `i` once at most, and only out of the range it replaces. */
  predicate KeepsOnce(e: Edit, i: Edit) {
    TimesKept(e, e.parts, i) <= 1 && (TimesKept(e, e.parts, i) > 0 ==> Swallows(e, i))
  }

  lemma {:induction false} KeptAtMost(inside: seq<Edit>, e: Edit, parts: seq<Part>, i: Edit)
    requires IsSorted(inside) && IsInsertion(i) && e in inside && forall x :: x in inside ==> KeepsOnce(x, i)
    ensures LiveKept(inside, e, parts, i) <= TimesKept(e, parts, i)
    decreases |Others(inside, Some(e))|, 3, |parts|, 0
  {
    if parts != [] {
      KeptAtMost(inside, e, parts[1..], i);
      if parts[0].Keep? {
        WrittenAtMostOnce(inside, parts[0].span, Some(e), i);
        WrittenIffReached(inside, parts[0].span, Some(e), i);
        InsideAreEdits(inside, parts[0].span, Some(e));
      }
    }
  }

  /** Where each edit keeps `i` once at most, out of its own range, `i` is written once at most. */
  lemma {:induction false} WrittenAtMostOnce(edits: seq<Edit>, range: Span, parent: Option<Edit>, i: Edit)
    requires IsSorted(edits) && IsInsertion(i) && forall e :: e in edits ==> KeepsOnce(e, i)
    ensures LiveWritings(edits, range, parent, i) <= 1
    decreases |Others(edits, parent)|, 2, 0, 0
  {
    InsideIsFewer(edits, range, parent);
    InsideAreEdits(edits, range, parent);
    InsideStaysSorted(edits, range, parent);
    var inside := Inside(edits, range, parent);
    NothingBefore(inside);
    SumAtMostOnce(inside, [], inside, i);
  }

  lemma {:induction false} OwnAtMostOnce(inside: seq<Edit>, e: Edit, i: Edit)
    requires IsSorted(inside) && IsInsertion(i) && e in inside && forall x :: x in inside ==> KeepsOnce(x, i)
    ensures LiveOwn(inside, e, i) <= 1
    ensures LiveOwn(inside, e, i) > 0 ==> !Moot(inside, e) && (e == i || Swallows(e, i))
    decreases |inside|, 1, 0, 0
  {
    OthersIsFewer(inside, e);
    KeptAtMost(inside, e, e.parts, i);
    if e == i {
      assert !Swallows(i, i);
    }
  }

  lemma {:induction false} SumAtMostOnce(inside: seq<Edit>, done: seq<Edit>, left: seq<Edit>, i: Edit)
    requires IsSorted(inside) && IsInsertion(i) && inside == done + left && forall x :: x in inside ==> KeepsOnce(x, i)
    ensures LiveSum(inside, left, i) <= 1
    decreases |inside|, 1, |left|, 1
  {
    if left != [] {
      var e := left[0];
      assert inside[|done|] == e && e in inside && e in left;
      assert inside == (done + [e]) + left[1..];
      assert forall x :: x in left[1..] ==> x in left && x in inside;
      SumAtMostOnce(inside, done + [e], left[1..], i);
      OwnAtMostOnce(inside, e, i);
      if LiveOwn(inside, e, i) > 0 {
        SumWrites(inside, left[1..], i);
        forall x | x in left[1..] ensures LiveOwn(inside, x, i) == 0 {
          OwnAtMostOnce(inside, x, i);
          var k :| 0 <= k < |left[1..]| && left[1..][k] == x;
          assert inside[|done| + 1 + k] == x;
          if LiveOwn(inside, x, i) > 0 {
            OneHolds(inside, e, x, i);
          }
        }
      }
    }
  }

  /** Of two edits that write or replace past where `i` inserts, the first makes the other moot. */
  lemma OneHolds(inside: seq<Edit>, a: Edit, b: Edit, i: Edit)
    requires a in inside && Before(a, b) && IsInsertion(i)
    requires (a == i || Swallows(a, i)) && (b == i || Swallows(b, i))
    ensures Moot(inside, b)
  {
    assert Overrides(a, b);
  }

  /** The stretches `e` keeps lie in the range it replaces, and no two of them meet. */
  ghost predicate KeepsApart(e: Edit) {
    && (forall p :: p in e.parts && p.Keep? ==> e.start <= p.span.start && p.span.end <= e.end)
    && ApartParts(e.parts)
  }

  ghost predicate ApartParts(parts: seq<Part>) {
    forall j, k :: 0 <= j < k < |parts| && parts[j].Keep? && parts[k].Keep? ==> Clear(parts[j].span, parts[k].span)
  }

  predicate Clear(a: Span, b: Span) {
    a.end < b.start || b.end < a.start
  }

  lemma ApartFromFirst(parts: seq<Part>)
    requires parts != [] && ApartParts(parts)
    ensures ApartParts(parts[1..])
    ensures forall p :: p in parts[1..] && p.Keep? && parts[0].Keep? ==> Clear(parts[0].span, p.span)
  {
    forall p | p in parts[1..] && p.Keep? && parts[0].Keep? ensures Clear(parts[0].span, p.span) {
      var k :| 0 <= k < |parts[1..]| && parts[1..][k] == p;
      assert parts[k + 1] == p;
    }
  }

  lemma {:induction false} ApartKeepOnce(e: Edit, parts: seq<Part>, i: Edit)
    requires IsInsertion(i) && ApartParts(parts)
    ensures TimesKept(e, parts, i) <= 1
    ensures TimesKept(e, parts, i) > 0 <==> exists p :: p in parts && p.Keep? && Within(i, p.span, Some(e))
  {
    if parts != [] {
      assert parts == [parts[0]] + parts[1..];
      ApartKeepOnce(e, parts[1..], i);
      ApartFromFirst(parts);
    }
  }

  lemma ApartKeepsOnce(e: Edit, i: Edit)
    requires IsInsertion(i) && KeepsApart(e)
    ensures KeepsOnce(e, i)
  {
    ApartKeepOnce(e, e.parts, i);
  }

  // ----- the whole text -----

  /** How many times the edited text holds what `i` writes. */
  function TimesWritten(source: string, edits: seq<Edit>, i: Edit): nat {
    Writings(Ordered(edits), Span(0, |source|), None, i)
  }

  lemma {:induction false} InsertLengthens(e: Edit, sorted: seq<Edit>, i: Edit, c: char)
    ensures Insert(LongerIf(e, i, c), Lengthened(sorted, i, c)) == Lengthened(Insert(e, sorted), i, c)
  {
    if sorted != [] {
      var longer := Lengthened(sorted, i, c);
      assert longer[1..] == Lengthened(sorted[1..], i, c);
      InsertLengthens(e, sorted[1..], i, c);
      HeadOf(e, sorted);
      HeadOf(sorted[0], Insert(e, sorted[1..]));
    }
  }

  lemma {:induction false} OrderedLengthens(edits: seq<Edit>, i: Edit, c: char)
    ensures Ordered(Lengthened(edits, i, c)) == Lengthened(Ordered(edits), i, c)
  {
    if edits != [] {
      OrderedLengthens(edits[1..], i, c);
      InsertLengthens(edits[0], Ordered(edits[1..]), i, c);
      HeadOf(LongerIf(edits[0], i, c), Lengthened(edits[1..], i, c));
    }
  }

  lemma AskedApart(edits: seq<Edit>, a: Edit, b: Edit)
    requires AsAsked(edits) && a in edits && b in edits && a.id == b.id
    ensures a == b
  {
    var j, k :| 0 <= j < |edits| && 0 <= k < |edits| && edits[j] == a && edits[k] == b;
    assert j == k;
  }

  /**
   * The count is the text's own: an `i` one character longer makes the text longer by one for each time it is written.
   */
  lemma TimesWrittenShows(source: string, edits: seq<Edit>, i: Edit, c: char)
    requires AreEditsOf(edits, |source|) && AsAsked(edits) && i in edits
    requires EditedSegments(source, edits).Rendered?
    ensures AreEditsOf(Lengthened(edits, i, c), |source|)
    ensures var longer := EditedSegments(source, Lengthened(edits, i, c));
            longer.Rendered? && |TextOf(source, longer.value)|
                             == |TextOf(source, EditedSegments(source, edits).value)| + TimesWritten(source, edits, i)
  {
    OrderedHolds(edits);
    LengthenedAreEdits(edits, i, c, |source|);
    OrderedHolds(Lengthened(edits, i, c));
    OrderedLengthens(edits, i, c);
    if Longer(i, c) in edits {
      AskedApart(edits, i, Longer(i, c));
    }
    RenderLengthens(source, Ordered(edits), Span(0, |source|), None, i, c);
  }

  /**
   * An edited text holds what `i` writes once where `i` is live, and once for each live edit keeping a stretch of it.
   */
  lemma TimesWrittenExactly(source: string, edits: seq<Edit>, i: Edit)
    requires AreEditsOf(edits, |source|) && AsAsked(edits) && EditedSegments(source, edits).Rendered?
    ensures TimesWritten(source, edits, i) == LiveWritings(edits, Span(0, |source|), None, i)
    ensures TimesWritten(source, edits, i) > 0 <==> Reached(edits, Span(0, |source|), None, i)
  {
    OrderedHolds(edits);
    OrderedSorts(edits);
    OrderedIsSame(edits);
    RenderWritesTheLive(source, Ordered(edits), Span(0, |source|), None, i);
    LiveWritingsAsAsked(Ordered(edits), edits, Span(0, |source|), None, i);
    WrittenIffReached(edits, Span(0, |source|), None, i);
  }

  /**
   * Where each edit keeps `i` once at most, out of its own range, `i` is written once if it is reached, and else never.
   */
  lemma WrittenOnceIfReached(source: string, edits: seq<Edit>, i: Edit)
    requires AreEditsOf(edits, |source|) && AsAsked(edits) && EditedSegments(source, edits).Rendered?
    requires IsInsertion(i) && forall e :: e in edits ==> KeepsOnce(e, i)
    ensures TimesWritten(source, edits, i) == if Reached(edits, Span(0, |source|), None, i) then 1 else 0
  {
    OrderedHolds(edits);
    OrderedSorts(edits);
    RenderWritesTheLive(source, Ordered(edits), Span(0, |source|), None, i);
    WrittenAtMostOnce(Ordered(edits), Span(0, |source|), None, i);
    TimesWrittenExactly(source, edits, i);
  }

  /**
   * An insertion no replacement swallows is always written, and only once where the stretches each edit keeps lie in
   * its own range and do not meet; one that is swallowed is written where the live edit around it keeps it.
   */
  lemma InsertionWrittenOnce(source: string, edits: seq<Edit>, i: Edit)
    requires AreEditsOf(edits, |source|) && AsAsked(edits) && i in edits && IsInsertion(i)
    requires EditedSegments(source, edits).Rendered?
    ensures (forall a :: a in edits ==> !Swallows(a, i)) ==> TimesWritten(source, edits, i) >= 1
    ensures (forall e :: e in edits ==> KeepsApart(e)) ==>
            TimesWritten(source, edits, i) == if Reached(edits, Span(0, |source|), None, i) then 1 else 0
  {
    var whole := Span(0, |source|);
    InsideAreEdits(edits, whole, None);
    TimesWrittenExactly(source, edits, i);
    if forall a :: a in edits ==> !Swallows(a, i) {
      assert forall a :: a in edits ==> !Overrides(a, i);
    }
    if forall e :: e in edits ==> KeepsApart(e) {
      forall e | e in edits ensures KeepsOnce(e, i) {
        ApartKeepsOnce(e, i);
      }
      WrittenOnceIfReached(source, edits, i);
    }
  }

  lemma WrittenAs(source: string, inside: seq<Edit>, e: Edit, text: string)
    requires AreEditsOf(inside, |source|)
    ensures RenderParts(source, inside, e, [Text(text)]) == Rendered(text)
  {
    assert [Text(text)][1..] == [];
    assert RenderParts(source, inside, e, [Text(text)][1..]) == Rendered([]);
    NothingAfter(text);
  }

  lemma NotedOnce(inside: seq<Edit>, e: Edit, text: string)
    ensures PartsWritings(inside, e, [Text(text)], e) == 0
  {
    assert PartsWritings(inside, e, [Text(text)][1..], e) == 0;
  }

  /** Writes, in place of the first character, the last two of four over again. */
  const COPIES := Edit(0, 0, 1, [Keep(Span(2, 4))])

  /** Inserts between those two. */
  const MARK := Edit(1, 3, 3, [Text("X")])

  lemma KeptElsewhereInside()
    ensures Ordered([COPIES, MARK]) == [COPIES, MARK] && AreEditsOf([COPIES, MARK], 4)
    ensures Inside([COPIES, MARK], Span(0, 4), None) == [COPIES, MARK]
    ensures Inside([COPIES, MARK], Span(2, 4), Some(COPIES)) == [MARK]
  {
    var both, tail := [COPIES, MARK], [MARK];
    assert tail[1..] == [] && both[1..] == tail;
    assert Ordered(tail) == Insert(MARK, Ordered([])) == tail;
    assert Inside(tail, Span(0, 4), None) == tail && Inside(tail, Span(2, 4), Some(COPIES)) == tail;
    assert Ordered(both) == Insert(COPIES, tail) == both;
  }

  /** A scan with `MARK` alone left. */
  lemma KeptElsewhereScan(source: string, inside: seq<Edit>, at: nat)
    requires |source| == 4 && AreEditsOf(inside, 4) && MARK in inside && at <= 3
    ensures Scan(source, inside, [MARK], at, 4) == Rendered(Gap(at, 3) + [Written(MARK, "X")] + Gap(3, 4))
    ensures SegmentsOf(source, Gap(at, 3) + [Written(MARK, "X")] + Gap(3, 4))
    ensures TextOf(source, Gap(at, 3) + [Written(MARK, "X")] + Gap(3, 4)) == source[at..3] + "X" + source[3..4]
    ensures ScanWritings(inside, [MARK], at, MARK) == 1
  {
    var tail := [MARK];
    assert tail[1..] == [];
    WrittenAs(source, inside, MARK, "X");
    NotedOnce(inside, MARK, "X");
    StretchText(source, at, MARK, "X", Gap(3, 4));
    TextOfGap(source, 3, 4);
  }

  lemma KeptElsewhereKept(source: string)
    requires source == "abcd" && AreEditsOf([COPIES, MARK], 4)
    ensures var r := Render(source, [COPIES, MARK], Span(2, 4), Some(COPIES));
            r.Rendered? && TextOf(source, r.value) == "cXd"
    ensures Writings([COPIES, MARK], Span(2, 4), Some(COPIES), MARK) == 1
  {
    KeptElsewhereInside();
    KeptElsewhereScan(source, [MARK], 2);
    assert source[2..3] + "X" + source[3..4] == "cXd";
  }

  /** An edit of one piece, a stretch kept, writes that stretch's rendering. */
  lemma OneKept(source: string, inside: seq<Edit>, e: Edit, span: Span)
    requires AreEditsOf(inside, |source|) && span.start <= span.end <= |source| && Render(source, inside, span,
        Some(e)).Rendered?
    ensures RenderParts(source, inside, e, [Keep(span)]) == Rendered(TextOf(source,
        Render(source, inside, span, Some(e)).value))
    ensures forall i :: PartsWritings(inside, e, [Keep(span)], i) == Writings(inside, span, Some(e), i)
  {
    var keeps := [Keep(span)];
    assert keeps[1..] == [] && RenderParts(source, inside, e, keeps[1..]) == Rendered([]);
    NothingAfter(TextOf(source, Render(source, inside, span, Some(e)).value));
  }

  lemma KeptElsewhereParts(source: string)
    requires source == "abcd" && AreEditsOf([COPIES, MARK], 4)
    ensures RenderParts(source, [COPIES, MARK], COPIES, COPIES.parts) == Rendered("cXd")
    ensures PartsWritings([COPIES, MARK], COPIES, COPIES.parts, MARK) == 1
  {
    KeptElsewhereKept(source);
    OneKept(source, [COPIES, MARK], COPIES, Span(2, 4));
  }

  lemma KeptElsewhereText(source: string)
    requires source == "abcd" && AreEditsOf([COPIES, MARK], 4)
    ensures var r := Scan(source, [COPIES, MARK], [COPIES, MARK], 0, 4);
            r.Rendered? && TextOf(source, r.value) == "cXdbcXd"
  {
    var both, late := [COPIES, MARK], Gap(1, 3) + [Written(MARK, "X")] + Gap(3, 4);
    KeptElsewhereParts(source);
    KeptElsewhereScan(source, both, 1);
    assert both[1..] == [MARK];
    assert Scan(source, both, both, 0, 4) == Rendered(Gap(0, 0) + [Written(COPIES, "cXd")] + late);
    StretchText(source, 0, COPIES, "cXd", late);
    assert source[0..0] + "cXd" + (source[1..3] + "X" + source[3..4]) == "cXdbcXd";
  }

  lemma KeptElsewhereCount()
    ensures ScanWritings([COPIES, MARK], [COPIES, MARK], 0, MARK) == 2
  {
    var both := [COPIES, MARK];
    KeptElsewhereInside();
    KeptElsewhereParts("abcd");
    KeptElsewhereScan("abcd", both, 1);
    assert both[1..] == [MARK] && both[0] == COPIES && COPIES != MARK;
  }

  /** An edit that keeps a stretch outside its own range writes what is inserted there over again. */
  lemma KeptElsewhereIsWrittenTwice()
    ensures AreEditsOf([COPIES, MARK], 4) && EditedSegments("abcd", [COPIES, MARK]).Rendered?
    ensures TextOf("abcd", EditedSegments("abcd", [COPIES, MARK]).value) == "cXdbcXd"
    ensures TimesWritten("abcd", [COPIES, MARK], MARK) == 2
  {
    KeptElsewhereInside();
    KeptElsewhereText("abcd");
    KeptElsewhereCount();
  }
}

