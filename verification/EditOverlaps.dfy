/** Exactly which edits overlap: two that cross where they are rendered, the first of them live. */
module EditOverlaps {
  import opened Options
  import opened Edits
  import opened EditSplice
  import opened EditCounts

  // ----- the condition -----

  /** A live edit ends inside `e`, and starts before it. */
  ghost predicate IsCrossed(inside: seq<Edit>, e: Edit) {
    exists d :: d in inside && !Moot(inside, d) && Crosses(d, e)
  }

  /** Of the edits of a range some are crossed by a live one, or a live one keeps a stretch of whose edits some are. */
  ghost predicate LiveCrosses(edits: seq<Edit>, range: Span, parent: Option<Edit>)
    decreases |Others(edits, parent)|, 2, 0
  {
    InsideIsFewer(edits, range, parent);
    var inside := Inside(edits, range, parent);
    exists e :: e in inside && (IsCrossed(inside, e) || (!Moot(inside, e) && KeepsCrossed(inside, e)))
  }

  ghost predicate KeepsCrossed(inside: seq<Edit>, e: Edit)
    requires e in inside
    decreases |inside|, 1, 0
  {
    OthersIsFewer(inside, e);
    exists span :: Keep(span) in e.parts && LiveCrosses(inside, span, Some(e))
  }

  // ----- the scan -----

  /** Up to `at`, where the last live edit done ends, every edit is done. */
  ghost predicate LiveUpTo(inside: seq<Edit>, done: seq<Edit>, left: seq<Edit>, at: nat) {
    && (forall d :: d in done ==> d.end <= at)
    && ((forall e :: e in left ==> e.start >= at) || exists d :: d in done && d.end == at && !Moot(inside, d))
  }

  /** Whether the scan throws at the next edit, which it does where a live edit crosses it. */
  lemma NextThrows(inside: seq<Edit>, done: seq<Edit>, left: seq<Edit>, at: nat)
    requires IsSorted(inside) && inside == done + left && left != [] && LiveUpTo(inside, done, left, at)
    ensures IsCrossed(inside, left[0]) <==> left[0].start < at < left[0].end
  {
    var e := left[0];
    if e.start < at {
      assert e in left;
      var last :| last in done && last.end == at && !Moot(inside, last);
      DoneComesFirst(inside, done, left, last);
      assert last in inside;
      if at < e.end {
        assert Crosses(last, e);
      }
    }
    if IsCrossed(inside, e) {
      var d :| d in inside && !Moot(inside, d) && Crosses(d, e);
      CrossingIsDone(inside, done, left, d);
      assert e.start < at && e in left;
      var last :| last in done && last.end == at && !Moot(inside, last);
      DoneComesFirst(inside, done, left, last);
      LiveApart(inside, d, last);
    }
  }

  lemma CrossingIsDone(inside: seq<Edit>, done: seq<Edit>, left: seq<Edit>, d: Edit)
    requires IsSorted(inside) && inside == done + left && left != [] && d in inside && d.start < left[0].start
    ensures d in done
  {
    if d !in done {
      LeftStartsLater(inside, done, left);
    }
  }

  /** Of two live edits one ends before the other starts. */
  lemma LiveApart(inside: seq<Edit>, a: Edit, b: Edit)
    requires IsSorted(inside) && a in inside && b in inside && !Moot(inside, a) && !Moot(inside, b)
    ensures a == b || a.end <= b.start || b.end <= a.start
  {
    var i :| 0 <= i < |inside| && inside[i] == a;
    var j :| 0 <= j < |inside| && inside[j] == b;
    assert i < j ==> Before(a, b);
    assert j < i ==> Before(b, a);
    assert Before(a, b) ==> !Overrides(a, b);
    assert Before(b, a) ==> !Overrides(b, a);
  }

  /** A rendering throws exactly where live edits cross in it, at any depth of what is kept. */
  lemma {:induction false} RenderThrowsExactly(source: string, ordered: seq<Edit>, range: Span, parent: Option<Edit>)
    requires AreEditsOf(ordered, |source|) && range.start <= range.end <= |source| && IsSorted(ordered)
    ensures Render(source, ordered, range, parent).Overlap? <==> LiveCrosses(ordered, range, parent)
    decreases |Others(ordered, parent)|, 2, 0, 0
  {
    InsideIsFewer(ordered, range, parent);
    InsideAreEdits(ordered, range, parent);
    InsideStaysSorted(ordered, range, parent);
    var inside := Inside(ordered, range, parent);
    ScanThrowsExactly(source, inside, [], inside, range.start, range.end);
  }

  /** What is left to scan throws. */
  ghost predicate LeftThrows(inside: seq<Edit>, left: seq<Edit>)
    requires forall e :: e in left ==> e in inside
  {
    exists e :: e in left && (IsCrossed(inside, e) || (!Moot(inside, e) && KeepsCrossed(inside, e)))
  }

  lemma LeftThrowsNext(inside: seq<Edit>, left: seq<Edit>)
    requires left != [] && forall e :: e in left ==> e in inside
    ensures LeftThrows(inside, left) <==>
            var e := left[0];
            assert e in left;
            || IsCrossed(inside, e) || (!Moot(inside, e) && KeepsCrossed(inside, e))
            || LeftThrows(inside, left[1..])
  {
    assert left == [left[0]] + left[1..];
  }

  lemma {:induction false} ScanThrowsExactly(
    source: string, inside: seq<Edit>, done: seq<Edit>, left: seq<Edit>, at: nat, end: nat)
    requires AreEditsOf(inside, |source|) && at <= end <= |source|
    requires IsSorted(inside) && inside == done + left && forall e :: e in inside ==> e.end <= end
    requires LiveUpTo(inside, done, left, at)
    ensures Scan(source, inside, left, at, end).Overlap? <==> LeftThrows(inside, left)
    decreases |inside|, 1, |left|
  {
    hide IsCrossed, Moot, LiveCrosses, RenderParts;
    if left != [] {
      var e := left[0];
      assert inside[|done|] == e && e in inside;
      assert inside == (done + [e]) + left[1..];
      assert e in done + [e] && forall x :: x in left[1..] ==> x in left;
      LiveIsDone(inside, done, left, at);
      SkipsTheMoot(inside, done, left, at);
      NextThrows(inside, done, left, at);
      LeftThrowsNext(inside, left);
      if e.start < at {
        if e.end <= at {
          StillLive(inside, done, left, at);
          ScanThrowsExactly(source, inside, done + [e], left[1..], at, end);
        }
      } else {
        OthersIsFewer(inside, e);
        PartsThrowExactly(source, inside, e, e.parts);
        ScanThrowsExactly(source, inside, done + [e], left[1..], e.end, end);
      }
    }
  }

  lemma LiveIsDone(inside: seq<Edit>, done: seq<Edit>, left: seq<Edit>, at: nat)
    requires LiveUpTo(inside, done, left, at)
    ensures DoneUpTo(done, left, at)
  {
  }

  lemma StillLive(inside: seq<Edit>, done: seq<Edit>, left: seq<Edit>, at: nat)
    requires LiveUpTo(inside, done, left, at) && left != [] && left[0].start < at && left[0].end <= at
    ensures LiveUpTo(inside, done + [left[0]], left[1..], at)
  {
    assert left[0] in left;
    var d :| d in done && d.end == at && !Moot(inside, d);
    assert d in done + [left[0]];
  }

  lemma {:induction false} PartsThrowExactly(source: string, inside: seq<Edit>, e: Edit, parts: seq<Part>)
    requires AreEditsOf(inside, |source|) && KeepsWithin(parts, |source|) && IsSorted(inside)
    ensures RenderParts(source, inside, e, parts).Overlap? <==>
            exists span :: Keep(span) in parts && LiveCrosses(inside, span, Some(e))
    decreases |Others(inside, Some(e))|, 3, |parts|
  {
    if parts != [] {
      assert parts == [parts[0]] + parts[1..] && parts[0] in parts;
      PartsThrowExactly(source, inside, e, parts[1..]);
      if parts[0].Keep? {
        RenderThrowsExactly(source, inside, parts[0].span, Some(e));
        assert Keep(parts[0].span) in parts;
      }
    }
  }

  // ----- the edits as asked for -----

  /** In whatever order the edits are listed. */
  lemma {:induction false} CrossesAsAsked(a: seq<Edit>, b: seq<Edit>, range: Span, parent: Option<Edit>)
    requires forall x :: x in a <==> x in b
    ensures LiveCrosses(a, range, parent) <==> LiveCrosses(b, range, parent)
    decreases |Others(a, parent)|, 2, 0, 0
  {
    InsideIsFewer(a, range, parent);
    InsideAreEdits(a, range, parent);
    InsideAreEdits(b, range, parent);
    var inA, inB := Inside(a, range, parent), Inside(b, range, parent);
    forall e | e in inA
      ensures IsCrossed(inA, e) <==> IsCrossed(inB, e)
      ensures Moot(inA, e) <==> Moot(inB, e)
      ensures KeepsCrossed(inA, e) <==> KeepsCrossed(inB, e)
    {
      MootAsAsked(inA, inB);
      OthersIsFewer(inA, e);
      forall span ensures LiveCrosses(inA, span, Some(e)) <==> LiveCrosses(inB, span, Some(e)) {
        CrossesAsAsked(inA, inB, span, Some(e));
      }
    }
  }

  lemma MootAsAsked(a: seq<Edit>, b: seq<Edit>)
    requires forall x :: x in a <==> x in b
    ensures forall e :: Moot(a, e) <==> Moot(b, e)
    ensures forall e :: IsCrossed(a, e) <==> IsCrossed(b, e)
  {
  }

  /** A list of edits overlaps exactly where a live edit crosses another, at the top or in what live edits keep. */
  lemma OverlapsExactly(source: string, edits: seq<Edit>)
    requires AreEditsOf(edits, |source|) && AsAsked(edits)
    ensures EditedSegments(source, edits).Overlap? <==> LiveCrosses(edits, Span(0, |source|), None)
  {
    OrderedHolds(edits);
    OrderedSorts(edits);
    RenderThrowsExactly(source, Ordered(edits), Span(0, |source|), None);
    CrossesAsAsked(Ordered(edits), edits, Span(0, |source|), None);
  }
}
