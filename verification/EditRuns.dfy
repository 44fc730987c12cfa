/** The edit engine as it runs: text and moves gathered in a loop over the ordered edits. */
module EditRuns {
  import opened Options
  import opened Edits
  import opened EditOffsets
  import opened EditSplice
  import opened EditOverlaps
  import opened Sequences

  lemma {:induction false} MovedOfAppends(a: seq<Segment>, b: seq<Segment>, from: nat)
    ensures MovedOf(a + b, from) == MovedOf(a, from) + MovedOf(b, from + WrittenLength(a))
    ensures WrittenLength(a + b) == WrittenLength(a) + WrittenLength(b)
    decreases |a|
  {
    if a == [] {
      NothingBefore(b);
      NothingBefore(MovedOf(b, from));
    } else {
      HeadAndTail(a, b);
      MovedOfAppends(a[1..], b, from + LengthOf(a[0]));
      var head := match a[0]
        case Original(_) => []
        case Written(e, _) => [Moved(e.start, e.end, from, from + LengthOf(a[0]))];
      Regroup(head, MovedOf(a[1..], from + LengthOf(a[0])), MovedOf(b, from + WrittenLength(a)));
    }
  }

  /** What is rendered so far, and what the scan of the edits left would add to it. */
  function Then(done: seq<Segment>, more: Rendering<seq<Segment>>): Rendering<seq<Segment>> {
    match more
    case Overlap => Overlap
    case Rendered(segments) => Rendered(done + segments)
  }

  /** A replacement's pieces, each stretch it keeps rendered with the edits inside. */
  method WriteParts(source: string, inside: seq<Edit>, e: Edit) returns (threw: bool, text: string)
    requires AreEditsOf(inside, |source|) && KeepsWithin(e.parts, |source|)
    ensures threw == RenderParts(source, inside, e, e.parts).Overlap?
    ensures !threw ==> text == RenderParts(source, inside, e, e.parts).value
    decreases |Others(inside, Some(e))|, 3
  {
    threw := false;
    text := [];
    ghost var all := RenderParts(source, inside, e, e.parts);
    assert e.parts[0..] == e.parts;
    if all.Rendered? {
      NothingBefore(all.value);
    }
    for i := 0 to |e.parts|
      invariant !threw
      invariant RenderParts(source, inside, e, e.parts)
             == match RenderParts(source, inside, e, e.parts[i..])
                case Overlap => Overlap
                case Rendered(more) => Rendered(text + more)
    {
      assert e.parts[i] in e.parts;
      assert e.parts[i..][0] == e.parts[i] && e.parts[i..][1..] == e.parts[i + 1..];
      var piece: string;
      match e.parts[i] {
        case Text(t) => piece := t;
        case Keep(span) =>
          var moved;
          threw, piece, moved := RenderRange(source, inside, span, Some(e));
          if threw {
            return;
          }
      }
      ghost var rest := RenderParts(source, inside, e, e.parts[i + 1..]);
      if rest.Rendered? {
        Regroup(text, piece, rest.value);
      }
      text := text + piece;
    }
  }

  /**
   * The text `Render` specifies, written edit by edit, and a record of each edit written; `threw` where two overlap.
   */
  method RenderRange(source: string, edits: seq<Edit>, range: Span, parent: Option<Edit>)
    returns (threw: bool, written: string, moved: seq<Moved>)
    requires AreEditsOf(edits, |source|) && range.start <= range.end <= |source|
    ensures threw == Render(source, edits, range, parent).Overlap?
    ensures !threw ==>
              && written == TextOf(source, Render(source, edits, range, parent).value)
              && moved == MovedOf(Render(source, edits, range, parent).value, 0)
    decreases |Others(edits, parent)|, 2
  {
    InsideIsFewer(edits, range, parent);
    InsideAreEdits(edits, range, parent);
    threw, written, moved := ScanRange(source, Inside(edits, range, parent), range);
  }

  /** Each edit of `inside` in turn, and the stretches between. */
  method ScanRange(source: string, inside: seq<Edit>, range: Span)
    returns (threw: bool, written: string, moved: seq<Moved>)
    requires AreEditsOf(inside, |source|) && range.start <= range.end <= |source|
    requires forall e :: e in inside ==> e.end <= range.end
    ensures var r := Scan(source, inside, inside, range.start, range.end);
            && threw == r.Overlap?
            && (!threw ==> written == TextOf(source, r.value) && moved == MovedOf(r.value, 0))
    decreases |inside|, 1
  {
    hide RenderParts, Gap, TextOf, MovedOf;
    var at: nat := range.start;
    threw, written, moved := false, [], [];
    ghost var done: seq<Segment> := [];
    NoneDone(source);
    ghost var all := Scan(source, inside, inside, at, range.end);
    ghost var left := all;
    ThenNothing(all);
    assert inside[0..] == inside;
    for i := 0 to |inside|
      invariant !threw && at <= range.end
      invariant IsDone(source, done, written, moved)
      invariant left == Scan(source, inside, inside[i..], at, range.end) && all == Then(done, left)
    {
      var e := inside[i];
      assert e in inside && inside[i..][0] == e && inside[i..][1..] == inside[i + 1..];
      if e.start < at {
        if e.end > at {
          threw := true;
          return;
        }
      } else {
        OthersIsFewer(inside, e);
        var text;
        threw, text := WriteParts(source, inside, e);
        if threw {
          return;
        }
        ghost var rest := Scan(source, inside, inside[i + 1..], e.end, range.end);
        ghost var step := Gap(at, e.start) + [Written(e, text)];
        StepIs(source, inside, i, at, range.end, text);
        StepIsDone(source, done, written, moved, at, e, text);
        StepThen(done, step, rest);
        written := written + source[at..e.start];
        var from := |written|;
        written := written + text;
        moved := moved + [Moved(e.start, e.end, from, |written|)];
        done, left := done + step, rest;
        at := e.end;
      }
    }
    assert inside[|inside|..] == [];
    LastStretch(source, done, at, range.end);
    written := written + source[at..range.end];
  }

  lemma NoneDone(source: string)
    ensures IsDone(source, [], [], [])
  {
  }

  lemma StepIs(source: string, inside: seq<Edit>, i: nat, at: nat, end: nat, text: string)
    requires AreEditsOf(inside, |source|) && at <= end <= |source| && i < |inside|
    requires forall e :: e in inside ==> e.end <= end
    requires inside[i] in inside && at <= inside[i].start
    requires RenderParts(source, inside, inside[i], inside[i].parts) == Rendered(text)
    ensures Scan(source, inside, inside[i..], at, end)
         == Then(Gap(at, inside[i].start) + [Written(inside[i], text)],
                 Scan(source, inside, inside[i + 1..], inside[i].end, end))
  {
    assert inside[i..][0] == inside[i] && inside[i..][1..] == inside[i + 1..];
  }

  lemma ThenNothing(more: Rendering<seq<Segment>>)
    ensures Then([], more) == more
  {
    if more.Rendered? {
      NothingBefore(more.value);
    }
  }

  lemma LastStretch(source: string, done: seq<Segment>, at: nat, end: nat)
    requires SegmentsOf(source, done) && at <= end <= |source|
    ensures TextOf(source, done + Gap(at, end)) == TextOf(source, done) + source[at..end]
    ensures MovedOf(done + Gap(at, end), 0) == MovedOf(done, 0)
  {
    TextOfAppends(source, done, Gap(at, end));
    TextOfGap(source, at, end);
    MovedOfAppends(done, Gap(at, end), 0);
    assert Gap(at, end)[1..] == [];
  }

  lemma StepMoves(done: seq<Segment>, at: nat, e: Edit, text: string)
    requires at <= e.start
    ensures var step := Gap(at, e.start) + [Written(e, text)];
            var from := WrittenLength(done) + (e.start - at);
            && WrittenLength(done + step) == from + |text|
            && MovedOf(done + step, 0) == MovedOf(done, 0) + [Moved(e.start, e.end, from, from + |text|)]
  {
    var gap, put := Gap(at, e.start), [Written(e, text)];
    var n := WrittenLength(done);
    assert gap[1..] == [] && put[1..] == [];
    assert WrittenLength(gap) == e.start - at && WrittenLength(put) == |text|;
    MovedOfAppends(gap, put, n);
    MovedOfAppends(done, gap + put, 0);
    assert MovedOf(gap, n) == [] && MovedOf(put[1..], n + (e.start - at) + |text|) == [];
  }

  lemma StepWrites(source: string, done: seq<Segment>, at: nat, e: Edit, text: string)
    requires SegmentsOf(source, done) && at <= e.start <= |source|
    ensures TextOf(source, done + (Gap(at, e.start) + [Written(e, text)]))
         == TextOf(source, done) + source[at..e.start] + text
  {
    var gap, put := Gap(at, e.start), [Written(e, text)];
    assert put[1..] == [];
    NothingAfter(text);
    TextOfAppends(source, gap, put);
    TextOfAppends(source, done, gap + put);
    TextOfGap(source, at, e.start);
    Regroup(TextOf(source, done), source[at..e.start], text);
  }

  /** The stretches written so far, their text, and where each edit of them went. */
  ghost predicate IsDone(source: string, done: seq<Segment>, written: string, moved: seq<Moved>) {
    && SegmentsOf(source, done) && written == TextOf(source, done)
    && moved == MovedOf(done, 0) && |written| == WrittenLength(done)
  }

  lemma StepIsDone(
    source: string, done: seq<Segment>, written: string, moved: seq<Moved>, at: nat, e: Edit, text: string)
    requires IsDone(source, done, written, moved) && at <= e.start <= |source|
    ensures var from := |written| + (e.start - at);
            IsDone(source, done + (Gap(at, e.start) + [Written(e, text)]), written + source[at..e.start] + text,
                   moved + [Moved(e.start, e.end, from, from + |text|)])
  {
    StepWrites(source, done, at, e, text);
    StepMoves(done, at, e, text);
  }

  lemma StepThen(done: seq<Segment>, step: seq<Segment>, more: Rendering<seq<Segment>>)
    ensures Then(done + step, more) == Then(done, Then(step, more))
  {
    if more.Rendered? {
      Regroup(done, step, more.value);
    }
  }

  /**
   * The edits of a source applied: the splice of them, with where each offset of it was. Throws exactly where a live
   * edit crosses another, at the top or in what live edits keep, and so never where no two cross.
   */
  method ApplyEdits(source: string, edits: seq<Edit>) returns (threw: bool, text: string, moved: seq<Moved>)
    requires AreEditsOf(edits, |source|) && AsAsked(edits)
    ensures threw <==> LiveCrosses(edits, Span(0, |source|), None)
    ensures NoneCross(edits) ==> !threw
    ensures !threw ==> EditedText(source, edits).Rendered? && text == EditedText(source, edits).value.text
    ensures !threw ==> text == Splice(source, edits, Span(0, |source|), None)
    ensures !threw ==> forall at: nat :: EditedText(source, edits).value.sourceOffset(at) == SourceOffset(moved, at)
  {
    OrderedHolds(edits);
    threw, text, moved := RenderRange(source, Ordered(edits), Span(0, |source|), None);
    OverlapsExactly(source, edits);
    if NoneCross(edits) {
      NoneCrossSplices(source, edits);
    }
    if !threw {
      EditedIsSplice(source, edits);
    }
  }
}
