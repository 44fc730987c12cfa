/** Where each offset of an edited text was in the text the edits read. */
module EditOffsets {
  import opened Options
  import opened Edits
  import opened Sequences

  /** An edit written: `start` and `end` count in the source, `from` and `to` in the result. */
  datatype Moved = Moved(start: nat, end: nat, from: nat, to: nat)

  function LengthOf(s: Segment): nat {
    match s
    case Original(span) => if span.start <= span.end then span.end - span.start else 0
    case Written(_, text) => |text|
  }

  /** Each edit written, in order, `from` counting what was written before. */
  function MovedOf(segments: seq<Segment>, from: nat): seq<Moved> {
    if segments == [] then []
    else
      var to := from + LengthOf(segments[0]);
      (match segments[0]
       case Original(_) => []
       case Written(e, _) => [Moved(e.start, e.end, from, to)])
      + MovedOf(segments[1..], to)
  }

  /** The last of `moved` at or before `at`. */
  function LastBefore(moved: seq<Moved>, at: nat): (r: Option<Moved>)
    ensures r.Some? ==> r.value in moved && r.value.from <= at
  {
    if moved == [] then None
    else if moved[|moved| - 1].from <= at then Some(moved[|moved| - 1])
    else LastBefore(moved[..|moved| - 1], at)
  }

  /**
   * Where `at` of the result was: the start of the edit whose text it is in, or as far past the last edit as it is now.
   */
  function SourceOffset(moved: seq<Moved>, at: nat): int {
    match LastBefore(moved, at)
    case None => at
    case Some(edit) => if at < edit.to then edit.start else edit.end + at - edit.to
  }

  // ----- segments in order -----

  /** Each stretch starts where the one before it ended, `at` first, and the last ends at `end`. */
  predicate Contiguous(segments: seq<Segment>, at: nat, end: nat) {
    if segments == [] then at == end
    else
      match segments[0]
      case Original(span) => span.start == at <= span.end && Contiguous(segments[1..], span.end, end)
      case Written(e, _) => e.start == at <= e.end && Contiguous(segments[1..], e.end, end)
  }

  lemma {:induction false} ContiguousAppends(a: seq<Segment>, b: seq<Segment>, at: nat, mid: nat, end: nat)
    requires Contiguous(a, at, mid) && Contiguous(b, mid, end)
    ensures Contiguous(a + b, at, end)
  {
    if a == [] {
      NothingBefore(b);
    } else {
      HeadAndTail(a, b);
      ContiguousAppends(a[1..], b, match a[0] case Original(s) => s.end case Written(e, _) => e.end, mid, end);
    }
  }

  lemma {:induction false} ScanIsContiguous(source: string, inside: seq<Edit>, left: seq<Edit>, at: nat, end: nat)
    requires AreEditsOf(inside, |source|) && at <= end <= |source|
    requires forall e :: e in left ==> e in inside && e.end <= end
    requires Scan(source, inside, left, at, end).Rendered?
    ensures Contiguous(Scan(source, inside, left, at, end).value, at, end)
    decreases |left|
  {
    if left == [] {
      assert Contiguous(Gap(at, end)[1..], end, end);
    } else {
      var e := left[0];
      assert e in left;
      if e.start < at {
        ScanIsContiguous(source, inside, left[1..], at, end);
      } else {
        ScanIsContiguous(source, inside, left[1..], e.end, end);
        var text := RenderParts(source, inside, e, e.parts).value;
        var more := Scan(source, inside, left[1..], e.end, end).value;
        var step := [Written(e, text)];
        assert Contiguous(step[1..], e.end, e.end);
        assert Contiguous(step, e.start, e.end);
        assert Contiguous(Gap(at, e.start)[1..], e.start, e.start);
        assert Contiguous(Gap(at, e.start), at, e.start);
        ContiguousAppends(Gap(at, e.start), step, at, e.start, e.end);
        ContiguousAppends(Gap(at, e.start) + step, more, at, e.end, end);
      }
    }
  }

  // ----- the offset, stretch by stretch -----

  /** The offset read off the stretches: `at` counts from the first of them, which starts at `pos` of the source. */
  function OffsetIn(segments: seq<Segment>, pos: nat, at: nat): nat {
    if segments == [] then pos + at
    else
      match segments[0]
      case Original(span) =>
        if at < LengthOf(segments[0]) then pos + at
        else OffsetIn(segments[1..], span.end, at - LengthOf(segments[0]))
      case Written(e, text) => if at < |text| then e.start else OffsetIn(segments[1..], e.end, at - |text|)
  }

  lemma {:induction false} LastBeforeAppends(a: seq<Moved>, b: seq<Moved>, at: nat)
    ensures LastBefore(a + b, at) == if LastBefore(b, at).Some? then LastBefore(b, at) else LastBefore(a, at)
    decreases |b|
  {
    if b == [] {
      NothingAfter(a);
    } else {
      LastBeforeAppends(a, b[..|b| - 1], at);
      assert (a + b)[..|a + b| - 1] == a + b[..|b| - 1];
    }
  }

  lemma {:induction false} MovedStartLater(segments: seq<Segment>, from: nat)
    ensures forall m :: m in MovedOf(segments, from) ==> m.from >= from
  {
    if segments != [] {
      MovedStartLater(segments[1..], from + LengthOf(segments[0]));
    }
  }

  lemma {:induction false} NoneBefore(moved: seq<Moved>, at: nat)
    requires forall m :: m in moved ==> m.from > at
    ensures LastBefore(moved, at).None?
  {
    if moved != [] {
      assert moved[|moved| - 1] in moved;
      assert forall m :: m in moved[..|moved| - 1] ==> m in moved;
      NoneBefore(moved[..|moved| - 1], at);
    }
  }

  /** What the map says of an offset from `from` on, where the stretches written from there are `segments`. */
  ghost function MappedFrom(segments: seq<Segment>, from: nat, pos: nat, at: nat): int
    requires from <= at
  {
    match LastBefore(MovedOf(segments, from), at)
    case None => pos + (at - from)
    case Some(edit) => if at < edit.to then edit.start else edit.end + at - edit.to
  }

  /** What a map with `rest` of it from `to` on says, its first entry an edit's. */
  lemma MappedPastEdit(first: Moved, rest: seq<Moved>, at: nat)
    requires first.from <= at && forall m :: m in rest ==> m.from >= first.to
    ensures LastBefore([first] + rest, at)
         == if at >= first.to && LastBefore(rest, at).Some? then LastBefore(rest, at) else Some(first)
  {
    LastBeforeAppends([first], rest, at);
    if at < first.to {
      NoneBefore(rest, at);
    }
    assert [first][..0] == [];
  }

  lemma MappedOriginal(segments: seq<Segment>, from: nat, pos: nat, end: nat, at: nat)
    requires segments != [] && segments[0].Original? && Contiguous(segments, pos, end) && from <= at
    requires var to, next := from + LengthOf(segments[0]), segments[0].span.end;
             at >= to ==> MappedFrom(segments[1..], to, next, at) == OffsetIn(segments[1..], next, at - to)
    ensures MappedFrom(segments, from, pos, at) == OffsetIn(segments, pos, at - from)
  {
    var to := from + LengthOf(segments[0]);
    var rest := MovedOf(segments[1..], to);
    MovedStartLater(segments[1..], to);
    NothingBefore(rest);
    if at < to {
      NoneBefore(rest, at);
    }
  }

  lemma MappedWritten(segments: seq<Segment>, from: nat, pos: nat, at: nat)
    requires segments != [] && segments[0].Written? && from <= at
    requires var to, next := from + LengthOf(segments[0]), segments[0].edit.end;
             at >= to ==> MappedFrom(segments[1..], to, next, at) == OffsetIn(segments[1..], next, at - to)
    ensures MappedFrom(segments, from, pos, at) == OffsetIn(segments, pos, at - from)
  {
    hide OffsetIn;
    var e, to := segments[0].edit, from + LengthOf(segments[0]);
    var first, rest := Moved(e.start, e.end, from, to), MovedOf(segments[1..], to);
    MovedStartLater(segments[1..], to);
    var last := LastBefore(rest, at);
    MappedPastEdit(first, rest, at);
    assert LastBefore(MovedOf(segments, from), at) == if at >= to && last.Some? then last else Some(first);
    OffsetInWritten(segments, pos, at - from);
  }

  lemma OffsetInWritten(segments: seq<Segment>, pos: nat, k: nat)
    requires segments != [] && segments[0].Written?
    ensures OffsetIn(segments, pos, k)
         == if k < LengthOf(segments[0]) then segments[0].edit.start
            else OffsetIn(segments[1..], segments[0].edit.end, k - LengthOf(segments[0]))
  {
  }

  lemma {:induction false} MappedIsOffset(segments: seq<Segment>, from: nat, pos: nat, end: nat, at: nat)
    requires Contiguous(segments, pos, end) && from <= at
    ensures MappedFrom(segments, from, pos, at) == OffsetIn(segments, pos, at - from)
    decreases |segments|
  {
    if segments != [] {
      var to := from + LengthOf(segments[0]);
      var next := match segments[0] case Original(s) => s.end case Written(e, _) => e.end;
      if at >= to {
        MappedIsOffset(segments[1..], to, next, end, at);
      }
      if segments[0].Original? {
        MappedOriginal(segments, from, pos, end, at);
      } else {
        MappedWritten(segments, from, pos, at);
      }
    }
  }

  lemma OffsetIsRead(segments: seq<Segment>, end: nat, at: nat)
    requires Contiguous(segments, 0, end)
    ensures SourceOffset(MovedOf(segments, 0), at) == OffsetIn(segments, 0, at)
  {
    MappedIsOffset(segments, 0, 0, end, at);
  }

  // ----- what the map keeps -----

  /** Whether the character at `at` is one of the source's, written by no edit. */
  predicate IsOriginal(segments: seq<Segment>, at: nat) {
    segments != [] &&
    if at < LengthOf(segments[0]) then segments[0].Original?
    else IsOriginal(segments[1..], at - LengthOf(segments[0]))
  }

  lemma {:induction false} OffsetInBounds(segments: seq<Segment>, pos: nat, end: nat, at: nat)
    requires Contiguous(segments, pos, end)
    ensures pos <= OffsetIn(segments, pos, at)
    ensures at <= WrittenLength(segments) ==> OffsetIn(segments, pos, at) <= end
    decreases |segments|
  {
    if segments != [] && at >= LengthOf(segments[0]) {
      var next := match segments[0] case Original(s) => s.end case Written(e, _) => e.end;
      OffsetInBounds(segments[1..], next, end, at - LengthOf(segments[0]));
    } else if segments != [] {
      EndIsLater(segments[1..], match segments[0] case Original(s) => s.end case Written(e, _) => e.end, end);
    }
  }

  lemma {:induction false} EndIsLater(segments: seq<Segment>, pos: nat, end: nat)
    requires Contiguous(segments, pos, end)
    ensures pos <= end
    decreases |segments|
  {
    if segments != [] {
      EndIsLater(segments[1..], match segments[0] case Original(s) => s.end case Written(e, _) => e.end, end);
    }
  }

  function WrittenLength(segments: seq<Segment>): nat {
    if segments == [] then 0 else LengthOf(segments[0]) + WrittenLength(segments[1..])
  }

  lemma {:induction false} OffsetIsMonotone(segments: seq<Segment>, pos: nat, end: nat, a: nat, b: nat)
    requires Contiguous(segments, pos, end) && a <= b
    ensures OffsetIn(segments, pos, a) <= OffsetIn(segments, pos, b)
    decreases |segments|
  {
    if segments != [] {
      var n := LengthOf(segments[0]);
      var next := match segments[0] case Original(s) => s.end case Written(e, _) => e.end;
      if a >= n {
        OffsetIsMonotone(segments[1..], next, end, a - n, b - n);
      } else if b >= n {
        OffsetInBounds(segments[1..], next, end, b - n);
      }
    }
  }

  lemma {:induction false} LengthIsWritten(source: string, segments: seq<Segment>, pos: nat, end: nat)
    requires SegmentsOf(source, segments) && Contiguous(segments, pos, end)
    ensures |TextOf(source, segments)| == WrittenLength(segments)
    decreases |segments|
  {
    if segments != [] {
      assert segments[0] in segments;
      assert forall s :: s in segments[1..] ==> s in segments;
      var next := match segments[0] case Original(s) => s.end case Written(e, _) => e.end;
      LengthIsWritten(source, segments[1..], next, end);
    }
  }

  lemma TextThen(source: string, segments: seq<Segment>, pos: nat, end: nat, at: nat)
    requires segments != [] && SegmentsOf(source, segments) && Contiguous(segments, pos, end) && end <= |source|
    requires at < |TextOf(source, segments)|
    ensures var n := LengthOf(segments[0]);
            if at >= n then at - n < |TextOf(source, segments[1..])|
                            && TextOf(source, segments)[at] == TextOf(source, segments[1..])[at - n]
            else segments[0].Original? ==> pos + at < |source| && TextOf(source, segments)[at] == source[pos + at]
  {
    assert segments[0] in segments;
    assert forall s :: s in segments[1..] ==> s in segments;
    EndIsLater(segments, pos, end);
    EndIsLater(segments[1..], match segments[0] case Original(s) => s.end case Written(e, _) => e.end, end);
  }

  lemma {:induction false} OriginalIsKept(source: string, segments: seq<Segment>, pos: nat, end: nat, at: nat)
    requires SegmentsOf(source, segments) && Contiguous(segments, pos, end) && end <= |source|
    requires at < |TextOf(source, segments)| && IsOriginal(segments, at)
    ensures OffsetIn(segments, pos, at) < |source|
    ensures TextOf(source, segments)[at] == source[OffsetIn(segments, pos, at)]
    decreases |segments|
  {
    assert forall s :: s in segments[1..] ==> s in segments;
    var n := LengthOf(segments[0]);
    var next := match segments[0] case Original(s) => s.end case Written(e, _) => e.end;
    TextThen(source, segments, pos, end, at);
    if at >= n {
      OriginalIsKept(source, segments[1..], next, end, at - n);
    }
  }

  /** The stretch holding the character at `at`, which counts from the first of them. */
  function SegmentAt(segments: seq<Segment>, at: nat): Segment
    requires at < WrittenLength(segments)
  {
    if at < LengthOf(segments[0]) then segments[0] else SegmentAt(segments[1..], at - LengthOf(segments[0]))
  }

  /** The offset read off a written stretch is the start of that stretch's own edit. */
  lemma {:induction false} WrittenMapsToStart(segments: seq<Segment>, pos: nat, end: nat, at: nat)
    requires Contiguous(segments, pos, end) && at < WrittenLength(segments)
    ensures SegmentAt(segments, at) in segments
    ensures SegmentAt(segments, at).Written? <==> !IsOriginal(segments, at)
    ensures SegmentAt(segments, at).Written? ==> OffsetIn(segments, pos, at) == SegmentAt(segments, at).edit.start
    decreases |segments|
  {
    var n := LengthOf(segments[0]);
    var next := match segments[0] case Original(s) => s.end case Written(e, _) => e.end;
    if at >= n {
      WrittenMapsToStart(segments[1..], next, end, at - n);
      assert SegmentAt(segments[1..], at - n) in segments;
    } else {
      assert segments[0] in segments;
    }
  }

  // ----- passes -----

  /** What one pass over a text leaves: the new text, and a map from its offsets back to the old text's. */
  datatype Pass = Pass(text: string, sourceOffset: nat -> int)

  function Unedited(text: string): Pass {
    Pass(text, (at: nat) => at)
  }

  function EditedText(source: string, edits: seq<Edit>): (r: Rendering<Pass>)
    requires AreEditsOf(edits, |source|)
  {
    match EditedSegments(source, edits)
    case Overlap => Overlap
    case Rendered(segments) =>
      Rendered(Pass(TextOf(source, segments), (at: nat) => SourceOffset(MovedOf(segments, 0), at)))
  }

  /** Two passes in turn, the second's map read through the first's. */
  function Followed(first: Pass, second: Pass): Pass {
    Pass(second.text, (at: nat) => var mid := second.sourceOffset(at);
         if mid >= 0 then first.sourceOffset(mid) else mid)
  }

  /** The map never goes back, never leaves the source, and reads each character in `kept` off where it was. */
  ghost predicate MapsTo(pass: Pass, source: string, kept: nat -> bool) {
    && (forall a: nat, b: nat :: a <= b <= |pass.text| ==> pass.sourceOffset(a) <= pass.sourceOffset(b))
    && (forall a: nat :: a <= |pass.text| ==> 0 <= pass.sourceOffset(a) <= |source|)
    && (forall a: nat :: a < |pass.text| && kept(a) ==>
          pass.sourceOffset(a) < |source| && pass.text[a] == source[pass.sourceOffset(a)])
  }

  /** A pass maps each offset of its text into its source, in order, and each character no edit wrote to itself. */
  lemma EditedMapsTo(source: string, edits: seq<Edit>)
    requires AreEditsOf(edits, |source|) && EditedSegments(source, edits).Rendered?
    ensures var segments := EditedSegments(source, edits).value;
            MapsTo(EditedText(source, edits).value, source, (at: nat) => IsOriginal(segments, at))
  {
    var segments := EditedSegments(source, edits).value;
    var pass := EditedText(source, edits).value;
    OrderedHolds(edits);
    var whole := Span(0, |source|);
    InsideAreEdits(Ordered(edits), whole, None);
    var inside := Inside(Ordered(edits), whole, None);
    ScanIsContiguous(source, inside, inside, 0, |source|);
    LengthIsWritten(source, segments, 0, |source|);
    forall a: nat | a <= |pass.text|
      ensures pass.sourceOffset(a) == OffsetIn(segments, 0, a) && 0 <= pass.sourceOffset(a) <= |source|
    {
      OffsetIsRead(segments, |source|, a);
      OffsetInBounds(segments, 0, |source|, a);
    }
    forall a: nat, b: nat | a <= b <= |pass.text| ensures pass.sourceOffset(a) <= pass.sourceOffset(b) {
      OffsetIsMonotone(segments, 0, |source|, a, b);
    }
    forall a: nat | a < |pass.text| && IsOriginal(segments, a)
      ensures pass.sourceOffset(a) < |source| && pass.text[a] == source[pass.sourceOffset(a)]
    {
      OriginalIsKept(source, segments, 0, |source|, a);
    }
  }

  /** An offset an edit wrote maps to where that very edit starts in the source: the one whose text holds it. */
  lemma EditedMapsWritten(source: string, edits: seq<Edit>, at: nat)
    requires AreEditsOf(edits, |source|) && EditedSegments(source, edits).Rendered?
    requires at < |EditedText(source, edits).value.text|
    ensures var segments := EditedSegments(source, edits).value;
            && at < WrittenLength(segments) && SegmentAt(segments, at) in segments
            && (SegmentAt(segments, at).Written? <==> !IsOriginal(segments, at))
            && (SegmentAt(segments, at).Written? ==>
                  EditedText(source, edits).value.sourceOffset(at) == SegmentAt(segments, at).edit.start)
  {
    var segments := EditedSegments(source, edits).value;
    OrderedHolds(edits);
    var whole := Span(0, |source|);
    InsideAreEdits(Ordered(edits), whole, None);
    var inside := Inside(Ordered(edits), whole, None);
    ScanIsContiguous(source, inside, inside, 0, |source|);
    LengthIsWritten(source, segments, 0, |source|);
    OffsetIsRead(segments, |source|, at);
    WrittenMapsToStart(segments, 0, |source|, at);
  }

  /** Passes run one after the other map as one does: a character both keep is read off where it first was. */
  lemma FollowedMapsTo(source: string, first: Pass, second: Pass, kept1: nat -> bool, kept2: nat -> bool)
    requires MapsTo(first, source, kept1) && MapsTo(second, first.text, kept2)
    ensures MapsTo(Followed(first, second), source,
                   (at: nat) => kept2(at) && second.sourceOffset(at) >= 0 && kept1(second.sourceOffset(at)))
  {
  }

  /** Two passes that leave the same text and map every offset alike. */
  ghost predicate SamePass(a: Pass, b: Pass) {
    a.text == b.text && forall at: nat :: a.sourceOffset(at) == b.sourceOffset(at)
  }

  /**
   * A pass that edits nothing is the identity of running passes in turn, and is what no edits at all make of a text.
   */
  lemma UneditedIsIdentity(source: string, pass: Pass)
    ensures SamePass(Followed(Unedited(source), pass), pass)
    ensures SamePass(Followed(pass, Unedited(pass.text)), pass)
    ensures EditedText(source, []).Rendered? && SamePass(EditedText(source, []).value, Unedited(source))
  {
    var whole := Original(Span(0, |source|));
    var segments := EditedSegments(source, []).value;
    assert segments == [whole];
    assert TextOf(source, segments[1..]) == [];
    assert MovedOf(segments[1..], |source|) == [];
  }
}
