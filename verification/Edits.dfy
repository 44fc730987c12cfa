/** A source and the edits asked of it: the order they are scanned in, and the stretches they leave of it. */
module Edits {
  import opened Options

  /** What a replacement is made of, in order: `Text` is written as it is, `Keep` renders a span of the source anew. */
  datatype Part = Text(text: string) | Keep(span: Span)

  datatype Span = Span(start: nat, end: nat)

  /** A replacement of a range; `id` tells apart edits written alike, and counts the edits asked for before it. */
  datatype Edit = Edit(id: nat, start: nat, end: nat, parts: seq<Part>)

  predicate IsInsertion(e: Edit) {
    e.start == e.end
  }

  // ----- order -----

  /** Whether `a` is scanned first: by start; where they tie, insertions by falling id, then the longer replacement. */
  predicate Before(a: Edit, b: Edit) {
    a.start < b.start ||
    (a.start == b.start &&
     if IsInsertion(a) then !IsInsertion(b) || a.id > b.id
     else !IsInsertion(b) && (a.end > b.end || (a.end == b.end && a.id < b.id)))
  }

  function Insert(e: Edit, sorted: seq<Edit>): seq<Edit> {
    if sorted == [] || Before(e, sorted[0]) then [e] + sorted else [sorted[0]] + Insert(e, sorted[1..])
  }

  function Ordered(edits: seq<Edit>): seq<Edit> {
    if edits == [] then [] else Insert(edits[0], Ordered(edits[1..]))
  }

  // ----- rendering -----

  function Slice(source: string, from: nat, to: nat): string
    requires to <= |source|
  {
    if from <= to then source[from..to] else []
  }

  /** Whether `e` is one `range` is rendered with: its own parent, and an insertion at the parent's edges, are not. */
  predicate Within(e: Edit, range: Span, parent: Option<Edit>) {
    (parent.Some? ==> e != parent.value) &&
    range.start <= e.start && e.end <= range.end &&
    !(parent.Some? && IsInsertion(e) && (e.start == parent.value.start || e.start == parent.value.end))
  }

  function Inside(edits: seq<Edit>, range: Span, parent: Option<Edit>): seq<Edit> {
    if edits == [] then []
    else (if Within(edits[0], range, parent) then [edits[0]] else []) + Inside(edits[1..], range, parent)
  }

  /** `edits` but for `parent`, which each nested rendering has one fewer of. */
  function Others(edits: seq<Edit>, parent: Option<Edit>): seq<Edit> {
    if edits == [] then []
    else (if parent == Some(edits[0]) then [] else [edits[0]]) + Others(edits[1..], parent)
  }

  lemma {:induction false} InsideIsFewer(edits: seq<Edit>, range: Span, parent: Option<Edit>)
    ensures |Inside(edits, range, parent)| <= |Others(edits, parent)|
  {
    if edits != [] {
      InsideIsFewer(edits[1..], range, parent);
    }
  }

  lemma {:induction false} OthersIsFewer(edits: seq<Edit>, e: Edit)
    ensures |Others(edits, Some(e))| <= |edits|
    ensures e in edits ==> |Others(edits, Some(e))| < |edits|
  {
    if edits != [] {
      OthersIsFewer(edits[1..], e);
    }
  }

  /** A stretch of a rendered text: original text, or what an edit wrote in place of its range. */
  datatype Segment = Original(span: Span) | Written(edit: Edit, text: string)

  /** A rendering, in order, or that two edits overlap with neither holding the other. */
  datatype Rendering<T> = Overlap | Rendered(value: T)

  predicate KeepsWithin(parts: seq<Part>, length: nat) {
    forall p :: p in parts && p.Keep? ==> p.span.start <= p.span.end <= length
  }

  predicate IsEditOf(e: Edit, length: nat) {
    e.start <= e.end <= length && KeepsWithin(e.parts, length)
  }

  /** Each edit is of a source of `length` characters, and keeps stretches of it. */
  predicate AreEditsOf(edits: seq<Edit>, length: nat) {
    forall e :: e in edits ==> IsEditOf(e, length)
  }

  lemma {:induction false} InsideAreEdits(edits: seq<Edit>, range: Span, parent: Option<Edit>)
    ensures forall e :: e in Inside(edits, range, parent) <==> e in edits && Within(e, range, parent)
  {
    if edits != [] {
      InsideAreEdits(edits[1..], range, parent);
    }
  }

  function TextOf(source: string, segments: seq<Segment>): string
    requires SegmentsOf(source, segments)
  {
    if segments == [] then []
    else
      (match segments[0]
       case Original(span) => source[span.start..span.end]
       case Written(_, text) => text)
      + TextOf(source, segments[1..])
  }

  predicate SegmentsOf(source: string, segments: seq<Segment>) {
    forall s :: s in segments && s.Original? ==> s.span.start <= s.span.end <= |source|
  }

  /** The stretch of `source` not replaced up to the next edit. */
  function Gap(from: nat, to: nat): seq<Segment> {
    if from <= to then [Original(Span(from, to))] else []
  }

  /** The stretches `edits`, sorted, leave of a span of `source`; `parent` is the edit it is rendered for, if any. */
  function Render(source: string, edits: seq<Edit>, range: Span, parent: Option<Edit>): (r: Rendering<seq<Segment>>)
    requires AreEditsOf(edits, |source|) && range.start <= range.end <= |source|
    ensures r.Rendered? ==> SegmentsOf(source, r.value)
    decreases |Others(edits, parent)|, 2, 0
  {
    InsideIsFewer(edits, range, parent);
    InsideAreEdits(edits, range, parent);
    var inside := Inside(edits, range, parent);
    Scan(source, inside, inside, range.start, range.end)
  }

  /** The edits `left` of `inside` applied from `at` on: one inside a range already replaced is moot. */
  function Scan(source: string, inside: seq<Edit>, left: seq<Edit>, at: nat, end: nat): (r: Rendering<seq<Segment>>)
    requires AreEditsOf(inside, |source|) && at <= end <= |source|
    requires forall e :: e in left ==> e in inside && e.end <= end
    ensures r.Rendered? ==> SegmentsOf(source, r.value)
    decreases |inside|, 1, |left|
  {
    if left == [] then Rendered(Gap(at, end))
    else
      var e := left[0];
      assert e in left;
      if e.start < at then
        if e.end > at then Overlap else Scan(source, inside, left[1..], at, end)
      else
        OthersIsFewer(inside, e);
        match RenderParts(source, inside, e, e.parts)
        case Overlap => Overlap
        case Rendered(text) =>
          match Scan(source, inside, left[1..], e.end, end)
          case Overlap => Overlap
          case Rendered(more) => Rendered(Gap(at, e.start) + [Written(e, text)] + more)
  }

  /** What `e` writes: its text, and each stretch it keeps with the edits inside applied. */
  function RenderParts(source: string, inside: seq<Edit>, e: Edit, parts: seq<Part>): Rendering<string>
    requires AreEditsOf(inside, |source|) && KeepsWithin(parts, |source|)
    decreases |Others(inside, Some(e))|, 3, |parts|
  {
    if parts == [] then Rendered([])
    else
      assert parts[0] in parts;
      var first :=
        match parts[0]
        case Text(text) => Rendered(text)
        case Keep(span) =>
          match Render(source, inside, span, Some(e))
          case Overlap => Overlap
          case Rendered(segments) => Rendered(TextOf(source, segments));
      match first
      case Overlap => Overlap
      case Rendered(text) =>
        match RenderParts(source, inside, e, parts[1..])
        case Overlap => Overlap
        case Rendered(more) => Rendered(text + more)
  }

  /** What a list of edits makes of `source`, or that they overlap. */
  function EditedSegments(source: string, edits: seq<Edit>): (r: Rendering<seq<Segment>>)
    requires AreEditsOf(edits, |source|)
    ensures r.Rendered? ==> SegmentsOf(source, r.value)
  {
    OrderedHolds(edits);
    Render(source, Ordered(edits), Span(0, |source|), None)
  }

  lemma {:induction false} InsertHolds(e: Edit, sorted: seq<Edit>)
    ensures forall x :: x in Insert(e, sorted) <==> x == e || x in sorted
  {
    if sorted != [] {
      InsertHolds(e, sorted[1..]);
      assert forall x :: x in sorted <==> x == sorted[0] || x in sorted[1..];
    }
  }

  lemma {:induction false} OrderedHolds(edits: seq<Edit>)
    ensures forall x :: x in Ordered(edits) <==> x in edits
  {
    if edits != [] {
      OrderedHolds(edits[1..]);
      InsertHolds(edits[0], Ordered(edits[1..]));
      assert forall x :: x in edits <==> x == edits[0] || x in edits[1..];
    }
  }
}
