// File offsets after sections have changed size, and splitting the output file by section.
module FileOffsets {
  import opened Words

  // ----- Placing the sections ------------------------------------------------------------------

  // The alignment of a section as a power of two, and the file sizes of its parts.
  datatype Section = Section(exponent: nat, parts: seq<nat>) {
    function Alignment(): nat { Pow2(exponent) }
  }

  datatype Event = SegmentStart(segment: nat) | Place(section: nat) | SegmentEnd(segment: nat)

  datatype Placed = Placed(offset: nat, size: nat, parts: seq<nat>) {
    function End(): nat { offset + size }
  }

  datatype Segment = Segment(id: nat, fileOffset: nat)

  function AlignUp(section: Section, offset: nat): nat {
    NextMultipleIsNext(offset, section.Alignment());
    NextMultiple(offset, section.Alignment())
  }

  // The file offset after the first n events.
  function OffsetAfter(sections: seq<Section>, order: seq<Event>, n: nat): nat
    requires n <= |order|
  {
    if n == 0 then 0
    else
      var before := OffsetAfter(sections, order, n - 1);
      match order[n - 1]
      case Place(s) => if s < |sections| then AlignUp(sections[s], before) + Sum(sections[s].parts) else before
      case _ => before
  }

  // Each part starts where the one before it ends.
  function PartOffsets(start: nat, sizes: seq<nat>): (r: seq<nat>)
    ensures |r| == |sizes|
  {
    if sizes == [] then [] else PartOffsets(start, sizes[..|sizes| - 1]) + [start + Sum(sizes[..|sizes| - 1])]
  }

  function PlacedAt(sections: seq<Section>, order: seq<Event>, k: nat): Placed
    requires k < |order| && order[k].Place? && order[k].section < |sections|
  {
    var section := sections[order[k].section];
    var start := AlignUp(section, OffsetAfter(sections, order, k));
    Placed(start, Sum(section.parts), PartOffsets(start, section.parts))
  }

  ghost predicate KnownSections(sections: seq<Section>, order: seq<Event>) {
    forall k :: 0 <= k < |order| && order[k].Place? ==> order[k].section < |sections|
  }

  ghost predicate PlacedOnce(order: seq<Event>) {
    forall j, k :: 0 <= j < k < |order| && order[j].Place? && order[k].Place? ==> order[j].section != order[k].section
  }

  // The segments that are left to start at event n: each event looks at the next one only.
  function SegmentsLeft(order: seq<Event>, segments: seq<Segment>, n: nat): (left: nat)
    requires n <= |order|
    ensures left <= |segments|
  {
    if n == 0 then |segments|
    else
      var left := SegmentsLeft(order, segments, n - 1);
      if left > 0 && order[n - 1] == SegmentStart(segments[|segments| - left].id) then left - 1 else left
  }

  // Event n starts a segment whose offset has moved.
  predicate Moves(sections: seq<Section>, order: seq<Event>, segments: seq<Segment>, n: nat)
    requires n < |order|
  {
    var left := SegmentsLeft(order, segments, n);
    left > 0 && order[n] == SegmentStart(segments[|segments| - left].id)
    && segments[|segments| - left].fileOffset != OffsetAfter(sections, order, n)
  }

  class OutputLayout {
    const sections: seq<Section>
    const segments: seq<Segment>
    var placed: map<nat, Placed>

    constructor (s: seq<Section>, g: seq<Segment>, p: map<nat, Placed>)
      ensures sections == s && segments == g && placed == p
    {
      sections, segments, placed := s, g, p;
    }

    // Refuses exactly when a segment would move. Otherwise every section in the order is placed where
    // OffsetAfter says, and sections that are not in the order stay where they were.
    method UpdateFileOffset(order: seq<Event>) returns (r: Result<()>)
      requires KnownSections(sections, order)
      modifies this`placed
      ensures r.Ok? <==> forall n :: 0 <= n < |order| ==> !Moves(sections, order, segments, n)
      ensures r.Ok? && PlacedOnce(order) ==> AllPlaced(sections, order, |order|, placed)
      ensures r.Ok? ==> forall s :: s in old(placed) && Place(s) !in order ==> s in placed && placed[s] == old(placed)[s]
    {
      hide AlignUp, Sum, PartOffsets, AllPlaced, PlacedOnce, OffsetAfter, SegmentsLeft;
      var fileOffset: nat := 0;
      var next := 0;
      NothingPlaced(sections, order, segments, placed);
      for n := 0 to |order|
        invariant fileOffset == OffsetAfter(sections, order, n)
        invariant 0 <= next <= |segments| && |segments| - next == SegmentsLeft(order, segments, n)
        invariant forall k :: 0 <= k < n ==> !Moves(sections, order, segments, k)
        invariant PlacedOnce(order) ==> AllPlaced(sections, order, n, placed)
        invariant forall s :: s in old(placed) && Place(s) !in order ==> s in placed && placed[s] == old(placed)[s]
      {
        var event := order[n];
        OneMoreEvent(sections, order, segments, n);
        if PlacedOnce(order) { PlacedMore(sections, order, n, placed); }
        if next < |segments| && event == SegmentStart(segments[next].id) {
          var segment := segments[next];
          next := next + 1;
          if segment.fileOffset != fileOffset {
            assert Moves(sections, order, segments, n);
            return Err("Segment moved due to debug info compression");
          }
        } else if event.Place? {
          var section := sections[event.section];
          var start := AlignUp(section, fileOffset);
          var end, parts := PlaceParts(start, section.parts);
          placed := placed[event.section := Placed(start, end - start, parts)];
          fileOffset := end;
        }
      }
      r := Ok(());
    }
  }

  // ----- Which segments are looked at ----------------------------------------------------------

  predicate Starts(order: seq<Event>, segments: seq<Segment>, n: nat, i: nat)
    requires n < |order| && i < |segments|
  {
    order[n] == SegmentStart(segments[i].id)
  }

  // The segment number i is looked for behind the event that started the one before it.
  function From(starts: seq<nat>, i: nat): nat
    requires i <= |starts|
  {
    if i == 0 then 0 else starts[i - 1] + 1
  }

  ghost predicate NoStart(order: seq<Event>, segments: seq<Segment>, i: nat, from: nat, to: nat)
    requires i < |segments| && to <= |order|
  {
    forall n :: from <= n < to ==> !Starts(order, segments, n, i)
  }

  // Segment number i starts at event starts[i], the first one that does from there on.
  ghost predicate StartsThere(order: seq<Event>, segments: seq<Segment>, starts: seq<nat>, i: nat)
    requires i < |starts| <= |segments|
  {
    From(starts, i) <= starts[i] < |order| && Starts(order, segments, starts[i], i)
    && NoStart(order, segments, i, From(starts, i), starts[i])
  }

  // So do all of them, and no event starts the segment behind the last of them.
  ghost predicate StartsAt(order: seq<Event>, segments: seq<Segment>, starts: seq<nat>) {
    && |starts| <= |segments| && (forall i :: 0 <= i < |starts| ==> starts[i] < |order|)
    && (forall i :: 0 <= i < |starts| ==> StartsThere(order, segments, starts, i))
    && (|starts| < |segments| ==> NoStart(order, segments, |starts|, From(starts, |starts|), |order|))
  }

  // The segments that started before event n are those at the front.
  ghost predicate Split(starts: seq<nat>, n: nat, k: nat) {
    && k <= |starts| && (forall i :: 0 <= i < k ==> starts[i] < n) && (forall i :: k <= i < |starts| ==> n <= starts[i])
  }

  lemma {:induction false} SplitAt(order: seq<Event>, segments: seq<Segment>, starts: seq<nat>, n: nat)
    requires StartsAt(order, segments, starts) && n <= |order|
    ensures Split(starts, n, |segments| - SegmentsLeft(order, segments, n))
  {
    if n > 0 {
      SplitAt(order, segments, starts, n - 1);
      var k := |segments| - SegmentsLeft(order, segments, n - 1);
      SplitMore(order, segments, starts, n - 1, k);
    }
  }

  lemma SplitMore(order: seq<Event>, segments: seq<Segment>, starts: seq<nat>, n: nat, k: nat)
    requires StartsAt(order, segments, starts) && n < |order| && Split(starts, n, k)
    ensures k < |segments| && Starts(order, segments, n, k) ==> k < |starts| && starts[k] == n && Split(starts, n + 1, k + 1)
    ensures !(k < |segments| && Starts(order, segments, n, k)) ==> Split(starts, n + 1, k)
  {
    StartedThere(order, segments, starts, n, k);
    hide Starts, StartsAt;
    forall i | k < i < |starts| ensures n < starts[i] {
      StartsAfter(order, segments, starts, i);
    }
  }

  lemma StartsAfter(order: seq<Event>, segments: seq<Segment>, starts: seq<nat>, i: nat)
    requires StartsAt(order, segments, starts) && 0 < i < |starts|
    ensures starts[i - 1] < starts[i]
  {
    assert StartsThere(order, segments, starts, i);
  }

  lemma StartedThere(order: seq<Event>, segments: seq<Segment>, starts: seq<nat>, n: nat, k: nat)
    requires StartsAt(order, segments, starts) && n < |order| && Split(starts, n, k)
    ensures k < |segments| ==> (Starts(order, segments, n, k) <==> k < |starts| && starts[k] == n)
  {
    hide Starts;
    assert From(starts, k) <= n;
    if k < |starts| { assert StartsThere(order, segments, starts, k); }
  }

  // There are always such starts.
  lemma {:induction false} StartsExist(order: seq<Event>, segments: seq<Segment>) returns (starts: seq<nat>)
    ensures StartsAt(order, segments, starts)
  {
    if order == [] {
      starts := [];
    } else {
      var n := |order| - 1;
      starts := StartsExist(order[..n], segments);
      hide StartsAt;
      StartsInOrder(order[..n], segments, starts);
      StartsMore(order, segments, starts);
      if |starts| < |segments| && Starts(order, segments, n, |starts|) { starts := starts + [n]; }
    }
  }

  lemma StartsMore(order: seq<Event>, segments: seq<Segment>, starts: seq<nat>)
    requires order != [] && StartsAt(order[..|order| - 1], segments, starts)
    ensures var n := |order| - 1;
            |starts| <= |segments|
            && StartsAt(order, segments, if |starts| < |segments| && Starts(order, segments, n, |starts|) then starts + [n] else starts)
  {
    hide StartsThere;
    var n, k := |order| - 1, |starts|;
    var all := if k < |segments| && Starts(order, segments, n, k) then starts + [n] else starts;
    forall i | 0 <= i < k ensures StartsThere(order, segments, all, i) {
      assert StartsThere(order[..n], segments, starts, i);
      StartsStay(order, segments, starts, all, i);
    }
    if |all| > k {
      LastStarts(order, segments, starts);
    } else if k < |segments| {
      NoStartStays(order, segments, k, From(starts, k), n);
    }
  }

  lemma StartsStay(order: seq<Event>, segments: seq<Segment>, starts: seq<nat>, all: seq<nat>, i: nat)
    requires order != [] && i < |starts| <= |all| <= |segments| && starts <= all
    requires StartsThere(order[..|order| - 1], segments, starts, i)
    ensures StartsThere(order, segments, all, i)
  {
    assert From(all, i) == From(starts, i);
    NoStartStays(order, segments, i, From(starts, i), starts[i]);
  }

  lemma NoStartStays(order: seq<Event>, segments: seq<Segment>, i: nat, from: nat, to: nat)
    requires i < |segments| && to < |order| && NoStart(order[..|order| - 1], segments, i, from, to)
    ensures NoStart(order, segments, i, from, to)
  {
    forall n | from <= n < to ensures !Starts(order, segments, n, i) {
      assert !Starts(order[..|order| - 1], segments, n, i);
    }
  }

  lemma LastStarts(order: seq<Event>, segments: seq<Segment>, starts: seq<nat>)
    requires order != [] && StartsAt(order[..|order| - 1], segments, starts)
    requires |starts| < |segments| && Starts(order, segments, |order| - 1, |starts|)
    ensures StartsThere(order, segments, starts + [|order| - 1], |starts|)
  {
    assert From(starts + [|order| - 1], |starts|) == From(starts, |starts|);
    NoStartStays(order, segments, |starts|, From(starts, |starts|), |order| - 1);
  }

  // A segment has moved exactly when its file offset is not the running one where it starts.
  lemma MovesExactly(sections: seq<Section>, order: seq<Event>, segments: seq<Segment>, starts: seq<nat>)
    requires StartsAt(order, segments, starts)
    ensures (forall n :: 0 <= n < |order| ==> !Moves(sections, order, segments, n))
       <==> forall i :: 0 <= i < |starts| ==> segments[i].fileOffset == OffsetAfter(sections, order, starts[i])
  {
    hide OffsetAfter, SegmentsLeft, StartsAt, Starts, Moves;
    StartsInOrder(order, segments, starts);
    if forall n :: 0 <= n < |order| ==> !Moves(sections, order, segments, n) {
      forall i | 0 <= i < |starts| ensures segments[i].fileOffset == OffsetAfter(sections, order, starts[i]) {
        MovesThere(sections, order, segments, starts, starts[i]);
      }
    } else {
      var n :| 0 <= n < |order| && Moves(sections, order, segments, n);
      MovesThere(sections, order, segments, starts, n);
    }
  }

  lemma StartsInOrder(order: seq<Event>, segments: seq<Segment>, starts: seq<nat>)
    requires StartsAt(order, segments, starts)
    ensures |starts| <= |segments| && forall i :: 0 <= i < |starts| ==> starts[i] < |order|
  {}

  lemma MovesThere(sections: seq<Section>, order: seq<Event>, segments: seq<Segment>, starts: seq<nat>, n: nat)
    requires StartsAt(order, segments, starts) && n < |order|
    ensures Moves(sections, order, segments, n) ==>
            exists i :: 0 <= i < |starts| && starts[i] == n && segments[i].fileOffset != OffsetAfter(sections, order, n)
    ensures forall i :: 0 <= i < |starts| && starts[i] == n && segments[i].fileOffset != OffsetAfter(sections, order, n) ==>
              Moves(sections, order, segments, n)
  {
    hide OffsetAfter, SegmentsLeft, StartsAt;
    StartsInOrder(order, segments, starts);
    SplitAt(order, segments, starts, n);
    var k := |segments| - SegmentsLeft(order, segments, n);
    StartedThere(order, segments, starts, n, k);
    StartsDiffer(order, segments, starts);
    assert forall i :: 0 <= i < |starts| && starts[i] == n ==> i == k;
    assert k < |segments| && Starts(order, segments, n, k) ==> starts[k] == n;
  }

  lemma StartsDiffer(order: seq<Event>, segments: seq<Segment>, starts: seq<nat>)
    requires StartsAt(order, segments, starts)
    ensures forall i, j :: 0 <= i < j < |starts| ==> starts[i] < starts[j]
  {
    forall j | 0 <= j < |starts| ensures forall i :: 0 <= i < j ==> starts[i] < starts[j] {
      StartsGrow(order, segments, starts, j);
    }
  }

  lemma {:induction false} StartsGrow(order: seq<Event>, segments: seq<Segment>, starts: seq<nat>, j: nat)
    requires StartsAt(order, segments, starts) && j < |starts|
    ensures forall i :: 0 <= i < j ==> starts[i] < starts[j]
  {
    hide StartsAt;
    if j > 0 {
      StartsGrow(order, segments, starts, j - 1);
      StartsAfter(order, segments, starts, j);
    }
  }

  // The first n events have put their sections where PlacedAt says.
  ghost predicate AllPlaced(sections: seq<Section>, order: seq<Event>, n: nat, placed: map<nat, Placed>)
    requires n <= |order| && KnownSections(sections, order)
  {
    forall k :: 0 <= k < n && order[k].Place? ==>
      order[k].section in placed && placed[order[k].section] == PlacedAt(sections, order, k)
  }

  lemma NothingPlaced(sections: seq<Section>, order: seq<Event>, segments: seq<Segment>, placed: map<nat, Placed>)
    requires KnownSections(sections, order)
    ensures AllPlaced(sections, order, 0, placed)
    ensures OffsetAfter(sections, order, 0) == 0 && SegmentsLeft(order, segments, 0) == |segments|
  {}

  lemma OneMoreEvent(sections: seq<Section>, order: seq<Event>, segments: seq<Segment>, n: nat)
    requires n < |order| && KnownSections(sections, order)
    ensures OffsetAfter(sections, order, n + 1)
            == if order[n].Place? then PlacedAt(sections, order, n).End() else OffsetAfter(sections, order, n)
    ensures var left := SegmentsLeft(order, segments, n);
            SegmentsLeft(order, segments, n + 1)
            == if left > 0 && order[n] == SegmentStart(segments[|segments| - left].id) then left - 1 else left
  {
    hide AlignUp, Sum, PartOffsets;
  }

  lemma PlacedMore(sections: seq<Section>, order: seq<Event>, n: nat, placed: map<nat, Placed>)
    requires n < |order| && KnownSections(sections, order) && PlacedOnce(order) && AllPlaced(sections, order, n, placed)
    ensures !order[n].Place? ==> AllPlaced(sections, order, n + 1, placed)
    ensures order[n].Place? ==>
              AllPlaced(sections, order, n + 1, placed[order[n].section := PlacedAt(sections, order, n)])
  {
    hide PlacedAt;
  }

  method PlaceParts(start: nat, sizes: seq<nat>) returns (end: nat, offsets: seq<nat>)
    ensures end == start + Sum(sizes) && offsets == PartOffsets(start, sizes)
  {
    end, offsets := start, [];
    assert sizes[..0] == [];
    for i := 0 to |sizes|
      invariant end == start + Sum(sizes[..i]) && offsets == PartOffsets(start, sizes[..i])
    {
      assert sizes[..i + 1][..i] == sizes[..i];
      offsets := offsets + [end];
      end := end + sizes[i];
    }
    assert sizes[..|sizes|] == sizes;
  }

  // ----- Ranges that the placing gives ---------------------------------------------------------

  lemma {:induction false} OffsetGrows(sections: seq<Section>, order: seq<Event>, m: nat, n: nat)
    requires m <= n <= |order|
    ensures OffsetAfter(sections, order, m) <= OffsetAfter(sections, order, n)
    decreases n
  {
    hide Sum;
    if m < n {
      OffsetGrows(sections, order, m, n - 1);
      var before := OffsetAfter(sections, order, n - 1);
      if order[n - 1].Place? && order[n - 1].section < |sections| {
        NextMultipleIsNext(before, sections[order[n - 1].section].Alignment());
      }
    }
  }

  // Sections are aligned, start at or after everything before them, and come in order.
  lemma RangesInOrder(sections: seq<Section>, order: seq<Event>, j: nat, k: nat)
    requires KnownSections(sections, order) && j < k < |order| && order[j].Place? && order[k].Place?
    ensures PlacedAt(sections, order, j).End() <= PlacedAt(sections, order, k).offset
    ensures PlacedAt(sections, order, k).offset % sections[order[k].section].Alignment() == 0
  {
    hide Sum, PartOffsets;
    OffsetGrows(sections, order, j + 1, k);
    NextMultipleIsNext(OffsetAfter(sections, order, k), sections[order[k].section].Alignment());
  }

  // The parts of a section tile its range.
  lemma {:induction false} PartsTile(start: nat, sizes: seq<nat>, i: nat)
    requires i < |sizes|
    ensures PartOffsets(start, sizes)[0] == start
    ensures PartOffsets(start, sizes)[i] + sizes[i] == if i + 1 < |sizes| then PartOffsets(start, sizes)[i + 1] else start + Sum(sizes)
  {
    var n := |sizes| - 1;
    PartsGiven(start, sizes, 0);
    PartsGiven(start, sizes, i);
    assert sizes[..0] == [];
    assert sizes[..i + 1][..i] == sizes[..i];
    if i < n { PartsGiven(start, sizes, i + 1); } else { assert sizes[..i + 1] == sizes; }
  }

  lemma {:induction false} PartsGiven(start: nat, sizes: seq<nat>, i: nat)
    requires i < |sizes|
    ensures PartOffsets(start, sizes)[i] == start + Sum(sizes[..i])
  {
    var n := |sizes| - 1;
    if i < n {
      PartsGiven(start, sizes[..n], i);
      assert sizes[..n][..i] == sizes[..i];
    }
  }
}
