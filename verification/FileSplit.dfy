// Splitting the output file into one buffer for each section and the padding between them.
module FileSplit {
  import opened Words
  import opened FileOffsets

  datatype Allocation = Allocation(id: nat, offset: nat, size: nat) {
    function End(): nat { offset + size }
  }

  // ----- Sorting by offset, then by end --------------------------------------------------------

  predicate InOrder(a: Allocation, b: Allocation) {
    a.offset < b.offset || (a.offset == b.offset && a.End() <= b.End())
  }

  predicate Sorted(s: seq<Allocation>) {
    forall i, j :: 0 <= i < j < |s| ==> InOrder(s[i], s[j])
  }

  function Insert(s: seq<Allocation>, a: Allocation): (r: seq<Allocation>)
    ensures |r| == |s| + 1 && multiset(r) == multiset(s) + multiset{a}
    ensures forall x :: x in r <==> x in s || x == a
  {
    if s == [] || InOrder(s[|s| - 1], a) then
      assert forall x :: x in s + [a] <==> x in s || x == a;
      s + [a]
    else
      assert s == s[..|s| - 1] + [s[|s| - 1]];
      Insert(s[..|s| - 1], a) + [s[|s| - 1]]
  }

  // A stable sort.
  function SortByKey(s: seq<Allocation>): (r: seq<Allocation>)
    ensures |r| == |s| && multiset(r) == multiset(s)
    ensures forall x :: x in r <==> x in s
  {
    if s == [] then []
    else
      assert s == s[..|s| - 1] + [s[|s| - 1]];
      Insert(SortByKey(s[..|s| - 1]), s[|s| - 1])
  }

  lemma {:induction false} InsertSorted(s: seq<Allocation>, a: Allocation)
    requires Sorted(s)
    ensures Sorted(Insert(s, a))
  {
    if s != [] && !InOrder(s[|s| - 1], a) {
      var front, last := s[..|s| - 1], s[|s| - 1];
      InsertSorted(front, a);
      var r := Insert(front, a);
      forall i | 0 <= i < |r| ensures InOrder(r[i], last) {
        assert r[i] in r;
      }
    }
  }

  lemma {:induction false} SortSorts(s: seq<Allocation>)
    ensures Sorted(SortByKey(s))
  {
    if s != [] {
      SortSorts(s[..|s| - 1]);
      InsertSorted(SortByKey(s[..|s| - 1]), s[|s| - 1]);
    }
  }

  // ----- Splitting -----------------------------------------------------------------------------

  function EndBefore(s: seq<Allocation>, k: nat): nat
    requires k <= |s|
  {
    if k == 0 then 0 else s[k - 1].End()
  }

  // Sorted allocations never go backward and stay within the file.
  ghost predicate GoesForward(s: seq<Allocation>, length: nat) {
    forall k :: 0 <= k < |s| ==> EndBefore(s, k) <= s[k].offset && s[k].End() <= length
  }

  // The first k paddings have the bytes between allocations.
  ghost predicate Paddings<T>(s: seq<Allocation>, k: nat, data: seq<T>, paddings: seq<seq<T>>)
    requires k <= |s|
  {
    |paddings| == k && forall j :: 0 <= j < k ==>
      EndBefore(s, j) <= s[j].offset <= |data| && paddings[j] == data[EndBefore(s, j)..s[j].offset]
  }

  lemma PaddingsMore<T>(s: seq<Allocation>, k: nat, data: seq<T>, paddings: seq<seq<T>>, padding: seq<T>)
    requires k < |s| && Paddings(s, k, data, paddings) && EndBefore(s, k) <= s[k].offset <= |data|
    requires padding == data[EndBefore(s, k)..s[k].offset]
    ensures Paddings(s, k + 1, data, paddings + [padding])
  {
    hide EndBefore;
  }

  lemma EndBeforeSteps(s: seq<Allocation>, k: nat)
    requires k < |s|
    ensures EndBefore(s, 0) == 0 && EndBefore(s, k + 1) == s[k].End()
  {}

  // Splits off the front of what is left.
  method SplitOff<T>(rest: seq<T>, n: nat, ghost data: seq<T>, ghost offset: nat) returns (front: seq<T>, rest': seq<T>)
    requires offset + n <= |data| && rest == data[offset..]
    ensures front == data[offset..offset + n] && rest' == data[offset + n..]
  {
    front, rest' := rest[..n], rest[n..];
  }

  ghost predicate ForwardSoFar(s: seq<Allocation>, length: nat, k: nat)
    requires k <= |s|
  {
    forall j :: 0 <= j < k ==> EndBefore(s, j) <= s[j].offset && s[j].End() <= length
  }

  // The buffers, by section, and the padding before each of the sorted allocations.
  method SplitOutputIntoSections<T>(allocations: seq<Allocation>, data: seq<T>)
    returns (r: Result<()>, sections: map<nat, seq<T>>, paddings: seq<seq<T>>)
    ensures var sorted := SortByKey(allocations);
            && (r.Ok? <==> GoesForward(sorted, |data|))
            && (r.Ok? ==> Paddings(sorted, |sorted|, data, paddings))
    ensures r.Ok? && DistinctIds(allocations) ==> AllBuffers(allocations, data, sections)
  {
    hide SortByKey, Paddings, Buffers, EndBefore, DistinctIds, AllBuffers;
    var sorted := SortByKey(allocations);
    sections, paddings := map[], [];
    var rest, offset := data, 0;
    NothingSplit(sorted, data, sections);
    for k := 0 to |sorted|
      invariant offset == EndBefore(sorted, k) <= |data| && rest == data[offset..]
      invariant ForwardSoFar(sorted, |data|, k)
      invariant Paddings(sorted, k, data, paddings) && Buffers(sorted, k, data, sections)
    {
      var a := sorted[k];
      EndBeforeSteps(sorted, k);
      if a.offset < offset { return Err("Offsets went backward when splitting output file"), sections, paddings; }
      if a.End() > |data| { return Err("allocation is past the end of the file"), sections, paddings; }
      var padding, buffer;
      padding, rest := SplitOff(rest, a.offset - offset, data, offset);
      PaddingsMore(sorted, k, data, paddings, padding);
      paddings := paddings + [padding];
      buffer, rest := SplitOff(rest, a.size, data, a.offset);
      BuffersMore(sorted, k, data, sections, buffer);
      sections := sections[a.id := buffer];
      offset := a.End();
    }
    if DistinctIds(allocations) { BuffersAsGiven(allocations, data, sections); }
    r := Ok(());
  }

  lemma NothingSplit<T>(s: seq<Allocation>, data: seq<T>, sections: map<nat, seq<T>>)
    ensures Paddings(s, 0, data, []) && Buffers(s, 0, data, sections) && EndBefore(s, 0) == 0
  {}

  ghost predicate DistinctIds(s: seq<Allocation>) {
    forall i, j :: 0 <= i < j < |s| ==> s[i].id != s[j].id
  }

  // Each allocation has the bytes of its range, under its id.
  ghost predicate AllBuffers<T>(allocations: seq<Allocation>, data: seq<T>, sections: map<nat, seq<T>>) {
    forall a :: a in allocations ==>
      a.End() <= |data| && a.id in sections && sections[a.id] == data[a.offset..a.End()]
  }

  lemma BuffersAsGiven<T>(allocations: seq<Allocation>, data: seq<T>, sections: map<nat, seq<T>>)
    requires DistinctIds(allocations)
    requires var sorted := SortByKey(allocations); Buffers(sorted, |sorted|, data, sections)
    ensures AllBuffers(allocations, data, sections)
  {
    hide SortByKey, DistinctIds;
    SortKeepsDistinct(allocations);
    var sorted := SortByKey(allocations);
    forall a | a in allocations
      ensures a.End() <= |data| && a.id in sections && sections[a.id] == data[a.offset..a.End()]
    {
      assert a in sorted;
      var j :| 0 <= j < |sorted| && sorted[j] == a;
    }
  }

  // With distinct ids, the first k sections have the bytes of their range.
  ghost predicate Buffers<T>(s: seq<Allocation>, k: nat, data: seq<T>, sections: map<nat, seq<T>>)
    requires k <= |s|
  {
    DistinctIds(s) ==> forall j :: 0 <= j < k ==>
      s[j].End() <= |data| && s[j].id in sections && sections[s[j].id] == data[s[j].offset..s[j].End()]
  }

  lemma BuffersMore<T>(s: seq<Allocation>, k: nat, data: seq<T>, sections: map<nat, seq<T>>, buffer: seq<T>)
    requires k < |s| && Buffers(s, k, data, sections) && s[k].End() <= |data| && buffer == data[s[k].offset..s[k].End()]
    ensures Buffers(s, k + 1, data, sections[s[k].id := buffer])
  {}

  // ----- Sorting keeps ids apart ---------------------------------------------------------------

  lemma AppendDistinct(s: seq<Allocation>, a: Allocation)
    ensures DistinctIds(s + [a]) <==> DistinctIds(s) && forall x :: x in s ==> x.id != a.id
  {
    var t := s + [a];
    if DistinctIds(t) {
      forall x | x in s ensures x.id != a.id {
        var i :| 0 <= i < |s| && s[i] == x;
        assert t[i].id != t[|s|].id;
      }
      forall i, j | 0 <= i < j < |s| ensures s[i].id != s[j].id { assert t[i].id != t[j].id; }
    }
  }

  lemma {:induction false} InsertDistinct(s: seq<Allocation>, a: Allocation)
    requires DistinctIds(s) && forall x :: x in s ==> x.id != a.id
    ensures DistinctIds(Insert(s, a))
  {
    hide DistinctIds, InOrder;
    if s == [] || InOrder(s[|s| - 1], a) {
      AppendDistinct(s, a);
    } else {
      var front, last := s[..|s| - 1], s[|s| - 1];
      assert s == front + [last];
      AppendDistinct(front, last);
      InsertDistinct(front, a);
      AppendDistinct(Insert(front, a), last);
    }
  }

  lemma {:induction false} SortKeepsDistinct(s: seq<Allocation>)
    requires DistinctIds(s)
    ensures DistinctIds(SortByKey(s))
  {
    hide DistinctIds, Insert;
    if s == [] {
      assert SortByKey(s) == s;
    } else {
      var front, last := s[..|s| - 1], s[|s| - 1];
      assert s == front + [last];
      AppendDistinct(front, last);
      SortKeepsDistinct(front);
      InsertDistinct(SortByKey(front), last);
    }
  }

  // ----- When it goes forward ------------------------------------------------------------------

  predicate Disjoint(a: Allocation, b: Allocation) {
    a.End() <= b.offset || b.End() <= a.offset
  }

  ghost predicate AllDisjoint(s: seq<Allocation>) {
    forall i, j :: 0 <= i < j < |s| ==> Disjoint(s[i], s[j])
  }

  lemma {:induction false} ForwardInOrder(s: seq<Allocation>, length: nat, i: nat, j: nat)
    requires GoesForward(s, length) && i < j < |s|
    ensures s[i].End() <= s[j].offset
    decreases j
  {
    assert EndBefore(s, j) <= s[j].offset;
    if i < j - 1 { ForwardInOrder(s, length, i, j - 1); }
  }

  // Splitting sorted allocations goes forward exactly when no two of them overlap and none is past the
  // end of the file. An empty one may lie between others but not inside.
  lemma ForwardExactly(s: seq<Allocation>, length: nat)
    requires Sorted(s)
    ensures GoesForward(s, length) <==> AllDisjoint(s) && forall i :: 0 <= i < |s| ==> s[i].End() <= length
  {
    if GoesForward(s, length) {
      forall i, j | 0 <= i < j < |s| ensures Disjoint(s[i], s[j]) { ForwardInOrder(s, length, i, j); }
      forall i | 0 <= i < |s| ensures s[i].End() <= length {
        assert EndBefore(s, i) <= s[i].offset;
      }
    }
    if AllDisjoint(s) && forall i :: 0 <= i < |s| ==> s[i].End() <= length {
      forall k | 0 <= k < |s| ensures EndBefore(s, k) <= s[k].offset {
        if k > 0 { assert Disjoint(s[k - 1], s[k]) && InOrder(s[k - 1], s[k]); }
      }
    }
  }

  // Sections and padding lie one after the other from the start of the file.
  lemma {:induction false} PiecesTile<T>(s: seq<Allocation>, data: seq<T>, k: nat)
    requires GoesForward(s, |data|) && k <= |s|
    ensures EndBefore(s, k) <= |data| && Pieces(s, data, k) == data[..EndBefore(s, k)]
  {
    if k > 0 {
      assert EndBefore(s, k - 1) <= s[k - 1].offset && s[k - 1].End() <= |data|;
      PiecesTile(s, data, k - 1);
      ThreeRanges(data, EndBefore(s, k - 1), s[k - 1].offset, s[k - 1].End());
      hide EndBefore;
    }
  }

  lemma ThreeRanges<T>(data: seq<T>, a: nat, b: nat, c: nat)
    requires a <= b <= c <= |data|
    ensures data[..a] + data[a..b] + data[b..c] == data[..c]
  {}

  function Pieces<T>(s: seq<Allocation>, data: seq<T>, k: nat): seq<T>
    requires k <= |s|
  {
    if k == 0 then []
    else
      var a := s[k - 1];
      Pieces(s, data, k - 1)
      + (if EndBefore(s, k - 1) <= a.offset <= |data| then data[EndBefore(s, k - 1)..a.offset] else [])
      + (if a.End() <= |data| then data[a.offset..a.End()] else [])
  }

  // ----- After the offsets were updated --------------------------------------------------------

  // Sections that are all in the order, each once, and no other section.
  ghost predicate InTheOrder(sections: seq<Section>, order: seq<Event>) {
    KnownSections(sections, order) && PlacedOnce(order) && forall s: nat :: s < |sections| ==> Place(s) in order
  }

  function Allocations(sections: seq<Section>, placed: map<nat, Placed>): (r: seq<Allocation>)
    requires forall s: nat :: s < |sections| ==> s in placed
    ensures |r| == |sections| && forall s :: 0 <= s < |r| ==> r[s] == Allocation(s, placed[s].offset, placed[s].size)
  {
    seq(|sections|, s requires 0 <= s < |sections| => Allocation(s, placed[s].offset, placed[s].size))
  }

  lemma EventOf(sections: seq<Section>, order: seq<Event>, placed: map<nat, Placed>, s: nat) returns (k: nat)
    requires InTheOrder(sections, order) && AllPlaced(sections, order, |order|, placed) && s < |sections|
    ensures k < |order| && order[k] == Place(s) && s in placed && placed[s] == PlacedAt(sections, order, k)
  {
    hide PlacedAt;
    k :| 0 <= k < |order| && order[k] == Place(s);
  }

  // When every section is in the order, the updated ranges do not overlap, whatever their ids.
  lemma UpdatedAreDisjoint(sections: seq<Section>, order: seq<Event>, placed: map<nat, Placed>)
    requires InTheOrder(sections, order) && AllPlaced(sections, order, |order|, placed)
    requires forall s: nat :: s < |sections| ==> s in placed
    ensures forall i, j :: 0 <= i < j < |sections| ==> Disjoint(Allocations(sections, placed)[i], Allocations(sections, placed)[j])
    ensures forall i :: 0 <= i < |sections| ==> Allocations(sections, placed)[i].End() <= OffsetAfter(sections, order, |order|)
  {
    hide PlacedAt, AllPlaced, InTheOrder, OffsetAfter;
    var a := Allocations(sections, placed);
    forall i, j | 0 <= i < j < |sections| ensures Disjoint(a[i], a[j]) {
      TwoAreDisjoint(sections, order, placed, i, j);
    }
    forall i | 0 <= i < |sections| ensures a[i].End() <= OffsetAfter(sections, order, |order|) {
      EndsInFile(sections, order, placed, i);
    }
  }

  lemma TwoAreDisjoint(sections: seq<Section>, order: seq<Event>, placed: map<nat, Placed>, i: nat, j: nat)
    requires InTheOrder(sections, order) && AllPlaced(sections, order, |order|, placed) && i < |sections| && j < |sections| && i != j
    ensures i in placed && j in placed && (placed[i].End() <= placed[j].offset || placed[j].End() <= placed[i].offset)
  {
    hide PlacedAt, AllPlaced;
    var k := EventOf(sections, order, placed, i);
    var l := EventOf(sections, order, placed, j);
    if k < l { RangesInOrder(sections, order, k, l); } else { RangesInOrder(sections, order, l, k); }
  }

  lemma EndsInFile(sections: seq<Section>, order: seq<Event>, placed: map<nat, Placed>, i: nat)
    requires InTheOrder(sections, order) && AllPlaced(sections, order, |order|, placed) && i < |sections|
    ensures i in placed && placed[i].End() <= OffsetAfter(sections, order, |order|)
  {
    hide AllPlaced, AlignUp, Sum, PartOffsets;
    var k := EventOf(sections, order, placed, i);
    OneMoreEvent(sections, order, [], k);
    OffsetGrows(sections, order, k + 1, |order|);
  }

  // ----- In terms of the allocations as given --------------------------------------------------

  lemma {:induction false} InsertDisjoint(s: seq<Allocation>, a: Allocation)
    ensures AllDisjoint(Insert(s, a)) <==> AllDisjoint(s) && forall x :: x in s ==> Disjoint(x, a)
  {
    if s == [] || InOrder(s[|s| - 1], a) {
      AppendDisjoint(s, a);
    } else {
      hide Insert, AllDisjoint, InOrder;
      var front, last := s[..|s| - 1], s[|s| - 1];
      assert s == front + [last];
      InsertDisjoint(front, a);
      AppendDisjoint(front, last);
      AppendDisjoint(Insert(front, a), last);
      assert Disjoint(a, last) <==> Disjoint(last, a);
      hide Disjoint;
      assert (forall x :: x in Insert(front, a) ==> Disjoint(x, last))
        <==> Disjoint(a, last) && forall x :: x in front ==> Disjoint(x, last);
      assert (forall x :: x in s ==> Disjoint(x, a)) <==> Disjoint(last, a) && forall x :: x in front ==> Disjoint(x, a);
      assert Insert(s, a) == Insert(front, a) + [last] by { InsertLater(s, a); }
    }
  }

  lemma InsertLater(s: seq<Allocation>, a: Allocation)
    requires s != [] && !InOrder(s[|s| - 1], a)
    ensures Insert(s, a) == Insert(s[..|s| - 1], a) + [s[|s| - 1]]
  {}

  lemma AppendDisjoint(s: seq<Allocation>, a: Allocation)
    ensures AllDisjoint(s + [a]) <==> AllDisjoint(s) && forall x :: x in s ==> Disjoint(x, a)
  {
    hide Disjoint;
    var t := s + [a];
    if AllDisjoint(t) {
      forall x | x in s ensures Disjoint(x, a) {
        var i :| 0 <= i < |s| && s[i] == x;
        assert Disjoint(t[i], t[|s|]);
      }
      forall i, j | 0 <= i < j < |s| ensures Disjoint(s[i], s[j]) {
        assert Disjoint(t[i], t[j]);
      }
    }
  }

  lemma {:induction false} SortKeepsDisjoint(s: seq<Allocation>)
    ensures AllDisjoint(SortByKey(s)) <==> AllDisjoint(s)
  {
    hide Insert, AllDisjoint;
    if s != [] {
      var front, last := s[..|s| - 1], s[|s| - 1];
      assert s == front + [last];
      SortKeepsDisjoint(front);
      AppendDisjoint(front, last);
      InsertDisjoint(SortByKey(front), last);
    }
  }

  // Splitting succeeds exactly when no two allocations overlap and all are within the file.
  lemma SplitExactly(allocations: seq<Allocation>, length: nat)
    ensures GoesForward(SortByKey(allocations), length)
       <==> AllDisjoint(allocations) && forall i :: 0 <= i < |allocations| ==> allocations[i].End() <= length
  {
    hide SortByKey, AllDisjoint, GoesForward;
    var sorted := SortByKey(allocations);
    SortSorts(allocations);
    SortKeepsDisjoint(allocations);
    ForwardExactly(sorted, length);
    if forall i :: 0 <= i < |allocations| ==> allocations[i].End() <= length {
      forall i | 0 <= i < |sorted| ensures sorted[i].End() <= length { assert sorted[i] in allocations; }
    }
    if forall i :: 0 <= i < |sorted| ==> sorted[i].End() <= length {
      forall i | 0 <= i < |allocations| ensures allocations[i].End() <= length { assert allocations[i] in sorted; }
    }
  }

  // After the offsets were updated, a file of at least the final size can be split.
  lemma SplitSucceeds(sections: seq<Section>, order: seq<Event>, placed: map<nat, Placed>, length: nat)
    requires InTheOrder(sections, order) && AllPlaced(sections, order, |order|, placed)
    requires (forall s: nat :: s < |sections| ==> s in placed) && OffsetAfter(sections, order, |order|) <= length
    ensures GoesForward(SortByKey(Allocations(sections, placed)), length)
  {
    hide AllPlaced, InTheOrder, OffsetAfter, SortByKey;
    UpdatedAreDisjoint(sections, order, placed);
    SplitExactly(Allocations(sections, placed), length);
  }

  // The offsets are updated and the output file is split. Each section gets exactly its range.
  method PlaceAndSplit<T>(layout: OutputLayout, order: seq<Event>, data: seq<T>)
    returns (r: Result<()>, buffers: map<nat, seq<T>>)
    requires InTheOrder(layout.sections, order) && OffsetAfter(layout.sections, order, |order|) <= |data|
    modifies layout`placed
    ensures r.Ok? <==> forall n :: 0 <= n < |order| ==> !Moves(layout.sections, order, layout.segments, n)
    ensures r.Ok? ==> AllPlaced(layout.sections, order, |order|, layout.placed)
    ensures r.Ok? ==> forall s: nat :: s < |layout.sections| ==>
              && s in layout.placed && layout.placed[s].End() <= |data|
              && s in buffers && buffers[s] == data[layout.placed[s].offset..layout.placed[s].End()]
  {
    hide OffsetAfter, AllPlaced, PlacedAt, SortByKey, GoesForward, Paddings, DistinctIds;
    buffers := map[];
    var updated := layout.UpdateFileOffset(order);
    if updated.Err? { return Err(updated.message), map[]; }
    forall s: nat | s < |layout.sections| ensures s in layout.placed {
      var k := EventOf(layout.sections, order, layout.placed, s);
    }
    var allocations := Allocations(layout.sections, layout.placed);
    SplitSucceeds(layout.sections, order, layout.placed, |data|);
    AllocationsDistinct(layout.sections, layout.placed);
    var split, sections, paddings := SplitOutputIntoSections(allocations, data);
    r, buffers := split, sections;
    forall s: nat | s < |layout.sections|
      ensures layout.placed[s].End() <= |data|
      ensures s in buffers && buffers[s] == data[layout.placed[s].offset..layout.placed[s].End()]
    {
      assert allocations[s] in allocations && allocations[s].id == s;
    }
  }

  lemma AllocationsDistinct(sections: seq<Section>, placed: map<nat, Placed>)
    requires forall s: nat :: s < |sections| ==> s in placed
    ensures DistinctIds(Allocations(sections, placed))
  {}
}
