// Writing a section without its deleted bytes, and the offsets and sizes that go with it.
module RelaxCompaction {
  import opened Words
  import opened RelaxDeltas

  // The bytes among the first n that survive, in order.
  function Kept<T>(cuts: seq<Cut>, input: seq<T>, n: nat): (r: seq<T>)
    requires n <= |input|
    ensures |r| == SurvivorsBelow(cuts, n)
  {
    if n == 0 then []
    else Kept(cuts, input, n - 1) + if Deleted(cuts, n - 1) then [] else [input[n - 1]]
  }

  lemma {:induction false} KeptGrows<T>(cuts: seq<Cut>, input: seq<T>, m: nat, n: nat)
    requires m <= n <= |input|
    ensures Kept(cuts, input, m) <= Kept(cuts, input, n)
    decreases n
  {
    hide Deleted;
    if m < n { KeptGrows(cuts, input, m, n - 1); }
  }

  // A byte that survives lands at its offset less the bytes deleted before it.
  lemma SurvivorLands<T>(cuts: seq<Cut>, size: nat, input: seq<T>, p: nat)
    requires WellFormed(cuts, size) && p < |input| && !Deleted(cuts, p)
    ensures var out, q := Kept(cuts, input, |input|), p - DeletedBefore(cuts, p);
            0 <= q < |out| && out[q] == input[p]
  {
    hide Deleted, DeletedBefore, SurvivorsBelow;
    KeptGrows(cuts, input, p + 1, |input|);
    if StrictlyInside(cuts, p) { DeletedOrInside(cuts, p); }
    TranslationExactly(cuts, size, p);
    assert Kept(cuts, input, p + 1) == Kept(cuts, input, p) + [input[p]];
  }

  // Survivors keep their order.
  lemma SurvivorsStayInOrder(cuts: seq<Cut>, size: nat, p: nat, q: nat)
    requires WellFormed(cuts, size) && !Deleted(cuts, p) && !Deleted(cuts, q)
    ensures p < q <==> p - DeletedBefore(cuts, p) < q - DeletedBefore(cuts, q)
  {
    hide Deleted, DeletedBefore, SurvivorsBelow;
    if StrictlyInside(cuts, p) { DeletedOrInside(cuts, p); }
    if StrictlyInside(cuts, q) { DeletedOrInside(cuts, q); }
    TranslationExactly(cuts, size, p);
    TranslationExactly(cuts, size, q);
    if p < q { SurvivorsGrow(cuts, p, q); } else { SurvivorsGrow(cuts, q, p); }
  }

  lemma {:induction false} AllEndBefore(cuts: seq<Cut>, size: nat)
    requires WellFormed(cuts, size)
    ensures DeletedBefore(cuts, size) == Total(cuts) && Overshoot(cuts, size) == 0
  {
    if cuts != [] {
      Front(cuts, size);
      AllEndBefore(cuts[..|cuts| - 1], size);
    }
  }

  // The output is as long as the input less all that was deleted.
  lemma KeptLength<T>(cuts: seq<Cut>, input: seq<T>)
    requires WellFormed(cuts, |input|)
    ensures |Kept(cuts, input, |input|)| == |input| - Total(cuts)
  {
    AllEndBefore(cuts, |input|);
    TranslationCounts(cuts, |input|, |input|);
  }

  // ----- Writing -------------------------------------------------------------------------------

  method CopyFromSlice<T>(out: array<T>, pos: nat, data: seq<T>)
    requires pos + |data| <= out.Length
    modifies out
    ensures out[..pos] == old(out[..pos]) && out[pos..pos + |data|] == data
    ensures out[pos + |data|..] == old(out[pos + |data|..])
  {
    for i := 0 to |data|
      invariant out[..pos] == old(out[..pos]) && out[pos..pos + i] == data[..i]
      invariant out[pos + i..] == old(out[pos + i..])
    {
      ghost var rest := out[pos + i..];
      out[pos + i] := data[i];
      assert out[pos..pos + i + 1] == data[..i + 1];
      assert out[pos + (i + 1)..] == rest[1..];
    }
  }

  method CopyRun<T>(out: array<T>, pos: nat, input: seq<T>, start: nat, end: nat) returns (pos': nat)
    requires start <= end <= |input| && pos + (end - start) <= out.Length
    modifies out
    ensures pos' == pos + (end - start) && out[..pos'] == old(out[..pos]) + input[start..end]
  {
    pos' := pos;
    var copyLen := end - start;
    if copyLen > 0 {
      CopyFromSlice(out, pos, input[start..end]);
      pos' := pos + copyLen;
      assert out[..pos'] == out[..pos] + out[pos..pos'];
    }
  }

  method FillSectionPadding<T>(out: array<T>, pos: nat, padding: T)
    requires pos <= out.Length
    modifies out
    ensures out[..pos] == old(out[..pos]) && forall k :: pos <= k < out.Length ==> out[k] == padding
  {
    for k := pos to out.Length
      invariant out[..pos] == old(out[..pos])
      invariant forall j :: pos <= j < k ==> out[j] == padding
    {
      out[k] := padding;
    }
  }

  lemma {:induction false} KeptBetween<T>(cuts: seq<Cut>, input: seq<T>, m: nat, n: nat)
    requires m <= n <= |input| && forall p :: m <= p < n ==> !Deleted(cuts, p)
    ensures Kept(cuts, input, n) == Kept(cuts, input, m) + input[m..n]
    decreases n
  {
    hide Deleted;
    if m < n {
      KeptBetween(cuts, input, m, n - 1);
      assert input[m..n] == input[m..n - 1] + [input[n - 1]];
    }
  }

  lemma {:induction false} KeptNothing<T>(cuts: seq<Cut>, input: seq<T>, m: nat, n: nat)
    requires m <= n <= |input| && forall p :: m <= p < n ==> Deleted(cuts, p)
    ensures Kept(cuts, input, n) == Kept(cuts, input, m)
    decreases n
  {
    hide Deleted;
    if m < n { KeptNothing(cuts, input, m, n - 1); }
  }

  // The end of the last of the first i cuts.
  function Resume(cuts: seq<Cut>, i: nat): nat
    requires i <= |cuts|
  {
    if i == 0 then 0 else cuts[i - 1].End()
  }

  lemma ResumeSteps(cuts: seq<Cut>, i: nat)
    requires i <= |cuts|
    ensures Resume(cuts, i) == if i == 0 then 0 else cuts[i - 1].offset + cuts[i - 1].bytes
  {}

  lemma GapSurvives(cuts: seq<Cut>, size: nat, i: nat)
    requires WellFormed(cuts, size) && i <= |cuts|
    ensures Resume(cuts, i) <= (if i < |cuts| then cuts[i].offset else size)
    ensures forall p: nat :: Resume(cuts, i) <= p < (if i < |cuts| then cuts[i].offset else size) ==> !Deleted(cuts, p)
  {
    forall p: nat, k | Resume(cuts, i) <= p < (if i < |cuts| then cuts[i].offset else size) && 0 <= k < |cuts|
      ensures !Deletes(cuts[k], p)
    {
      if k < i - 1 { assert cuts[k].End() <= cuts[i - 1].offset; }
      if k > i { assert cuts[i].End() <= cuts[k].offset; }
    }
  }

  lemma CutIsDeleted(cuts: seq<Cut>, i: nat)
    requires i < |cuts|
    ensures forall p: nat :: cuts[i].offset <= p < cuts[i].End() ==> Deleted(cuts, p)
  {
    forall p: nat | cuts[i].offset <= p < cuts[i].End() ensures Deleted(cuts, p) {
      assert Deletes(cuts[i], p);
    }
  }

  // Up to and including cut number i.
  lemma KeptThroughCut<T>(cuts: seq<Cut>, input: seq<T>, i: nat)
    requires WellFormed(cuts, |input|) && i < |cuts|
    ensures Resume(cuts, i) <= cuts[i].offset <= |input| && Resume(cuts, i + 1) <= |input|
    ensures Kept(cuts, input, Resume(cuts, i + 1)) == Kept(cuts, input, Resume(cuts, i)) + input[Resume(cuts, i)..cuts[i].offset]
  {
    hide Deleted;
    GapSurvives(cuts, |input|, i);
    KeptBetween(cuts, input, Resume(cuts, i), cuts[i].offset);
    CutIsDeleted(cuts, i);
    KeptNothing(cuts, input, cuts[i].offset, cuts[i].End());
  }

  // The output buffer gets the bytes that survive and padding up to the end of the allocation.
  method WriteSectionRaw<T(0)>(input: seq<T>, deltas: SectionRelaxDeltas, out: array<T>, padding: T)
    requires deltas.Valid() && WellFormed(deltas.cuts, |input|)
    requires |input| - Total(deltas.cuts) <= out.Length
    modifies out
    ensures var kept := Kept(deltas.cuts, input, |input|);
            && |kept| == |input| - Total(deltas.cuts) && out[..|kept|] == kept
            && forall k :: |kept| <= k < out.Length ==> out[k] == padding
  {
    hide Kept, Total, WellFormed, Resume;
    ghost var cuts := deltas.cuts;
    var inputPos, outputPos: nat := 0, 0;
    KeptLength(cuts, input);
    KeptNothing(cuts, input, 0, 0);
    NothingKept(cuts, input);
    assert Resume(cuts, 0) == 0 by { ResumeSteps(cuts, 0); }
    for i := 0 to |deltas.deltas|
      invariant deltas.Valid() && deltas.cuts == cuts
      invariant inputPos == Resume(cuts, i) <= |input|
      invariant outputPos == |Kept(cuts, input, inputPos)| <= out.Length && out[..outputPos] == Kept(cuts, input, inputPos)
    {
      var delta := deltas.deltas[i];
      assert delta == DeltaOf(cuts, i);
      KeptThroughCut(cuts, input, i);
      ResumeSteps(cuts, i + 1);
      KeptGrows(cuts, input, Resume(cuts, i + 1), |input|);
      var skipStart := delta.offset;
      outputPos := CopyRun(out, outputPos, input, inputPos, skipStart);
      inputPos := skipStart + delta.bytes;
    }
    KeptThroughEnd(cuts, input);
    outputPos := CopyRun(out, outputPos, input, inputPos, |input|);
    FillSectionPadding(out, outputPos, padding);
  }

  lemma NothingKept<T>(cuts: seq<Cut>, input: seq<T>)
    ensures Kept(cuts, input, 0) == []
  {}

  lemma KeptThroughEnd<T>(cuts: seq<Cut>, input: seq<T>)
    requires WellFormed(cuts, |input|)
    ensures Resume(cuts, |cuts|) <= |input|
    ensures Kept(cuts, input, |input|)
            == Kept(cuts, input, Resume(cuts, |cuts|)) + input[Resume(cuts, |cuts|)..|input|]
  {
    hide Deleted, Kept, Resume, WellFormed;
    GapSurvives(cuts, |input|, |cuts|);
    KeptBetween(cuts, input, Resume(cuts, |cuts|), |input|);
  }

  // ----- Symbol sizes --------------------------------------------------------------------------

  // The bytes in a range that survive.
  function SurvivorsIn(cuts: seq<Cut>, start: nat, end: nat): int {
    SurvivorsBelow(cuts, end) - SurvivorsBelow(cuts, start)
  }

  method ObjectSymbolSize(deltas: SectionRelaxDeltas, value: nat, size: nat, ghost sectionSize: nat) returns (r: int)
    requires deltas.Valid() && WellFormed(deltas.cuts, sectionSize)
    ensures r == SurvivorsIn(deltas.cuts, value, value + size)
                 + (if size == 0 then 0 else Overshoot(deltas.cuts, value) - Overshoot(deltas.cuts, value + size))
  {
    hide Overshoot, SurvivorsBelow, DeletedBefore, WellFormed, Represents, Ascending;
    if size == 0 { return 0; }
    var start := deltas.InputToOutputOffset(value);
    var end := deltas.InputToOutputOffset(value + size);
    TranslationCounts(deltas.cuts, sectionSize, value);
    TranslationCounts(deltas.cuts, sectionSize, value + size);
    r := end - start;
  }

  // So a symbol keeps the size of what survives of it when neither end is strictly inside a cut.
  lemma SymbolEndsOutsideCuts(cuts: seq<Cut>, start: nat, end: nat)
    requires !StrictlyInside(cuts, start) && !StrictlyInside(cuts, end)
    ensures Overshoot(cuts, start) - Overshoot(cuts, end) == 0
  {
    OvershootInside(cuts, start);
    OvershootInside(cuts, end);
  }

  // A symbol of 6 bytes that ends inside the cut of a jalr keeps 4 bytes, and its size becomes 2.
  lemma EndInsideCut()
    ensures var cuts := [Cut(4, 4)];
            && WellFormed(cuts, 8) && StrictlyInside(cuts, 6) && SurvivorsIn(cuts, 0, 6) == 4
            && (6 - DeletedBefore(cuts, 6)) - (0 - DeletedBefore(cuts, 0)) == 2
            && Overshoot(cuts, 0) - Overshoot(cuts, 6) == -2
  {
    var cuts := [Cut(4, 4)];
    assert cuts[..0] == [] && cuts[0].offset < 6 < cuts[0].End();
    TranslationCounts(cuts, 8, 6);
  }

  // ----- Offsets in ascending order ------------------------------------------------------------

  // Translates offsets that never go down without searching.
  class RelaxCursor {
    const deltas: SectionRelaxDeltas
    var index: nat
    var currentCumulative: nat
    ghost var last: nat

    ghost predicate Valid()
      reads this, deltas
    {
      && deltas.Valid() && index <= |deltas.cuts|
      && currentCumulative == Total(deltas.cuts[..index])
      && forall i :: 0 <= i < index ==> deltas.cuts[i].offset < last
    }

    constructor (d: SectionRelaxDeltas)
      requires d.Valid()
      ensures Valid() && deltas == d && last == 0
    {
      deltas := d;
      index, currentCumulative, last := 0, 0, 0;
    }

    method Translate(x: nat) returns (r: int)
      requires Valid() && last <= x
      modifies this
      ensures Valid() && last == x
      ensures r == x - DeletedBefore(deltas.cuts, x)
    {
      hide Total;
      while index < |deltas.deltas| && deltas.deltas[index].offset < x
        invariant Valid() && last <= x
        invariant forall i :: 0 <= i < index ==> deltas.cuts[i].offset < x
        decreases |deltas.deltas| - index
      {
        assert deltas.deltas[index] == DeltaOf(deltas.cuts, index);
        TotalAppend(deltas.cuts, index);
        currentCumulative := deltas.deltas[index].cumulative;
        last := x;
        index := index + 1;
      }
      last := x;
      if index < |deltas.deltas| { assert deltas.deltas[index] == DeltaOf(deltas.cuts, index); }
      DeletedBeforeIsTotal(deltas.cuts, x, index, |deltas.cuts|);
      assert deltas.cuts[..|deltas.cuts|] == deltas.cuts;
      r := x - currentCumulative;
    }
  }
}
