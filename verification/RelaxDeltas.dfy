// Bytes deleted from a section by relaxation, and what that does to offsets and contents.
module RelaxDeltas {
  import opened Words

  datatype Cut = Cut(offset: nat, bytes: nat) {
    function End(): nat { offset + bytes }
  }

  // ----- What the cuts mean, byte by byte ------------------------------------------------------

  ghost predicate WellFormed(cuts: seq<Cut>, size: nat) {
    && (forall i :: 0 <= i < |cuts| ==> cuts[i].bytes > 0 && cuts[i].End() <= size)
    && forall i, j :: 0 <= i < j < |cuts| ==> cuts[i].End() <= cuts[j].offset
  }

  predicate Deletes(c: Cut, p: nat) {
    c.offset <= p < c.End()
  }

  predicate Deleted(cuts: seq<Cut>, p: nat) {
    exists i :: 0 <= i < |cuts| && Deletes(cuts[i], p)
  }

  predicate StrictlyInside(cuts: seq<Cut>, x: nat) {
    exists i :: 0 <= i < |cuts| && cuts[i].offset < x < cuts[i].End()
  }

  function SurvivorsBelow(cuts: seq<Cut>, x: nat): nat {
    if x == 0 then 0 else SurvivorsBelow(cuts, x - 1) + if Deleted(cuts, x - 1) then 0 else 1
  }

  function Total(cuts: seq<Cut>): nat {
    if cuts == [] then 0 else Total(cuts[..|cuts| - 1]) + cuts[|cuts| - 1].bytes
  }

  // The bytes of all cuts that start before x.
  function DeletedBefore(cuts: seq<Cut>, x: nat): nat {
    if cuts == [] then 0
    else
      var last := cuts[|cuts| - 1];
      DeletedBefore(cuts[..|cuts| - 1], x) + if last.offset < x then last.bytes else 0
  }

  // How far the cut that x is strictly inside of goes on after x.
  function Overshoot(cuts: seq<Cut>, x: nat): nat {
    if cuts == [] then 0
    else
      var last := cuts[|cuts| - 1];
      Overshoot(cuts[..|cuts| - 1], x) + if last.offset < x < last.End() then last.End() - x else 0
  }

  lemma DeletedAppend(cuts: seq<Cut>, c: Cut, p: nat)
    ensures Deleted(cuts + [c], p) <==> Deleted(cuts, p) || Deletes(c, p)
  {
    hide Deletes;
    assert (cuts + [c])[|cuts|] == c;
    if Deleted(cuts, p) {
      var i :| 0 <= i < |cuts| && Deletes(cuts[i], p);
      assert (cuts + [c])[i] == cuts[i];
    }
  }

  lemma Front(cuts: seq<Cut>, size: nat)
    requires WellFormed(cuts, size) && cuts != []
    ensures var front, c := cuts[..|cuts| - 1], cuts[|cuts| - 1];
            && front + [c] == cuts && WellFormed(front, size) && c.bytes > 0
            && forall p: nat :: Deletes(c, p) ==> !Deleted(front, p)
  {}

  // One more cut deletes its own bytes only.
  lemma {:induction false} SurvivorsAppend(cuts: seq<Cut>, c: Cut, x: nat)
    requires forall p: nat :: Deletes(c, p) ==> !Deleted(cuts, p)
    ensures SurvivorsBelow(cuts, x)
            == SurvivorsBelow(cuts + [c], x) + if x <= c.offset then 0 else if x >= c.End() then c.bytes else x - c.offset
  {
    hide Deleted;
    if x > 0 {
      SurvivorsAppend(cuts, c, x - 1);
      DeletedAppend(cuts, c, x - 1);
    }
  }

  lemma {:induction false} NoCuts(x: nat)
    ensures SurvivorsBelow([], x) == x
  {
    if x > 0 { NoCuts(x - 1); }
  }

  // Taking away what was deleted before x counts the bytes that survive below x, except that a cut that
  // x is strictly inside of is taken away as a whole.
  lemma {:induction false} TranslationCounts(cuts: seq<Cut>, size: nat, x: nat)
    requires WellFormed(cuts, size)
    ensures x - DeletedBefore(cuts, x) == SurvivorsBelow(cuts, x) - Overshoot(cuts, x)
  {
    hide WellFormed, SurvivorsBelow, Deletes, Deleted;
    if cuts == [] {
      NoCuts(x);
    } else {
      Front(cuts, size);
      TranslationCounts(cuts[..|cuts| - 1], size, x);
      SurvivorsAppend(cuts[..|cuts| - 1], cuts[|cuts| - 1], x);
    }
  }

  lemma {:induction false} OvershootInside(cuts: seq<Cut>, x: nat)
    ensures Overshoot(cuts, x) > 0 <==> StrictlyInside(cuts, x)
  {
    if cuts != [] {
      var front, c := cuts[..|cuts| - 1], cuts[|cuts| - 1];
      OvershootInside(front, x);
      if StrictlyInside(front, x) {
        var i :| 0 <= i < |front| && front[i].offset < x < front[i].End();
        assert cuts[i] == front[i];
      }
    }
  }

  // An offset translates to the number of bytes that survive below it exactly when it is not strictly
  // inside a cut.
  lemma TranslationExactly(cuts: seq<Cut>, size: nat, x: nat)
    requires WellFormed(cuts, size)
    ensures x - DeletedBefore(cuts, x) == SurvivorsBelow(cuts, x) <==> !StrictlyInside(cuts, x)
  {
    TranslationCounts(cuts, size, x);
    OvershootInside(cuts, x);
  }

  lemma {:induction false} SurvivorsGrow(cuts: seq<Cut>, p: nat, q: nat)
    requires p <= q
    ensures SurvivorsBelow(cuts, p) <= SurvivorsBelow(cuts, q) <= SurvivorsBelow(cuts, p) + (q - p)
    ensures p < q && !Deleted(cuts, p) ==> SurvivorsBelow(cuts, p) < SurvivorsBelow(cuts, q)
    decreases q
  {
    hide Deleted;
    if p < q { SurvivorsGrow(cuts, p, q - 1); }
  }

  lemma DeletedOrInside(cuts: seq<Cut>, p: nat)
    requires StrictlyInside(cuts, p)
    ensures Deleted(cuts, p)
  {
    var i :| 0 <= i < |cuts| && cuts[i].offset < p < cuts[i].End();
    assert Deletes(cuts[i], p);
  }

  lemma {:induction false} TotalAppend(cuts: seq<Cut>, n: nat)
    requires n < |cuts|
    ensures Total(cuts[..n + 1]) == Total(cuts[..n]) + cuts[n].bytes
  {
    assert cuts[..n + 1][..n] == cuts[..n];
  }

  lemma {:induction false} TotalGrows(cuts: seq<Cut>, m: nat, n: nat)
    requires m <= n <= |cuts|
    ensures Total(cuts[..m]) <= Total(cuts[..n])
    decreases n
  {
    hide Total;
    if m < n {
      TotalGrows(cuts, m, n - 1);
      TotalAppend(cuts, n - 1);
    }
  }

  // When exactly the first k cuts start before x.
  lemma {:induction false} DeletedBeforeIsTotal(cuts: seq<Cut>, x: nat, k: nat, n: nat)
    requires k <= n <= |cuts|
    requires forall i :: 0 <= i < |cuts| ==> (cuts[i].offset < x <==> i < k)
    ensures DeletedBefore(cuts[..n], x) == Total(cuts[..k])
    decreases n
  {
    if n > 0 {
      assert cuts[..n][..n - 1] == cuts[..n - 1];
      if k < n {
        DeletedBeforeIsTotal(cuts, x, k, n - 1);
      } else {
        AllBefore(cuts, x, n);
      }
    }
  }

  lemma {:induction false} AllBefore(cuts: seq<Cut>, x: nat, n: nat)
    requires n <= |cuts| && forall i :: 0 <= i < n ==> cuts[i].offset < x
    ensures DeletedBefore(cuts[..n], x) == Total(cuts[..n])
  {
    if n > 0 {
      assert cuts[..n][..n - 1] == cuts[..n - 1];
      AllBefore(cuts, x, n - 1);
    }
  }

  // ----- Cuts and more cuts --------------------------------------------------------------------

  predicate Ascending(cuts: seq<Cut>) {
    forall i, j :: 0 <= i < j < |cuts| ==> cuts[i].offset < cuts[j].offset
  }

  function Insert(cuts: seq<Cut>, c: Cut): seq<Cut> {
    if cuts == [] || cuts[|cuts| - 1].offset <= c.offset then cuts + [c]
    else Insert(cuts[..|cuts| - 1], c) + [cuts[|cuts| - 1]]
  }

  // The cuts of a section with those of one more pass, in order of offset.
  function Merged(cuts: seq<Cut>, more: seq<Cut>): seq<Cut> {
    if more == [] then cuts else Insert(Merged(cuts, more[..|more| - 1]), more[|more| - 1])
  }

  lemma SumsAppend(cuts: seq<Cut>, c: Cut, x: nat)
    ensures DeletedBefore(cuts + [c], x) == DeletedBefore(cuts, x) + if c.offset < x then c.bytes else 0
    ensures Total(cuts + [c]) == Total(cuts) + c.bytes
  {
    assert (cuts + [c])[..|cuts|] == cuts;
  }

  lemma {:induction false} InsertDeletes(cuts: seq<Cut>, c: Cut, x: nat)
    ensures DeletedBefore(Insert(cuts, c), x) == DeletedBefore(cuts, x) + if c.offset < x then c.bytes else 0
    ensures Total(Insert(cuts, c)) == Total(cuts) + c.bytes
  {
    hide DeletedBefore, Total;
    SumsAppend(cuts, c, x);
    if cuts != [] {
      var front, last := cuts[..|cuts| - 1], cuts[|cuts| - 1];
      InsertDeletes(front, c, x);
      assert cuts == front + [last];
      SumsAppend(front, last, x);
      SumsAppend(Insert(front, c), last, x);
    }
  }

  lemma {:induction false} MergedDeletes(cuts: seq<Cut>, more: seq<Cut>, x: nat)
    ensures DeletedBefore(Merged(cuts, more), x) == DeletedBefore(cuts, x) + DeletedBefore(more, x)
    ensures Total(Merged(cuts, more)) == Total(cuts) + Total(more)
  {
    hide Insert;
    if more != [] {
      var front := more[..|more| - 1];
      MergedDeletes(cuts, front, x);
      InsertDeletes(Merged(cuts, front), more[|more| - 1], x);
    }
  }

  predicate Apart(c: Cut, d: Cut) {
    c.End() <= d.offset || d.End() <= c.offset
  }

  lemma AppendWellFormed(cuts: seq<Cut>, c: Cut, size: nat)
    requires WellFormed(cuts, size) && c.bytes > 0 && c.End() <= size
    requires forall d :: d in cuts ==> d.End() <= c.offset
    ensures WellFormed(cuts + [c], size)
  {}

  lemma BeforeLast(cuts: seq<Cut>, size: nat)
    requires WellFormed(cuts, size) && cuts != []
    ensures forall d :: d in cuts[..|cuts| - 1] ==> d.End() <= cuts[|cuts| - 1].offset
  {}

  // A cut apart from all others that starts after the last one starts after all of them.
  lemma AfterAll(cuts: seq<Cut>, c: Cut, size: nat)
    requires WellFormed(cuts, size) && c.bytes > 0 && (forall d :: d in cuts ==> Apart(d, c))
    requires cuts != [] && cuts[|cuts| - 1].offset <= c.offset
    ensures forall d :: d in cuts ==> d.End() <= c.offset
  {
    BeforeLast(cuts, size);
    var last := cuts[|cuts| - 1];
    assert last in cuts && Apart(last, c) && last.bytes > 0;
    assert cuts == cuts[..|cuts| - 1] + [last];
  }

  lemma {:induction false} InsertWellFormed(cuts: seq<Cut>, c: Cut, size: nat)
    requires WellFormed(cuts, size) && c.bytes > 0 && c.End() <= size
    requires forall d :: d in cuts ==> Apart(d, c)
    ensures WellFormed(Insert(cuts, c), size)
    ensures forall d :: d in Insert(cuts, c) <==> d in cuts || d == c
  {
    hide WellFormed;
    if cuts == [] || cuts[|cuts| - 1].offset <= c.offset {
      if cuts != [] { AfterAll(cuts, c, size); }
      AppendWellFormed(cuts, c, size);
    } else {
      hide Insert;
      var front, last := cuts[..|cuts| - 1], cuts[|cuts| - 1];
      Front(cuts, size);
      InsertWellFormed(front, c, size);
      BeforeLast(cuts, size);
      assert last in cuts && Apart(last, c);
      LastIn(cuts, size);
      AppendWellFormed(Insert(front, c), last, size);
      InsertLater(cuts, c);
    }
  }

  lemma LastIn(cuts: seq<Cut>, size: nat)
    requires WellFormed(cuts, size) && cuts != []
    ensures cuts[|cuts| - 1].bytes > 0 && cuts[|cuts| - 1].End() <= size
  {}

  lemma InsertLater(cuts: seq<Cut>, c: Cut)
    requires cuts != [] && c.offset < cuts[|cuts| - 1].offset
    ensures Insert(cuts, c) == Insert(cuts[..|cuts| - 1], c) + [cuts[|cuts| - 1]]
  {}

  // Cuts that are all apart stay well formed together.
  lemma {:induction false} MergedWellFormed(cuts: seq<Cut>, more: seq<Cut>, size: nat)
    requires WellFormed(cuts, size) && WellFormed(more, size)
    requires forall c, d :: c in cuts && d in more ==> Apart(c, d)
    ensures WellFormed(Merged(cuts, more), size)
    ensures forall d :: d in Merged(cuts, more) <==> d in cuts || d in more
  {
    hide Insert, Apart, WellFormed;
    if more != [] {
      var front, c := more[..|more| - 1], more[|more| - 1];
      Front(more, size);
      MergedWellFormed(cuts, front, size);
      EarlierAreApart(front, c, size);
      LastIn(more, size);
      InsertWellFormed(Merged(cuts, front), c, size);
    }
  }

  lemma EarlierAreApart(front: seq<Cut>, c: Cut, size: nat)
    requires WellFormed(front + [c], size)
    ensures forall d :: d in front ==> Apart(d, c)
  {
    BeforeLast(front + [c], size);
    assert (front + [c])[..|front|] == front;
  }

  // ----- The recorded deltas -------------------------------------------------------------------

  datatype Delta = Delta(offset: nat, cumulative: nat, bytes: nat)

  function DeltaOf(cuts: seq<Cut>, i: nat): Delta
    requires i < |cuts|
  {
    Delta(cuts[i].offset, Total(cuts[..i + 1]), cuts[i].bytes)
  }

  ghost predicate Represents(deltas: seq<Delta>, cuts: seq<Cut>) {
    |deltas| == |cuts| && forall i :: 0 <= i < |cuts| ==> deltas[i] == DeltaOf(cuts, i)
  }

  lemma RepresentsAppend(deltas: seq<Delta>, cuts: seq<Cut>, n: nat)
    requires n < |cuts| && Represents(deltas, cuts[..n])
    ensures Represents(deltas + [DeltaOf(cuts, n)], cuts[..n + 1])
  {
    hide Total;
    var all := deltas + [DeltaOf(cuts, n)];
    forall i | 0 <= i < n + 1 ensures all[i] == DeltaOf(cuts[..n + 1], i) {
      assert cuts[..n + 1][..i + 1] == cuts[..i + 1];
      if i < n {
        assert all[i] == DeltaOf(cuts[..n], i);
        assert cuts[..n][..i + 1] == cuts[..i + 1];
      }
    }
  }

  method WithCumulative(raw: seq<Cut>) returns (deltas: seq<Delta>)
    ensures Represents(deltas, raw)
  {
    hide Total;
    deltas := [];
    var running := 0;
    assert raw[..0] == [] && Total([]) == 0 by { NothingDeleted(); }
    for i := 0 to |raw|
      invariant running == Total(raw[..i]) && Represents(deltas, raw[..i])
    {
      TotalAppend(raw, i);
      running := running + raw[i].bytes;
      RepresentsAppend(deltas, raw, i);
      deltas := deltas + [Delta(raw[i].offset, running, raw[i].bytes)];
    }
    assert raw[..|raw|] == raw;
  }

  class SectionRelaxDeltas {
    var deltas: seq<Delta>
    ghost var cuts: seq<Cut>

    ghost predicate Valid()
      reads this
    {
      Represents(deltas, cuts) && Ascending(cuts)
    }

    constructor (raw: seq<Cut>)
      requires Ascending(raw)
      ensures Valid() && cuts == raw
    {
      var d := WithCumulative(raw);
      deltas, cuts := d, raw;
    }

    // Deltas of a further pass.
    method MergeAdditional(additional: seq<Cut>)
      requires Valid() && Ascending(Merged(cuts, additional))
      modifies this
      ensures Valid() && cuts == Merged(old(cuts), additional)
    {
      hide Total, Ascending, Merged;
      if additional == [] {
        NothingMerged(cuts);
        return;
      }
      var raw: seq<Cut> := [];
      for i := 0 to |deltas|
        invariant Valid() && cuts == old(cuts) && raw == cuts[..i]
      {
        assert deltas[i] == DeltaOf(cuts, i);
        raw := raw + [Cut(deltas[i].offset, deltas[i].bytes)];
      }
      var merged := Merged(raw, additional);
      assert cuts[..|deltas|] == cuts;
      var d := WithCumulative(merged);
      deltas, cuts := d, merged;
    }

    method TotalDeleted() returns (total: nat)
      requires Valid()
      ensures total == Total(cuts)
    {
      assert cuts != [] ==> cuts[..|cuts| - 1 + 1] == cuts;
      total := if deltas == [] then 0 else deltas[|deltas| - 1].cumulative;
    }

    // The number of deltas that start before x, by bisection.
    method PartitionPoint(x: nat) returns (k: nat)
      requires Valid()
      ensures k <= |deltas| && forall i :: 0 <= i < |cuts| ==> (cuts[i].offset < x <==> i < k)
    {
      var lo, hi := 0, |deltas|;
      while lo < hi
        invariant lo <= hi <= |deltas|
        invariant forall i :: 0 <= i < lo ==> cuts[i].offset < x
        invariant forall i :: hi <= i < |cuts| ==> x <= cuts[i].offset
      {
        var mid := (lo + hi) / 2;
        assert deltas[mid] == DeltaOf(cuts, mid);
        if deltas[mid].offset < x { lo := mid + 1; } else { hi := mid; }
      }
      k := lo;
    }

    // Negative where the source would wrap around: only strictly inside a cut.
    method InputToOutputOffset(x: nat) returns (r: int)
      requires Valid()
      ensures r == x - DeletedBefore(cuts, x)
    {
      var k := PartitionPoint(x);
      DeletedBeforeIsTotal(cuts, x, k, |cuts|);
      assert cuts[..|cuts|] == cuts;
      if k == 0 { return x; }
      assert deltas[k - 1] == DeltaOf(cuts, k - 1);
      r := x - deltas[k - 1].cumulative;
    }

    // Whether a delta starts at x, and how long it is.
    method DeltaBytesAt(x: nat) returns (bytes: nat)
      requires Valid()
      ensures forall i :: 0 <= i < |cuts| && cuts[i].offset == x ==> bytes == cuts[i].bytes
      ensures (forall i :: 0 <= i < |cuts| ==> cuts[i].offset != x) ==> bytes == 0
    {
      var k := PartitionPoint(x);
      if k < |deltas| {
        assert deltas[k] == DeltaOf(cuts, k);
        if deltas[k].offset == x { return deltas[k].bytes; }
      }
      bytes := 0;
    }

    method HasDeltaAt(x: nat) returns (found: bool)
      requires Valid()
      ensures found <==> StartsAt(cuts, x)
    {
      var k := PartitionPoint(x);
      if k < |deltas| {
        assert deltas[k] == DeltaOf(cuts, k);
        if deltas[k].offset == x { return true; }
      }
      found := false;
    }

    // Back from the output: the place after every deletion that ends at or before it.
    method OutputToInputOffset(o: nat, ghost size: nat) returns (p: nat)
      requires Valid() && WellFormed(cuts, size)
      ensures !Deleted(cuts, p) && SurvivorsBelow(cuts, p) == o
    {
      hide Total;
      var lo, hi := 0, |deltas|;
      while lo < hi
        invariant lo <= hi <= |deltas|
        invariant forall i :: 0 <= i < lo ==> EndsBy(cuts, i, o)
        invariant forall i :: hi <= i < |cuts| ==> !EndsBy(cuts, i, o)
      {
        var mid := (lo + hi) / 2;
        var d := deltas[mid];
        assert d == DeltaOf(cuts, mid);
        if d.offset + d.bytes - d.cumulative <= o {
          forall i | 0 <= i < mid ensures EndsBy(cuts, i, o) { EndsInOrder(cuts, size, i, mid, o); }
          lo := mid + 1;
        } else {
          forall i | mid < i < |cuts| ensures !EndsBy(cuts, i, o) { EndsInOrder(cuts, size, mid, i, o); }
          hi := mid;
        }
      }
      BackExactly(cuts, size, lo, o);
      if lo == 0 {
        NothingDeleted();
        assert cuts[..0] == [];
        return o;
      }
      assert deltas[lo - 1] == DeltaOf(cuts, lo - 1);
      p := o + deltas[lo - 1].cumulative;
    }
  }

  lemma NothingDeleted()
    ensures Total([]) == 0
  {}

  lemma NothingMerged(cuts: seq<Cut>)
    ensures Merged(cuts, []) == cuts
  {}

  predicate StartsAt(cuts: seq<Cut>, x: nat) {
    exists i :: 0 <= i < |cuts| && cuts[i].offset == x
  }

  // Cut number i ends, in the output, at or before o.
  predicate EndsBy(cuts: seq<Cut>, i: nat, o: nat)
    requires i < |cuts|
  {
    cuts[i].End() - Total(cuts[..i + 1]) <= o
  }

  lemma {:induction false} EndsInOrder(cuts: seq<Cut>, size: nat, i: nat, j: nat, o: nat)
    requires WellFormed(cuts, size) && i <= j < |cuts|
    ensures cuts[i].End() - Total(cuts[..i + 1]) <= cuts[j].End() - Total(cuts[..j + 1])
    ensures EndsBy(cuts, j, o) ==> EndsBy(cuts, i, o)
    decreases j
  {
    hide Total;
    if i < j {
      EndsInOrder(cuts, size, i, j - 1, o);
      TotalAppend(cuts, j);
    }
  }

  lemma BackExactly(cuts: seq<Cut>, size: nat, k: nat, o: nat)
    requires WellFormed(cuts, size) && k <= |cuts|
    requires forall i :: 0 <= i < |cuts| ==> (EndsBy(cuts, i, o) <==> i < k)
    ensures var p := o + Total(cuts[..k]);
            !Deleted(cuts, p) && SurvivorsBelow(cuts, p) == o
  {
    hide Total, SurvivorsBelow;
    var p := o + Total(cuts[..k]);
    forall i | 0 <= i < |cuts| ensures (cuts[i].offset < p <==> i < k) && !Deletes(cuts[i], p) {
      BackCut(cuts, size, k, i, o);
    }
    DeletedBeforeIsTotal(cuts, p, k, |cuts|);
    assert cuts[..|cuts|] == cuts;
    TranslationExactly(cuts, size, p);
    if StrictlyInside(cuts, p) { DeletedOrInside(cuts, p); }
  }

  lemma BackCut(cuts: seq<Cut>, size: nat, k: nat, i: nat, o: nat)
    requires WellFormed(cuts, size) && i < |cuts| && k <= |cuts|
    requires forall j :: 0 <= j < |cuts| ==> (EndsBy(cuts, j, o) <==> j < k)
    ensures var p := o + Total(cuts[..k]);
            (cuts[i].offset < p <==> i < k) && !Deletes(cuts[i], p)
  {
    hide Total;
    if i < k {
      assert EndsBy(cuts, i, o);
      TotalGrows(cuts, i + 1, k);
    } else {
      assert !EndsBy(cuts, k, o);
      TotalAppend(cuts, k);
      assert i > k ==> cuts[k].End() <= cuts[i].offset;
    }
  }

  // ----- There and back ------------------------------------------------------------------------

  // What OutputToInputOffset returns: its contract fixes the value.
  lemma BackIsUnique(cuts: seq<Cut>, p: nat, q: nat)
    requires !Deleted(cuts, p) && !Deleted(cuts, q) && SurvivorsBelow(cuts, p) == SurvivorsBelow(cuts, q)
    ensures p == q
  {
    hide Deleted, SurvivorsBelow;
    if p < q {
      SurvivorsGrow(cuts, p, q);
    } else if q < p {
      SurvivorsGrow(cuts, q, p);
    }
  }

  // An offset comes back from the output exactly when its byte survives.
  lemma ThereAndBackExactly(cuts: seq<Cut>, size: nat, p: nat, q: nat)
    requires WellFormed(cuts, size) && p >= DeletedBefore(cuts, p)
    requires !Deleted(cuts, q) && SurvivorsBelow(cuts, q) == p - DeletedBefore(cuts, p)
    ensures q == p <==> !Deleted(cuts, p)
  {
    hide Deleted, SurvivorsBelow, DeletedBefore;
    if !Deleted(cuts, p) {
      if StrictlyInside(cuts, p) { DeletedOrInside(cuts, p); }
      TranslationExactly(cuts, size, p);
      BackIsUnique(cuts, p, q);
    }
  }

  // No delta ever starts where an output offset comes back to. So asking HasDeltaAt there, to find out
  // whether the instruction of a relocation was deleted, is never answered with yes.
  lemma NoDeltaWhereItComesBack(cuts: seq<Cut>, size: nat, q: nat)
    requires WellFormed(cuts, size) && !Deleted(cuts, q)
    ensures !StartsAt(cuts, q)
  {
    if i :| 0 <= i < |cuts| && cuts[i].offset == q {
      assert Deletes(cuts[i], q);
    }
  }
}
