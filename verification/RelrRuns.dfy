// RELR runs that carry on from one section to the next, as those of script-sorted sections do.
module RelrRuns {
  import opened Words
  import opened Relr
  import opened RelrTable

  // ----- Without a reset between sections ------------------------------------------------------

  // The run that carries on over all sections before section k.
  function RunBefore(c: ElfClass, packing: bool, sections: seq<Section>, k: nat): Run
    requires k <= |sections|
  {
    RunOver(c, AllPlaces(packing, sections[..k]))
  }

  // What that run makes of the first place of section k.
  function StepInto(c: ElfClass, packing: bool, sections: seq<Section>, k: nat): Option<Transition>
    requires k < |sections|
  {
    var run := Packed(packing, sections[k].relocations, sections[k].address);
    if run == [] then None else Some(Encode(c, RunBefore(c, packing, sections, k).state, run[0]))
  }

  // Section k opens a new address entry, or packs nothing.
  ghost predicate OpensRun(c: ElfClass, packing: bool, sections: seq<Section>, k: nat)
    requires k < |sections|
  {
    var t := StepInto(c, packing, sections, k);
    t.Some? ==> t.value == NewRun(c, Packed(packing, sections[k].relocations, sections[k].address)[0])
  }

  // A run that opens a new address entry goes on as if it had just begun.
  lemma {:induction false} RunGoesOn(c: ElfClass, front: seq<nat>, rest: seq<nat>)
    requires rest != [] && Encode(c, RunOver(c, front).state, rest[0]) == NewRun(c, rest[0])
    ensures RunOver(c, front + rest)
            == Run(RunOver(c, rest).state, RunOver(c, front).entries + RunOver(c, rest).entries)
  {
    hide Encode, RunOver;
    var n := |rest| - 1;
    var most, last := rest[..n], rest[n];
    assert front + rest == front + most + [last] && rest == most + [last];
    RunOverAppend(c, front + most, last);
    RunOverAppend(c, most, last);
    if n > 0 {
      RunGoesOn(c, front, most);
      ApplyConcat(RunOver(c, front).entries, RunOver(c, most).entries, Encode(c, RunOver(c, most).state, last).step);
    } else {
      assert front + most == front;
      NothingEncoded(c);
      FirstStep(c, last);
    }
  }

  lemma FirstStep(c: ElfClass, address: nat)
    ensures Encode(c, NoRun, address) == NewRun(c, address)
  {}

  lemma ApplyConcat(a: seq<nat>, b: seq<nat>, step: Step)
    requires step.Update? ==> b != []
    ensures Apply(a + b, step) == a + Apply(b, step)
  {
    if step.Update? { assert (a + b)[..|a + b| - 1] == a + b[..|b| - 1]; }
  }

  // Where every section opens a new address entry, a run that is never reset writes the same table.
  lemma {:induction false} NoResetAgrees(c: ElfClass, packing: bool, sections: seq<Section>, n: nat)
    requires n <= |sections| && forall k :: 0 <= k < n ==> OpensRun(c, packing, sections, k)
    ensures RunBefore(c, packing, sections, n).entries == AllEntries(c, packing, sections[..n])
  {
    hide Encode, RunOver, Packed, AllPlaces, AllEntries;
    if n == 0 {
      NoSections(c, packing);
      NoPlaces(packing);
      NothingEncoded(c);
      assert sections[..0] == [];
    } else {
      var k := n - 1;
      NoResetAgrees(c, packing, sections, k);
      OneMoreSection(c, packing, sections, k);
      var front, run := AllPlaces(packing, sections[..k]), Packed(packing, sections[k].relocations, sections[k].address);
      assert OpensRun(c, packing, sections, k);
      if run == [] {
        NothingEncoded(c);
        assert front + run == front;
      } else {
        RunGoesOn(c, front, run);
      }
    }
  }

  lemma NoPlaces(packing: bool)
    ensures AllPlaces(packing, []) == []
  {}

  // Sections of one place: what is reserved for them all is as much more than the table takes as there
  // are places that only overwrite an entry.
  function Overwrites(c: ElfClass, packing: bool, sections: seq<Section>, n: nat): nat
    requires n <= |sections|
  {
    if n == 0 then 0
    else
      var t := StepInto(c, packing, sections, n - 1);
      Overwrites(c, packing, sections, n - 1) + if t.Some? && t.value.step.Update? then 1 else 0
  }

  ghost predicate OnePlaceEach(packing: bool, sections: seq<Section>) {
    forall k :: 0 < k < |sections| ==> |Packed(packing, sections[k].relocations, sections[k].address)| <= 1
  }

  lemma {:induction false} SinglePlacesDiffer(c: ElfClass, packing: bool, sections: seq<Section>, n: nat)
    requires n <= |sections| && OnePlaceEach(packing, sections)
    ensures |RunBefore(c, packing, sections, n).entries| + Overwrites(c, packing, sections, n)
            == |AllEntries(c, packing, sections[..n])|
  {
    hide RunBefore, Packed, AllEntries, StepInto;
    if n == 0 {
      FirstSection(c, packing, sections);
    } else {
      SinglePlacesDiffer(c, packing, sections, n - 1);
      SinglePlaceDiffers(c, packing, sections, n - 1);
    }
  }

  lemma SinglePlaceDiffers(c: ElfClass, packing: bool, sections: seq<Section>, k: nat)
    requires k < |sections|
    requires k > 0 ==> |Packed(packing, sections[k].relocations, sections[k].address)| <= 1
    ensures var t := StepInto(c, packing, sections, k);
            |RunBefore(c, packing, sections, k + 1).entries| + (if t.Some? && t.value.step.Update? then 1 else 0)
            == |RunBefore(c, packing, sections, k).entries|
               + |AllEntries(c, packing, sections[..k + 1])| - |AllEntries(c, packing, sections[..k])|
  {
    hide Encode, RunOver, Packed, AllPlaces, AllEntries;
    OneMoreSection(c, packing, sections, k);
    var front, run := AllPlaces(packing, sections[..k]), Packed(packing, sections[k].relocations, sections[k].address);
    if run == [] {
      NothingEncoded(c);
      assert front + run == front;
    } else if k == 0 {
      FirstSection(c, packing, sections);
      assert front + run == run;
    } else {
      assert run == [run[0]];
      OnePlaceMore(c, front, run[0]);
    }
  }

  lemma OnePlaceMore(c: ElfClass, front: seq<nat>, x: nat)
    ensures |RunOver(c, [x]).entries| == 1
    ensures |RunOver(c, front + [x]).entries|
            == |RunOver(c, front).entries| + if Encode(c, RunOver(c, front).state, x).step.Update? then 0 else 1
  {
    hide Encode, RunOver;
    OneAddress(c, x);
    RunOverAppend(c, front, x);
  }

  lemma FirstSection(c: ElfClass, packing: bool, sections: seq<Section>)
    ensures AllEntries(c, packing, sections[..0]) == [] && RunBefore(c, packing, sections, 0) == Run(NoRun, [])
    ensures sections != [] ==> var t := StepInto(c, packing, sections, 0); t.Some? ==> t.value.step.New?
  {
    hide Packed;
    assert sections[..0] == [];
    NothingEncoded(c);
  }

  // When all sections but the first have at most one place, the counts agree exactly when no place at
  // the start of a section falls into the bitmap that is being filled. Otherwise too much is reserved.
  lemma NoResetAgreesExactly(c: ElfClass, packing: bool, sections: seq<Section>)
    requires OnePlaceEach(packing, sections)
    ensures var written, reserved := RunOver(c, AllPlaces(packing, sections)).entries, AllEntries(c, packing, sections);
            && |written| <= |reserved|
            && (|written| == |reserved|
                <==> forall k :: 0 <= k < |sections| ==>
                       var t := StepInto(c, packing, sections, k); t.Some? ==> t.value.step.New?)
  {
    hide RunOver, StepInto, AllPlaces, AllEntries, OnePlaceEach;
    assert sections[..|sections|] == sections;
    SinglePlacesDiffer(c, packing, sections, |sections|);
    OverwritesNone(c, packing, sections, |sections|);
  }

  lemma {:induction false} OverwritesNone(c: ElfClass, packing: bool, sections: seq<Section>, n: nat)
    requires n <= |sections|
    ensures Overwrites(c, packing, sections, n) == 0
       <==> forall k :: 0 <= k < n ==> var t := StepInto(c, packing, sections, k); t.Some? ==> t.value.step.New?
  {
    hide StepInto;
    if n > 0 { OverwritesNone(c, packing, sections, n - 1); }
  }

  // Two words, and one word right behind them.
  function Adjacent(c: ElfClass, at: nat): seq<Section> {
    var w := WordSize(c);
    [Section(at, [Relocation(0, 0), Relocation(w, 0)]), Section(at + 2 * w, [Relocation(0, 0)])]
  }

  lemma AdjacentPacked(c: ElfClass, at: nat)
    requires at % 2 == 0
    ensures var s, w := Adjacent(c, at), WordSize(c);
            && Packed(true, s[0].relocations, 0) == [0, w] && Packed(true, s[1].relocations, 0) == [0]
            && Packed(true, s[0].relocations, at) == [at, at + w]
            && Packed(true, s[1].relocations, at + 2 * w) == [at + 2 * w]
  {
    PackedTwo(0, WordSize(c));
    PackedTwo(at, WordSize(c));
    assert Adjacent(c, at)[1].relocations[..0] == [];
  }

  // Without a reset between sections the run carries on across the boundary and emits fewer entries
  // than layout reserved section by section.
  lemma NoResetDisagrees(c: ElfClass, at: nat)
    requires at % 2 == 0
    ensures Total(c, true, Adjacent(c, at)).relr == 3
    ensures |RunOver(c, AllPlaces(true, Adjacent(c, at))).entries| == 2
  {
    hide RunOver, Packed, Unpacked;
    var s, w := Adjacent(c, at), WordSize(c);
    AdjacentPacked(c, at);
    ThreeWords(c, 0);
    OneAddress(c, 0);
    ThreeWords(c, at);
    assert s[..1][..0] == [] && s[..1] == [s[0]];
    assert Total(c, true, []).relr == 0 && AllPlaces(true, []) == [];
    assert Total(c, true, s[..1]).relr == 2;
    assert AllPlaces(true, s[..1]) == [] + Packed(true, s[0].relocations, at) == [at, at + w];
    assert AllPlaces(true, s) == [at, at + w] + Packed(true, s[1].relocations, at + 2 * w);
    assert AllPlaces(true, s) == [at, at + w] + [at + 2 * w] == [at, at + w, at + 2 * w];
  }

  lemma PackedTwo(base: nat, w: nat)
    requires base % 2 == 0 && w % 2 == 0
    ensures Packed(true, [Relocation(0, 0), Relocation(w, 0)], base) == [base, base + w]
  {
    var rs := [Relocation(0, 0), Relocation(w, 0)];
    assert rs[..1] == [Relocation(0, 0)] && rs[..1][..0] == [];
    assert Packed(true, rs[..1], base) == [base];
  }

  // Three consecutive words: an address, a bitmap, and the same bitmap overwritten.
  lemma ThreeWords(c: ElfClass, base: nat)
    ensures var w := WordSize(c);
            && |RunOver(c, [base, base + w]).entries| == 2
            && |RunOver(c, [base, base + w, base + 2 * w]).entries| == 2
  {
    hide RunOver, Encode;
    ThreeSteps(c, base);
    TwoThenOne(c, base, base + WordSize(c), base + 2 * WordSize(c));
  }

  lemma TwoThenOne(c: ElfClass, x: nat, y: nat, z: nat)
    requires var t1 := Encode(c, NoRun, x);
             var t2 := Encode(c, t1.state, y);
             t1.step.New? && t2.step.New? && Encode(c, t2.state, z).step.Update?
    ensures |RunOver(c, [x, y]).entries| == 2 && |RunOver(c, [x, y, z]).entries| == 2
  {
    hide RunOver, Encode;
    EmptySection(c, true);
    RunOverAppend(c, [], x);
    RunOverAppend(c, [x], y);
    RunOverAppend(c, [x, y], z);
    assert [] + [x] == [x] && [x] + [y] == [x, y] && [x, y] + [z] == [x, y, z];
  }

  lemma ThreeSteps(c: ElfClass, base: nat)
    ensures var w := WordSize(c);
            var t1 := Encode(c, NoRun, base);
            var t2 := Encode(c, t1.state, base + w);
            t1.step.New? && t2.step.New? && Encode(c, t2.state, base + 2 * w).step.Update?
  {
    hide SetBit;
    var w := WordSize(c);
    var next := After(c, base);
    assert Insert(c, next, base + w) == Some(next.(encoded := SetBit(1, 1)));
    assert Insert(c, next.(encoded := SetBit(1, 1)), base + 2 * w).Some?;
  }

  // ----- Sections in ascending order -----------------------------------------------------------

  // The run has come to address x.
  ghost predicate Holding(c: ElfClass, state: State, x: nat) {
    match state
    case NoRun => false
    case AddressOnly(next) => next == After(c, x)
    case WithBitmap(b) => b.lo <= x < b.hi && b.hi == b.lo + Span(c) && (x - b.lo) % WordSize(c) == 0
  }

  // Whatever comes next, the first run takes no entry for it that the second does not.
  ghost predicate Ahead(a: State, b: State) {
    b.AddressOnly? || (a.WithBitmap? && b.WithBitmap? && b.bitmap.hi <= a.bitmap.hi)
  }

  lemma StepHolds(c: ElfClass, state: State, q: nat)
    requires state.AddressOnly? ==> state.next.hi == state.next.lo + Span(c)
    requires state.WithBitmap? ==> state.bitmap.hi == state.bitmap.lo + Span(c)
    ensures Holding(c, Encode(c, state, q).state, q)
  {
    hide SetBit;
  }

  lemma InLine(c: ElfClass, lo: int, x: int, q: int)
    requires (x - lo) % WordSize(c) == 0
    ensures (q - lo) % WordSize(c) == 0 <==> (q - x) % WordSize(c) == 0
    ensures (q - (lo + Span(c))) % WordSize(c) == 0 <==> (q - lo) % WordSize(c) == 0
  {
    match c
    case Class32 => assert x - lo == 4 * ((x - lo) / 4) && Span(c) == 4 * 31;
    case Class64 => assert x - lo == 8 * ((x - lo) / 8) && Span(c) == 8 * 63;
  }

  // Within its window, and within the window after it, a bitmap takes the words it is in line with.
  lemma TakesNear(c: ElfClass, b: Bitmap, x: nat, q: nat)
    requires Holding(c, WithBitmap(b), x) && x < q && (q - x) % WordSize(c) == 0
    ensures q < b.hi <==> Insert(c, b, q).Some?
    ensures b.hi <= q < b.hi + Span(c) <==> Insert(c, Following(c, b), q).Some?
    ensures Insert(c, b, q).Some? ==> Insert(c, b, q).value.hi == b.hi
    ensures Insert(c, Following(c, b), q).Some? ==> Insert(c, Following(c, b), q).value.hi == b.hi + Span(c)
  {
    InLine(c, b.lo, x, q);
    hide SetBit, WordSize, Span;
  }

  lemma TakesAfter(c: ElfClass, x: nat, q: nat)
    requires x < q && (q - x) % WordSize(c) == 0
    ensures q < x + WordSize(c) + Span(c) <==> Insert(c, After(c, x), q).Some?
    ensures Insert(c, After(c, x), q).Some? ==> Insert(c, After(c, x), q).value.hi == x + WordSize(c) + Span(c)
  {
    InLine(c, x, x + WordSize(c), q);
    assert q >= x + WordSize(c);
    hide SetBit, Span;
  }

  // How a run that has come to x takes an address in line with it.
  lemma StepInLine(c: ElfClass, state: State, x: nat, q: nat)
    requires Holding(c, state, x) && x < q && (q - x) % WordSize(c) == 0
    ensures var t := Encode(c, state, q);
            match state
            case NoRun => true
            case AddressOnly(_) =>
              && t.step.New?
              && if q < x + WordSize(c) + Span(c) then t.state.WithBitmap? && t.state.bitmap.hi == x + WordSize(c) + Span(c)
                 else t.state.AddressOnly?
            case WithBitmap(b) =>
              && (t.step.Update? <==> q < b.hi)
              && if q < b.hi then t.state.WithBitmap? && t.state.bitmap.hi == b.hi
                 else if q < b.hi + Span(c) then t.state.WithBitmap? && t.state.bitmap.hi == b.hi + Span(c)
                 else t.state.AddressOnly?
  {
    if state.AddressOnly? { TakesAfter(c, x, q); }
    if state.WithBitmap? { TakesNear(c, state.bitmap, x, q); }
    hide Insert, After, Following, Span, WordSize;
  }

  // Windows are whole words.
  lemma WindowEnds(c: ElfClass, b: Bitmap, x: nat)
    requires Holding(c, WithBitmap(b), x)
    ensures x + WordSize(c) <= b.hi <= x + Span(c)
  {}

  // Two runs that have both come to x take one more address.
  lemma StepTogether(c: ElfClass, a: State, b: State, x: nat, q: nat)
    requires Holding(c, a, x) && Holding(c, b, x) && x < q
    ensures var t, u := Encode(c, a, q), Encode(c, b, q);
            && (u.step.Update? && t.step.New? ==> Ahead(t.state, u.state))
            && (Ahead(a, b) ==> (u.step.Update? ==> t.step.Update?)
                                && ((t.step.New? <==> u.step.New?) ==> Ahead(t.state, u.state)))
  {
    hide Encode, After;
    if a.WithBitmap? { WindowEnds(c, a.bitmap, x); }
    if b.WithBitmap? { WindowEnds(c, b.bitmap, x); }
    if (q - x) % WordSize(c) == 0 {
      StepInLine(c, a, x, q);
      StepInLine(c, b, x, q);
    } else {
      OutOfLine(c, a, x, q);
      OutOfLine(c, b, x, q);
    }
  }

  lemma OutOfLine(c: ElfClass, state: State, x: nat, q: nat)
    requires Holding(c, state, x) && x < q && (q - x) % WordSize(c) != 0
    ensures Encode(c, state, q) == NewRun(c, q)
  {
    if state.AddressOnly? {
      InLine(c, x, x + WordSize(c), q);
    } else {
      InLine(c, state.bitmap.lo, x, q);
    }
    hide SetBit, WordSize, Span;
  }

  lemma {:induction false} RunHolds(c: ElfClass, addresses: seq<nat>)
    requires addresses != []
    ensures Holding(c, RunOver(c, addresses).state, addresses[|addresses| - 1])
  {
    hide Encode, RunOver;
    var n := |addresses| - 1;
    assert addresses == addresses[..n] + [addresses[n]];
    RunOverAppend(c, addresses[..n], addresses[n]);
    if n > 0 { RunHolds(c, addresses[..n]); } else { NothingEncoded(c); }
    StepHolds(c, RunOver(c, addresses[..n]).state, addresses[n]);
  }

  // Carrying on never costs an entry, and if it saves none the run is ahead of a new one.
  lemma {:induction false} CarryingOnSaves(c: ElfClass, front: seq<nat>, rest: seq<nat>)
    requires rest != [] && Increasing(front + rest)
    ensures var saved := |RunOver(c, front).entries| + |RunOver(c, rest).entries| - |RunOver(c, front + rest).entries|;
            saved >= 0 && (saved == 0 ==> Ahead(RunOver(c, front + rest).state, RunOver(c, rest).state))
  {
    hide Encode, RunOver, Holding, Ahead;
    var n := |rest| - 1;
    var most, q := rest[..n], rest[n];
    assert front + rest == front + most + [q] && rest == most + [q];
    RunOverAppend(c, front + most, q);
    RunOverAppend(c, most, q);
    NothingEncoded(c);
    if n == 0 {
      assert front + most == front;
      FirstStep(c, q);
      AheadOfNew(RunOver(c, front + rest).state, NewRun(c, q).state);
    } else {
      var x := most[n - 1];
      assert (front + most)[|front| + n - 1] == (front + rest)[|front| + n - 1] == x && (front + rest)[|front| + n] == q;
      assert Increasing(front + most) by { forall i | 0 <= i < |front + most| ensures (front + most)[i] == (front + rest)[i] {} }
      CarryingOnSaves(c, front, most);
      RunHolds(c, front + most);
      RunHolds(c, most);
      StepTogether(c, RunOver(c, front + most).state, RunOver(c, most).state, x, q);
    }
  }

  lemma AheadOfNew(a: State, b: State)
    requires b.AddressOnly?
    ensures Ahead(a, b)
  {}

  // With places in ascending order over all sections, a run that is never reset does with what is reserved.
  lemma {:induction false} NoResetNeedsLess(c: ElfClass, packing: bool, sections: seq<Section>, n: nat)
    requires n <= |sections| && Increasing(AllPlaces(packing, sections[..n]))
    ensures |RunBefore(c, packing, sections, n).entries| <= |AllEntries(c, packing, sections[..n])|
  {
    hide Encode, RunOver, Packed, AllPlaces, AllEntries;
    if n == 0 {
      FirstSection(c, packing, sections);
    } else {
      var k := n - 1;
      OneMoreSection(c, packing, sections, k);
      var front, run := AllPlaces(packing, sections[..k]), Packed(packing, sections[k].relocations, sections[k].address);
      assert Increasing(front) by { forall i | 0 <= i < |front| ensures front[i] == (front + run)[i] {} }
      NoResetNeedsLess(c, packing, sections, k);
      if run == [] {
        assert front + run == front;
      } else {
        CarryingOnSaves(c, front, run);
      }
    }
  }

  // ----- Places that do not ascend -------------------------------------------------------------

  // What a run makes of one more address: a new address entry, a new bitmap from lo on, or the bitmap that
  // is being filled once more.
  datatype Move = Opened | Window(lo: nat) | Again

  ghost predicate At(c: ElfClass, state: State, move: Move, x: nat) {
    match move
    case Opened => state == AddressOnly(After(c, x))
    case Window(lo) => state.WithBitmap? && state.bitmap.lo == lo && state.bitmap.hi == lo + Span(c)
    case Again => false
  }

  lemma MoveOn(c: ElfClass, front: seq<nat>, x: nat, before: Move, last: nat, move: Move)
    requires front == [] || At(c, RunOver(c, front).state, before, last)
    requires match move
             case Opened => front == [] || Opens(c, before, last, x)
             case Window(lo) => front != [] && Continues(c, before, last, lo, x)
             case Again => front != [] && before.Window? && before.lo <= x < before.lo + Span(c) && (x - before.lo) % WordSize(c) == 0
    ensures |RunOver(c, front + [x]).entries| == |RunOver(c, front).entries| + (if move.Again? then 0 else 1)
    ensures At(c, RunOver(c, front + [x]).state, if move.Again? then before else move, x)
  {
    hide RunOver, SetBit, WordSize, Span;
    NothingEncoded(c);
    RunOverAppend(c, front, x);
  }

  // The next window starts at lo, and x is in it.
  ghost predicate Continues(c: ElfClass, before: Move, last: nat, lo: nat, x: nat) {
    && lo <= x < lo + Span(c) && (x - lo) % WordSize(c) == 0
    && match before
       case Opened => lo == last + WordSize(c)
       case Window(b) => lo == b + Span(c)
       case Again => false
  }

  // x is in no window that the run would try.
  ghost predicate Opens(c: ElfClass, before: Move, last: nat, x: nat) {
    match before
    case Opened => !(last + WordSize(c) <= x < last + WordSize(c) + Span(c))
    case Window(b) => !(b <= x < b + 2 * Span(c))
    case Again => false
  }

  // Two words, and four in a section further on, not in order.
  function Unsorted(at: nat): seq<Section> {
    [Section(at, [Relocation(0, 0), Relocation(8, 0)]),
     Section(at + 624, [Relocation(0, 0), Relocation(480, 0), Relocation(192, 0), Relocation(64, 0)])]
  }

  lemma SixWritten(at: nat)
    ensures |RunOver(Class64, [at, at + 8, at + 624, at + 1104, at + 816, at + 688]).entries| == 6
  {
    hide RunOver, At;
    var s1, s2, s3 := [at], [at, at + 8], [at, at + 8, at + 624];
    var s4, s5 := s3 + [at + 1104], s3 + [at + 1104] + [at + 816];
    NothingEncoded(Class64);
    MoveOn(Class64, [], at, Again, 0, Opened);
    assert [] + [at] == s1 && s1 + [at + 8] == s2 && s2 + [at + 624] == s3;
    MoveOn(Class64, s1, at + 8, Opened, at, Window(at + 8));
    MoveOn(Class64, s2, at + 624, Window(at + 8), at + 8, Window(at + 512));
    MoveOn(Class64, s3, at + 1104, Window(at + 512), at + 624, Window(at + 1016));
    MoveOn(Class64, s4, at + 816, Window(at + 1016), at + 1104, Opened);
    MoveOn(Class64, s5, at + 688, Opened, at + 816, Opened);
    assert s5 + [at + 688] == [at, at + 8, at + 624, at + 1104, at + 816, at + 688];
  }

  lemma TwoWritten(at: nat)
    ensures |RunOver(Class64, [at, at + 8]).entries| == 2
    ensures |RunOver(Class64, [at, at + 480, at + 192, at + 64]).entries| == 2
  {
    hide RunOver, At;
    var s1, s2, s3 := [at], [at, at + 480], [at, at + 480, at + 192];
    NothingEncoded(Class64);
    MoveOn(Class64, [], at, Again, 0, Opened);
    assert [] + [at] == s1 && s1 + [at + 8] == [at, at + 8] && s1 + [at + 480] == s2 && s2 + [at + 192] == s3;
    MoveOn(Class64, s1, at + 8, Opened, at, Window(at + 8));
    MoveOn(Class64, s1, at + 480, Opened, at, Window(at + 8));
    MoveOn(Class64, s2, at + 192, Window(at + 8), at + 480, Again);
    MoveOn(Class64, s3, at + 64, Window(at + 8), at + 192, Again);
    assert s3 + [at + 64] == [at, at + 480, at + 192, at + 64];
  }

  lemma PackedFour(base: nat)
    requires base % 2 == 0
    ensures Packed(true, [Relocation(0, 0), Relocation(480, 0), Relocation(192, 0), Relocation(64, 0)], base)
            == [base, base + 480, base + 192, base + 64]
  {
    hide Packed;
    var rs := [Relocation(0, 0), Relocation(480, 0), Relocation(192, 0), Relocation(64, 0)];
    PackedTwo(base, 480);
    PackedAppend(true, rs, 2, base);
    PackedAppend(true, rs, 3, base);
    assert rs[..2] == [Relocation(0, 0), Relocation(480, 0)] && rs[..4] == rs;
  }

  // Of places out of order, a run that is never reset can need more entries than are reserved: here six
  // where there is room for four, so that the writer runs out.
  lemma UnsortedOverruns(at: nat)
    requires at % 2 == 0
    ensures Total(Class64, true, Unsorted(at)).relr == 4
    ensures |RunOver(Class64, AllPlaces(true, Unsorted(at))).entries| == 6
  {
    hide RunOver, Packed, Unpacked;
    var s := Unsorted(at);
    PackedTwo(0, 8);
    PackedTwo(at, 8);
    PackedFour(0);
    PackedFour(at + 624);
    TwoWritten(0);
    SixWritten(at);
    assert s[..1][..0] == [] && s[..1] == [s[0]];
    assert Total(Class64, true, []).relr == 0 && AllPlaces(true, []) == [];
    assert Total(Class64, true, s[..1]).relr == 2;
    assert AllPlaces(true, s[..1]) == [] + [at, at + 8] == [at, at + 8];
    assert AllPlaces(true, s) == [at, at + 8] + [at + 624, at + 1104, at + 816, at + 688];
    assert AllPlaces(true, s) == [at, at + 8, at + 624, at + 1104, at + 816, at + 688];
  }
}
