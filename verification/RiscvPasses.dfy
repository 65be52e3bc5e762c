// What RISC-V relaxation keeps from pass to pass, and that it aligns what the assembler asked for.
module RiscvPasses {
  import opened Words
  import opened RelaxDeltas
  import opened RelaxCompaction
  import opened RiscvRelax

  // ----- Deletions stay in order, apart and inside their own code ------------------------------

  // No deletion so far is about this relocation.
  ghost predicate Fresh(r: Reloc, existing: seq<Cut>) {
    forall d :: d in existing ==> !Makes(r, d)
  }

  ghost predicate MadeBelow(relocs: seq<Reloc>, existing: seq<Cut>, n: nat, c: Cut)
    requires n <= |relocs|
  {
    exists i :: 0 <= i < n && Makes(relocs[i], c) && Fresh(relocs[i], existing)
  }

  ghost predicate AllMade(relocs: seq<Reloc>, cuts: seq<Cut>) {
    forall c :: c in cuts ==> exists i :: 0 <= i < |relocs| && Makes(relocs[i], c)
  }

  // The deletions of a section before a pass.
  ghost predicate Consistent(relocs: seq<Reloc>, size: nat, cuts: seq<Cut>) {
    WellFormed(cuts, size) && AllMade(relocs, cuts)
  }

  // The relocations that are done with: all but a call or lui that waits for its RELAX.
  function Settled(s: State, n: nat): nat {
    if n > 0 && (s.prevCall.Some? || s.prevHi20.Some?) then n - 1 else n
  }

  ghost predicate WaitsFor(relocs: seq<Reloc>, s: State, n: nat)
    requires n <= |relocs|
  {
    && (s.prevCall.Some? ==> n > 0 && IsCall(relocs[n - 1]) && relocs[n - 1].offset == s.prevCall.value.offset)
    && (s.prevHi20.Some? ==> n > 0 && relocs[n - 1].kind == Hi20 && relocs[n - 1].offset == s.prevHi20.value.offset)
  }

  ghost predicate Good(relocs: seq<Reloc>, size: nat, existing: seq<Cut>, s: State, n: nat)
    requires n <= |relocs|
  {
    && WellFormed(s.raw, size) && Total(s.raw) == s.newCumulative && WaitsFor(relocs, s, n)
    && forall c :: c in s.raw ==> MadeBelow(relocs, existing, Settled(s, n), c)
  }

  lemma AlignMakes(pass: Pass, existing: seq<Cut>, newCumulative: nat, r: Reloc)
    requires r.kind == Align && Padding(r) < TWO_32
    ensures var c := AlignCut(pass, existing, newCumulative, r);
            c.Some? ==> Makes(r, c.value) && Fresh(r, existing)
  {
    hide DeletedBefore, NextMultiple, NextPowerOfTwo, Padding;
    var c := AlignCut(pass, existing, newCumulative, r);
    if c.Some? {
      var p := pass.sectionAddress + (r.offset - DeletedBefore(existing, r.offset) - newCumulative);
      NextMultipleIsNext(p, NextPowerOfTwo(Padding(r)));
      forall d | d in existing ensures !Makes(r, d) {
        var k :| 0 <= k < |existing| && existing[k] == d;
        assert d.offset != r.offset;
      }
    }
  }

  // What a step deletes, and for which relocation.
  lemma StepMakes(pass: Pass, bytes: seq<Byte>, existing: seq<Cut>, relocs: seq<Reloc>, s: State, n: nat)
    requires n < |relocs| && WaitsFor(relocs, s, n)
    requires relocs[n].kind == Align ==> Padding(relocs[n]) < TWO_32
    ensures var c := StepCut(pass, bytes, existing, s, relocs[n]);
            c.Some? ==> exists j: nat :: Settled(s, n) <= j <= n && Makes(relocs[j], c.value) && Fresh(relocs[j], existing)
                                         && (j < n ==> relocs[j].kind != Align) && (j == n ==> relocs[j].kind == Align)
  {
    hide AlignCut, CallCut, LuiCut;
    var r, c := relocs[n], StepCut(pass, bytes, existing, s, relocs[n]);
    if c.Some? {
      if r.kind == Align {
        AlignMakes(pass, existing, s.newCumulative, r);
      } else if s.prevCall.Some? && r.offset == s.prevCall.value.offset && !StartsAt(existing, r.offset + 4) {
        CallMakes(pass, existing, relocs[n - 1], s.prevCall.value.symbol);
      } else {
        LuiMakes(pass, bytes, existing, relocs[n - 1], s.prevHi20.value.symbol, s.prevHi20.value.addend);
      }
    }
  }

  lemma CallMakes(pass: Pass, existing: seq<Cut>, r: Reloc, symbol: nat)
    requires IsCall(r)
    ensures var c := CallCut(pass, existing, r.offset, symbol);
            c.Some? ==> Makes(r, c.value) && Fresh(r, existing)
  {
    forall d | d in existing && !StartsAt(existing, r.offset + 4) ensures !Makes(r, d) {
      var k :| 0 <= k < |existing| && existing[k] == d;
      assert existing[k].offset != r.offset + 4;
    }
  }

  lemma LuiMakes(pass: Pass, bytes: seq<Byte>, existing: seq<Cut>, r: Reloc, symbol: nat, addend: int)
    requires r.kind == Hi20
    ensures var c := Hi20Cut(pass, bytes, existing, r.offset, symbol, addend);
            c.Some? ==> Makes(r, c.value) && Fresh(r, existing)
  {
    hide HighPart, U32, FitsClui, DestinationRegister;
    forall d | d in existing && !StartsAt(existing, r.offset) && !StartsAt(existing, r.offset + 2) ensures !Makes(r, d) {
      var k :| 0 <= k < |existing| && existing[k] == d;
      assert existing[k].offset != r.offset && existing[k].offset != r.offset + 2;
    }
  }

  // A deletion for a later relocation comes after all deletions for earlier ones.
  lemma LaterIsAfter(relocs: seq<Reloc>, size: nat, existing: seq<Cut>, raw: seq<Cut>, m: nat, j: nat, c: Cut)
    requires Spaced(relocs, size) && m <= j < |relocs| && Makes(relocs[j], c)
    requires forall d :: d in raw ==> MadeBelow(relocs, existing, m, d)
    ensures forall d :: d in raw ==> d.End() <= c.offset
    ensures c.bytes > 0 && c.End() <= size
  {
    hide Makes, Fresh, HasCode, CodeEnd;
    MadeInside(relocs[j], c);
    forall d | d in raw ensures d.End() <= c.offset {
      assert MadeBelow(relocs, existing, m, d);
      var i :| 0 <= i < m && Makes(relocs[i], d) && Fresh(relocs[i], existing);
      MadeInside(relocs[i], d);
    }
  }

  lemma StepGood(pass: Pass, bytes: seq<Byte>, existing: seq<Cut>, relocs: seq<Reloc>, size: nat, s: State, n: nat)
    requires n < |relocs| && Spaced(relocs, size) && Good(relocs, size, existing, s, n)
    ensures Good(relocs, size, existing, Step(pass, bytes, existing, s, relocs[n]), n + 1)
  {
    hide StepCut, Makes, Fresh, WellFormed, Total, Spaced, Padding, MadeBelow;
    var s' := Step(pass, bytes, existing, s, relocs[n]);
    var c := StepCut(pass, bytes, existing, s, relocs[n]);
    SpacedPadding(relocs, size, n);
    StepMakes(pass, bytes, existing, relocs, s, n);
    var m, m' := Settled(s, n), Settled(s', n + 1);
    MadeBelowMore(relocs, existing, m, m', s.raw);
    if c.Some? {
      var j: nat :| Settled(s, n) <= j <= n && Makes(relocs[j], c.value) && Fresh(relocs[j], existing)
                    && (j < n ==> relocs[j].kind != Align) && (j == n ==> relocs[j].kind == Align);
      assert j < Settled(s', n + 1) by { NotWaiting(pass, bytes, existing, s, relocs[n]); }
      assert MadeBelow(relocs, existing, m', c.value) by { MadeHere(relocs, existing, m', j, c.value); }
      LaterIsAfter(relocs, size, existing, s.raw, m, j, c.value);
      AppendWellFormed(s.raw, c.value, size);
      SumsAppend(s.raw, c.value, 0);
    }
  }

  lemma MadeBelowMore(relocs: seq<Reloc>, existing: seq<Cut>, m: nat, n: nat, raw: seq<Cut>)
    requires m <= n <= |relocs| && forall c :: c in raw ==> MadeBelow(relocs, existing, m, c)
    ensures forall c :: c in raw ==> MadeBelow(relocs, existing, n, c)
  {
    hide Makes, Fresh;
  }

  lemma MadeHere(relocs: seq<Reloc>, existing: seq<Cut>, n: nat, j: nat, c: Cut)
    requires j < n <= |relocs| && Makes(relocs[j], c) && Fresh(relocs[j], existing)
    ensures MadeBelow(relocs, existing, n, c)
  {}

  lemma SpacedPadding(relocs: seq<Reloc>, size: nat, n: nat)
    requires n < |relocs| && Spaced(relocs, size)
    ensures relocs[n].kind == Align ==> Padding(relocs[n]) < TWO_32
  {}

  lemma NotWaiting(pass: Pass, bytes: seq<Byte>, existing: seq<Cut>, s: State, r: Reloc)
    requires StepCut(pass, bytes, existing, s, r).Some?
    ensures var s' := Step(pass, bytes, existing, s, r);
            s'.prevCall.None? && s'.prevHi20.None?
  {}

  lemma NothingYet(size: nat)
    ensures WellFormed([], size) && Total([]) == 0
  {}

  lemma {:induction false} ScannedGood(pass: Pass, bytes: seq<Byte>, existing: seq<Cut>, relocs: seq<Reloc>, size: nat, n: nat)
    requires n <= |relocs| && Spaced(relocs, size)
    ensures Good(relocs, size, existing, Scanned(pass, bytes, existing, relocs, n), n)
  {
    hide Spaced, Step, WellFormed, MadeBelow;
    if n > 0 {
      hide Good;
      ScannedGood(pass, bytes, existing, relocs, size, n - 1);
      StepGood(pass, bytes, existing, relocs, size, Scanned(pass, bytes, existing, relocs, n - 1), n - 1);
    } else {
      NothingYet(size);
    }
  }

  // After a pass.
  function After(pass: Pass, bytes: seq<Byte>, existing: seq<Cut>, relocs: seq<Reloc>): seq<Cut> {
    Merged(existing, Collected(pass, bytes, existing, relocs))
  }

  // A pass keeps the deletions in order, apart, inside the section and each inside the code of one
  // relocation.
  lemma PassKeepsConsistent(pass: Pass, bytes: seq<Byte>, existing: seq<Cut>, relocs: seq<Reloc>, size: nat)
    requires Spaced(relocs, size) && Consistent(relocs, size, existing)
    ensures Consistent(relocs, size, After(pass, bytes, existing, relocs))
  {
    hide Makes, Fresh, Spaced, WellFormed, Scanned, Apart;
    ScannedGood(pass, bytes, existing, relocs, size, |relocs|);
    var raw := Collected(pass, bytes, existing, relocs);
    forall c, d | c in existing && d in raw ensures Apart(c, d) {
      assert MadeBelow(relocs, existing, Settled(Scanned(pass, bytes, existing, relocs, |relocs|), |relocs|), d);
      OldAndNewApart(relocs, size, existing, c, d);
    }
    MergedWellFormed(existing, raw, size);
    forall c | c in raw ensures exists i :: 0 <= i < |relocs| && Makes(relocs[i], c) {
      assert MadeBelow(relocs, existing, Settled(Scanned(pass, bytes, existing, relocs, |relocs|), |relocs|), c);
    }
  }

  lemma OldAndNewApart(relocs: seq<Reloc>, size: nat, existing: seq<Cut>, c: Cut, d: Cut)
    requires Spaced(relocs, size) && AllMade(relocs, existing) && c in existing
    requires exists i :: 0 <= i < |relocs| && Makes(relocs[i], d) && Fresh(relocs[i], existing)
    ensures Apart(c, d)
  {
    hide Makes, HasCode, CodeEnd;
    var j :| 0 <= j < |relocs| && Makes(relocs[j], d) && Fresh(relocs[j], existing);
    var i :| 0 <= i < |relocs| && Makes(relocs[i], c);
    MadeInside(relocs[i], c);
    MadeInside(relocs[j], d);
    assert i != j;
  }

  // ----- Padding is aligned --------------------------------------------------------------------

  function AddressOf(pass: Pass, cuts: seq<Cut>, x: nat): int {
    pass.sectionAddress + (x - DeletedBefore(cuts, x))
  }

  lemma {:induction false} NoneBetween(cuts: seq<Cut>, x: nat, y: nat)
    requires x <= y && forall c :: c in cuts ==> !(x <= c.offset < y)
    ensures DeletedBefore(cuts, x) == DeletedBefore(cuts, y)
  {
    if cuts != [] {
      assert cuts[|cuts| - 1] in cuts;
      NoneBetween(cuts[..|cuts| - 1], x, y);
    }
  }

  // Earlier passes deleted nothing in padding that has no delta yet.
  lemma ExistingAround(relocs: seq<Reloc>, size: nat, existing: seq<Cut>, i: nat)
    requires Spaced(relocs, size) && Consistent(relocs, size, existing)
    requires i < |relocs| && relocs[i].kind == Align && !StartsAt(existing, relocs[i].offset)
    ensures DeletedBefore(existing, CodeEnd(relocs[i])) == DeletedBefore(existing, relocs[i].offset)
  {
    hide WellFormed, Padding, DeletedBefore;
    forall c | c in existing ensures !(relocs[i].offset <= c.offset < CodeEnd(relocs[i])) {
      var j :| 0 <= j < |relocs| && Makes(relocs[j], c);
      var k :| 0 <= k < |existing| && existing[k] == c;
      MadeInside(relocs[j], c);
      assert c.offset != relocs[i].offset;
      assert j != i;
    }
    NoneBetween(existing, relocs[i].offset, CodeEnd(relocs[i]));
  }

  // When the scan comes to padding, all it deleted so far comes before.
  lemma ScannedBefore(pass: Pass, bytes: seq<Byte>, existing: seq<Cut>, relocs: seq<Reloc>, size: nat, i: nat, x: nat)
    requires Spaced(relocs, size) && i < |relocs| && HasCode(relocs[i]) && relocs[i].offset <= x
    ensures var s := Scanned(pass, bytes, existing, relocs, i);
            DeletedBefore(s.raw, x) == s.newCumulative
  {
    hide Makes, Scanned, HasCode, CodeEnd, DeletedBefore, Total, WellFormed;
    ScannedGood(pass, bytes, existing, relocs, size, i);
    var s := Scanned(pass, bytes, existing, relocs, i);
    forall k | 0 <= k < |s.raw| ensures s.raw[k].offset < x {
      var c := s.raw[k];
      assert c in s.raw && MadeBelow(relocs, existing, Settled(s, i), c);
      var j :| 0 <= j < Settled(s, i) && Makes(relocs[j], c) && Fresh(relocs[j], existing);
      MadeInside(relocs[j], c);
    }
    AllBefore(s.raw, x, |s.raw|);
    assert s.raw[..|s.raw|] == s.raw;
  }

  // What the scan deletes after padding comes after all of it.
  lemma {:induction false} ScannedAfter(pass: Pass, bytes: seq<Byte>, existing: seq<Cut>, relocs: seq<Reloc>, size: nat,
                                        i: nat, k: nat, x: nat)
    requires Spaced(relocs, size) && i < k <= |relocs| && relocs[i].kind == Align && x <= CodeEnd(relocs[i])
    ensures DeletedBefore(Scanned(pass, bytes, existing, relocs, k).raw, x)
            == DeletedBefore(Scanned(pass, bytes, existing, relocs, i + 1).raw, x)
    decreases k
  {
    hide Makes, Scanned, CodeEnd, DeletedBefore, StepCut, Padding;
    if k > i + 1 {
      ScannedAfter(pass, bytes, existing, relocs, size, i, k - 1, x);
      var n := k - 1;
      var s := Scanned(pass, bytes, existing, relocs, n);
      ScannedGood(pass, bytes, existing, relocs, size, n);
      StepMakes(pass, bytes, existing, relocs, s, n);
      var c := StepCut(pass, bytes, existing, s, relocs[n]);
      ScannedOne(pass, bytes, existing, relocs, n);
      if c.Some? {
        var j: nat :| Settled(s, n) <= j <= n && Makes(relocs[j], c.value) && Fresh(relocs[j], existing)
                      && (j < n ==> relocs[j].kind != Align) && (j == n ==> relocs[j].kind == Align);
        MadeInside(relocs[j], c.value);
        assert j > i;
        SumsAppend(s.raw, c.value, x);
      }
    }
  }

  lemma ScannedOne(pass: Pass, bytes: seq<Byte>, existing: seq<Cut>, relocs: seq<Reloc>, n: nat)
    requires n < |relocs|
    ensures var s := Scanned(pass, bytes, existing, relocs, n);
            var c := StepCut(pass, bytes, existing, s, relocs[n]);
            Scanned(pass, bytes, existing, relocs, n + 1).raw == if c.Some? then s.raw + [c.value] else s.raw
  {
    hide StepCut;
  }

  // Padding that an earlier pass left alone ends at the next multiple of its alignment if it reaches
  // that far, and is left whole if it does not.
  lemma PaddingAfterPass(pass: Pass, bytes: seq<Byte>, existing: seq<Cut>, relocs: seq<Reloc>, size: nat, i: nat)
    requires Spaced(relocs, size) && Consistent(relocs, size, existing)
    requires i < |relocs| && relocs[i].kind == Align && Padding(relocs[i]) > 0 && !StartsAt(existing, relocs[i].offset)
    ensures var final, padding := After(pass, bytes, existing, relocs), Padding(relocs[i]);
            var start := AddressOf(pass, final, relocs[i].offset);
            var next := NextMultiple(start, NextPowerOfTwo(padding));
            AddressOf(pass, final, relocs[i].offset + padding) == if next <= start + padding then next else start + padding
  {
    hide Scanned, DeletedBefore, StepCut, Padding, NextMultiple, NextPowerOfTwo, Spaced, Consistent, Merged, StartsAt;
    var r, n := relocs[i], |relocs|;
    var s, end := Scanned(pass, bytes, existing, relocs, i), CodeEnd(relocs[i]);
    var c := StepCut(pass, bytes, existing, s, r);
    var raw := Collected(pass, bytes, existing, relocs);
    MergedDeletes(existing, raw, r.offset);
    MergedDeletes(existing, raw, end);
    ExistingAround(relocs, size, existing, i);
    ScannedAfter(pass, bytes, existing, relocs, size, i, n, r.offset);
    ScannedAfter(pass, bytes, existing, relocs, size, i, n, end);
    ScannedBefore(pass, bytes, existing, relocs, size, i, r.offset);
    ScannedBefore(pass, bytes, existing, relocs, size, i, end);
    ScannedOne(pass, bytes, existing, relocs, i);
    SpacedPadding(relocs, size, i);
    AlignRemoval(pass, existing, s.newCumulative, r);
    assert c == AlignCut(pass, existing, s.newCumulative, r) by { AlignStep(pass, bytes, existing, s, r); }
    if c.Some? {
      SumsAppend(s.raw, c.value, r.offset);
      SumsAppend(s.raw, c.value, end);
    }
  }

  lemma AlignStep(pass: Pass, bytes: seq<Byte>, existing: seq<Cut>, s: State, r: Reloc)
    requires r.kind == Align
    ensures StepCut(pass, bytes, existing, s, r) == AlignCut(pass, existing, s.newCumulative, r)
  {
    hide AlignCut, CallCut, Hi20Cut;
  }

  lemma SmallModulo(n: int)
    requires 0 <= n < TWO_32
    ensures n % TWO_32 == n
  {}

  lemma AlignRemoval(pass: Pass, existing: seq<Cut>, newCumulative: nat, r: Reloc)
    requires r.kind == Align && 0 < Padding(r) < TWO_32 && !StartsAt(existing, r.offset)
    ensures var p := pass.sectionAddress + (r.offset - DeletedBefore(existing, r.offset) - newCumulative);
            var next := NextMultiple(p, NextPowerOfTwo(Padding(r)));
            var c := AlignCut(pass, existing, newCumulative, r);
            if next < p + Padding(r) then c == Some(Cut(r.offset, p + Padding(r) - next)) else c == None
  {
    hide DeletedBefore, NextMultiple, NextPowerOfTwo, Padding, StartsAt;
    var p := pass.sectionAddress + (r.offset - DeletedBefore(existing, r.offset) - newCumulative);
    var next := NextMultiple(p, NextPowerOfTwo(Padding(r)));
    NextMultipleIsNext(p, NextPowerOfTwo(Padding(r)));
    if next < p + Padding(r) { SmallModulo(p + Padding(r) - next); }
  }

  // The end of the padding is aligned exactly when the padding starts aligned or is long enough to
  // reach the next multiple from where it starts.
  lemma AlignedExactly(pass: Pass, bytes: seq<Byte>, existing: seq<Cut>, relocs: seq<Reloc>, size: nat, i: nat)
    requires Spaced(relocs, size) && Consistent(relocs, size, existing)
    requires i < |relocs| && relocs[i].kind == Align && Padding(relocs[i]) > 0 && !StartsAt(existing, relocs[i].offset)
    ensures var final, padding := After(pass, bytes, existing, relocs), Padding(relocs[i]);
            var start, end := AddressOf(pass, final, relocs[i].offset), AddressOf(pass, final, relocs[i].offset + padding);
            var alignment := NextPowerOfTwo(padding);
            && start <= end <= start + padding
            && (end % alignment == 0 <==> start % alignment == 0 || start % alignment + padding >= alignment)
  {
    hide After, AddressOf, Padding, NextPowerOfTwo, Spaced, Consistent, StartsAt;
    PaddingAfterPass(pass, bytes, existing, relocs, size, i);
    var final, padding := After(pass, bytes, existing, relocs), Padding(relocs[i]);
    var start, alignment := AddressOf(pass, final, relocs[i].offset), NextPowerOfTwo(padding);
    NextMultipleIsNext(start, alignment);
    if NextMultiple(start, alignment) > start + padding { NotYetAMultiple(start, padding, alignment); }
  }

  lemma NotYetAMultiple(p: int, n: nat, a: nat)
    requires a > 0 && n > 0 && p + n < NextMultiple(p, a)
    ensures (p + n) % a != 0
  {
    var x := p + n;
    assert p == a * (p / a) + p % a && x == a * (x / a) + x % a;
    if x % a == 0 {
      assert (x / a - p / a) * a == n + p % a;
      ZeroFactor(x / a - p / a, a);
    }
  }

  // It is aligned when the missing bytes of the alignment are the unit in which code is laid out: the
  // start and the alignment are multiples of them. In particular when none are missing.
  lemma AlignedForWholeUnits(pass: Pass, bytes: seq<Byte>, existing: seq<Cut>, relocs: seq<Reloc>, size: nat, i: nat)
    requires Spaced(relocs, size) && Consistent(relocs, size, existing)
    requires i < |relocs| && relocs[i].kind == Align && Padding(relocs[i]) > 0 && !StartsAt(existing, relocs[i].offset)
    requires var start := AddressOf(pass, After(pass, bytes, existing, relocs), relocs[i].offset);
             var alignment := NextPowerOfTwo(Padding(relocs[i]));
             var unit := alignment - Padding(relocs[i]);
             unit > 0 ==> start % unit == 0 && alignment % unit == 0
    ensures AddressOf(pass, After(pass, bytes, existing, relocs), relocs[i].offset + Padding(relocs[i]))
            % NextPowerOfTwo(Padding(relocs[i])) == 0
  {
    hide After, AddressOf, Padding, NextPowerOfTwo, Spaced, Consistent, StartsAt;
    AlignedExactly(pass, bytes, existing, relocs, size, i);
    var padding := Padding(relocs[i]);
    WholeUnitsReach(AddressOf(pass, After(pass, bytes, existing, relocs), relocs[i].offset), padding, NextPowerOfTwo(padding));
  }

  lemma WholeUnitsReach(start: int, padding: nat, alignment: nat)
    requires 0 < padding <= alignment
    requires var unit := alignment - padding; unit > 0 ==> start % unit == 0 && alignment % unit == 0
    ensures start % alignment == 0 || start % alignment + padding >= alignment
  {
    var unit, rest := alignment - padding, start % alignment;
    if unit > 0 && 0 < rest < unit {
      assert start == alignment * (start / alignment) + rest;
      assert alignment == unit * (alignment / unit) && start == unit * (start / unit);
      var k := start / unit - (alignment / unit) * (start / alignment);
      assert alignment * (start / alignment) == unit * ((alignment / unit) * (start / alignment));
      assert k * unit == rest;
      ZeroFactor(k, unit);
    }
  }

  // The unit has to divide the alignment: in a section at 9 that is 5 bytes of padding, the start is a
  // multiple of the 3 bytes that are missing from 8, but the padding ends at 14, short of 16.
  lemma UnitMustDivideAlignment(resolve: map<nat, SymbolInfo>, bytes: seq<Byte>)
    requires |bytes| == 5
    ensures var pass, relocs := Pass(9, resolve), [Reloc(0, Align, 5, None)];
            && Spaced(relocs, 5) && Consistent(relocs, 5, [])
            && Padding(relocs[0]) == 5 && NextPowerOfTwo(5) == 8 && 9 % (8 - 5) == 0
            && AddressOf(pass, After(pass, bytes, [], relocs), 0) == 9
            && AddressOf(pass, After(pass, bytes, [], relocs), 5) == 14
  {
    hide After;
    var pass, relocs := Pass(9, resolve), [Reloc(0, Align, 5, None)];
    assert NextPowerOfTwo(3) == 2 * NextPowerOfTwo(2) && NextPowerOfTwo(2) == 2 * NextPowerOfTwo(1);
    PaddingAfterPass(pass, bytes, [], relocs, 5, 0);
    NothingBeforeStart(After(pass, bytes, [], relocs));
  }

  lemma {:induction false} NothingBeforeStart(cuts: seq<Cut>)
    ensures DeletedBefore(cuts, 0) == 0
  {
    if cuts != [] { NothingBeforeStart(cuts[..|cuts| - 1]); }
  }

  // ----- Pass after pass -----------------------------------------------------------------------

  function AfterPasses(passes: seq<Pass>, bytes: seq<Byte>, relocs: seq<Reloc>): seq<Cut> {
    if passes == [] then []
    else
      var n := |passes| - 1;
      After(passes[n], bytes, AfterPasses(passes[..n], bytes, relocs), relocs)
  }

  lemma {:induction false} PassesStayConsistent(passes: seq<Pass>, bytes: seq<Byte>, relocs: seq<Reloc>)
    requires Spaced(relocs, |bytes|)
    ensures Consistent(relocs, |bytes|, AfterPasses(passes, bytes, relocs))
  {
    hide Spaced, Makes, After;
    if passes != [] {
      var n := |passes| - 1;
      PassesStayConsistent(passes[..n], bytes, relocs);
      PassKeepsConsistent(passes[n], bytes, AfterPasses(passes[..n], bytes, relocs), relocs, |bytes|);
    }
  }

  lemma ConsistentFits(relocs: seq<Reloc>, size: nat, cuts: seq<Cut>)
    requires Consistent(relocs, size, cuts)
    ensures WellFormed(cuts, size) && Ascending(cuts) && Total(cuts) <= size
  {
    AllEndBefore(cuts, size);
    TranslationCounts(cuts, size, size);
  }

  lemma CollectedAscends(pass: Pass, bytes: seq<Byte>, existing: seq<Cut>, relocs: seq<Reloc>, size: nat)
    requires Spaced(relocs, size)
    ensures Ascending(Collected(pass, bytes, existing, relocs))
  {
    ScannedGood(pass, bytes, existing, relocs, size, |relocs|);
  }

  lemma NothingCollected(existing: seq<Cut>)
    ensures Merged(existing, []) == existing
  {}

  lemma {:induction false} MergedIntoNothing(raw: seq<Cut>)
    requires Ascending(raw)
    ensures Merged([], raw) == raw
  {
    if raw != [] {
      MergedIntoNothing(raw[..|raw| - 1]);
      assert raw == raw[..|raw| - 1] + [raw[|raw| - 1]];
    }
  }

  // A loaded section of executable code while the layout relaxes it.
  class RelaxableSection {
    const bytes: seq<Byte>
    const relocs: seq<Reloc>
    var size: nat
    var deltas: SectionRelaxDeltas?
    ghost var passes: seq<Pass>

    ghost predicate Valid()
      reads this, deltas
    {
      && Spaced(relocs, |bytes|)
      && (deltas != null ==> deltas.Valid())
      && CutsOf(deltas) == AfterPasses(passes, bytes, relocs)
      && size + Total(CutsOf(deltas)) == |bytes|
    }

    constructor (data: seq<Byte>, r: seq<Reloc>)
      requires Spaced(r, |data|)
      ensures Valid() && bytes == data && relocs == r && passes == [] && fresh(this) && deltas == null
    {
      bytes, relocs, size, deltas, passes := data, r, |data|, null, [];
    }

    method RunPass(pass: Pass)
      requires Valid()
      modifies this, deltas
      ensures Valid() && passes == old(passes) + [pass]
      ensures old(deltas) != null ==> deltas == old(deltas)
      ensures old(deltas) == null && deltas != null ==> fresh(deltas)
    {
      hide Spaced, Collected, Merged, Ascending, Total;
      ghost var before := CutsOf(deltas);
      assert (passes + [pass])[..|passes|] == passes;
      PassesStayConsistent(passes + [pass], bytes, relocs);
      ConsistentFits(relocs, |bytes|, AfterPasses(passes + [pass], bytes, relocs));
      CollectedAscends(pass, bytes, before, relocs, |bytes|);
      var raw := CollectRelaxationDeltas(pass, bytes, relocs, deltas);
      MergedDeletes(before, raw, 0);
      passes := passes + [pass];
      if raw == [] {
        NothingCollected(before);
        return;
      }
      var newTotal := SumOf(raw);
      size := size - newTotal;
      if deltas != null {
        deltas.MergeAdditional(raw);
      } else {
        MergedIntoNothing(raw);
        deltas := new SectionRelaxDeltas(raw);
      }
    }

    // The output has exactly the room that the layout left for the section.
    method Write(out: array<Byte>, padding: Byte)
      requires Valid() && size <= out.Length
      modifies out
      ensures out[..size] == Kept(AfterPasses(passes, bytes, relocs), bytes, |bytes|)
      ensures forall k :: size <= k < out.Length ==> out[k] == padding
    {
      hide Spaced, Total, Kept;
      ghost var cuts := AfterPasses(passes, bytes, relocs);
      PassesStayConsistent(passes, bytes, relocs);
      ConsistentFits(relocs, |bytes|, cuts);
      KeptLength(cuts, bytes);
      if deltas == null {
        NothingDeleted();
        EverythingKept(bytes, |bytes|);
        var end := CopyRun(out, 0, bytes, 0, |bytes|);
        FillSectionPadding(out, end, padding);
      } else {
        WriteSectionRaw(bytes, deltas, out, padding);
      }
    }
  }

  lemma {:induction false} EverythingKept(input: seq<Byte>, n: nat)
    requires n <= |input|
    ensures Kept([], input, n) == input[..n]
  {
    if n > 0 { EverythingKept(input, n - 1); }
  }

  method SumOf(raw: seq<Cut>) returns (total: nat)
    ensures total == Total(raw)
  {
    hide Total;
    total := 0;
    NothingDeleted();
    assert raw[..0] == [];
    for i := 0 to |raw|
      invariant total == Total(raw[..i])
    {
      TotalAppend(raw, i);
      total := total + raw[i].bytes;
    }
    assert raw[..|raw|] == raw;
  }
}
