// Whether a call that lost its jalr reaches its target in the end.
module RiscvCalls {
  import opened Words
  import opened RelaxDeltas
  import opened RiscvRelax
  import opened RiscvPasses

  // ----- The exact condition -------------------------------------------------------------------

  // The distance that the scan tests: from the input offset of the call, in the section as it lies.
  function Tested(pass: Pass, offset: nat, symbol: nat): int
    requires symbol in pass.resolve
  {
    pass.resolve[symbol].address - (pass.sectionAddress + offset)
  }

  // How much further it is in the end: the bytes deleted before the call bring it down, and its section
  // and its target may have moved.
  function Drift(pass: Pass, offset: nat, symbol: nat, end: Pass, cuts: seq<Cut>, target: int): int
    requires symbol in pass.resolve
  {
    DeletedBefore(cuts, offset) + (target - pass.resolve[symbol].address) - (end.sectionAddress - pass.sectionAddress)
  }

  // A call whose jalr is deleted in some pass reaches its target with a jal, once the section is where the
  // last pass puts it and all cuts are made, exactly when the drift leaves the tested distance in range.
  lemma CallReachesExactly(pass: Pass, existing: seq<Cut>, offset: nat, symbol: nat, end: Pass, cuts: seq<Cut>, target: int)
    requires CallCut(pass, existing, offset, symbol).Some?
    ensures symbol in pass.resolve && -0x10_0000 <= Tested(pass, offset, symbol) <= 0xf_ffff
    ensures -0x10_0000 <= target - AddressOf(end, cuts, offset) <= 0xf_ffff
       <==> -0x10_0000 <= Tested(pass, offset, symbol) + Drift(pass, offset, symbol, end, cuts, target) <= 0xf_ffff
  {
    hide DeletedBefore, StartsAt;
  }

  // When neither the section nor the target moves, every byte deleted before the call counts.
  lemma TargetStaysExactly(pass: Pass, existing: seq<Cut>, offset: nat, symbol: nat, cuts: seq<Cut>)
    requires CallCut(pass, existing, offset, symbol).Some?
    ensures symbol in pass.resolve
    ensures -0x10_0000 <= pass.resolve[symbol].address - AddressOf(pass, cuts, offset) <= 0xf_ffff
       <==> Tested(pass, offset, symbol) + DeletedBefore(cuts, offset) <= 0xf_ffff
  {
    hide StartsAt;
    CallReachesExactly(pass, existing, offset, symbol, pass, cuts, pass.resolve[symbol].address);
  }

  // 4 bytes of padding, which are all deleted, before a call whose target stays put just within reach of
  // where the call was.
  lemma CallOvershoots(bytes: seq<Byte>)
    requires |bytes| == 12
    ensures var pass := Pass(0, map[0 := SymbolInfo(0x10_0002, false)]);
            var relocs := [Reloc(0, Align, 4, None), Reloc(4, Call, 0, Some(0)), Reloc(4, Relax, 0, None)];
            && Spaced(relocs, 12) && After(pass, bytes, [], relocs) == [Cut(0, 4), Cut(8, 4)]
            && AddressOf(pass, After(pass, bytes, [], relocs), 4) == 0
            && 0x10_0002 - AddressOf(pass, After(pass, bytes, [], relocs), 4) > 0xf_ffff
  {
    var pass := Pass(0, map[0 := SymbolInfo(0x10_0002, false)]);
    var relocs := [Reloc(0, Align, 4, None), Reloc(4, Call, 0, Some(0)), Reloc(4, Relax, 0, None)];
    hide Scanned, AlignCut, CallCut, DeletedBefore, Merged, Spaced, Padding, NextPowerOfTwo;
    assert Spaced(relocs, 12) by { PaddingThenCall(relocs); }
    PaddingGoes(pass);
    CallFits(pass);
    PaddingAndCall(pass, bytes, relocs, 0, Cut(0, 4), Cut(8, 4));
    MergedIntoNothing([Cut(0, 4), Cut(8, 4)]);
    FirstCutOnly(Cut(0, 4), Cut(8, 4), 4);
  }

  lemma PaddingThenCall(relocs: seq<Reloc>)
    requires relocs == [Reloc(0, Align, 4, None), Reloc(4, Call, 0, Some(0)), Reloc(4, Relax, 0, None)]
    ensures Spaced(relocs, 12)
  {}

  // A scan of padding and a relaxed call deletes for both.
  lemma PaddingAndCall(pass: Pass, bytes: seq<Byte>, relocs: seq<Reloc>, symbol: nat, a: Cut, b: Cut)
    requires |relocs| == 3 && relocs[0].kind == Align && relocs[1].kind == Call && relocs[2].kind == Relax
    requires relocs[1].symbol == Some(symbol) && relocs[2].offset == relocs[1].offset
    requires AlignCut(pass, [], 0, relocs[0]) == Some(a) && CallCut(pass, [], relocs[1].offset, symbol) == Some(b)
    ensures Collected(pass, bytes, [], relocs) == [a, b]
  {
    hide AlignCut, CallCut, Hi20Cut;
    assert Scanned(pass, bytes, [], relocs, 1) == State([a], a.bytes, None, None);
    var candidate := Candidate(relocs[1].offset, symbol, relocs[1].addend);
    assert Scanned(pass, bytes, [], relocs, 2) == State([a], a.bytes, Some(candidate), None);
    assert [a] + [b] == [a, b];
  }

  lemma FirstCutOnly(a: Cut, b: Cut, x: nat)
    requires a.offset < x <= b.offset
    ensures DeletedBefore([a, b], x) == a.bytes
  {
    var cuts := [a, b];
    assert cuts[..1] == [a] && cuts[..1][..0] == [] && cuts[1] == b;
    assert DeletedBefore(cuts[..1], x) == a.bytes;
  }

  lemma PaddingGoes(pass: Pass)
    requires pass.sectionAddress == 0
    ensures AlignCut(pass, [], 0, Reloc(0, Align, 4, None)) == Some(Cut(0, 4))
  {
    assert NextPowerOfTwo(4) == 2 * NextPowerOfTwo(2) && NextPowerOfTwo(2) == 2 * NextPowerOfTwo(1);
  }

  lemma CallFits(pass: Pass)
    requires pass.sectionAddress == 0 && pass.resolve == map[0 := SymbolInfo(0x10_0002, false)]
    ensures CallCut(pass, [], 4, 0) == Some(Cut(8, 4))
  {}

  // ----- Calls within the section --------------------------------------------------------------

  // No cut starts before a call and ends in it.
  lemma CallStartsOutside(relocs: seq<Reloc>, size: nat, cuts: seq<Cut>, i: nat)
    requires Spaced(relocs, size) && Consistent(relocs, size, cuts) && i < |relocs| && IsCall(relocs[i])
    ensures !StrictlyInside(cuts, relocs[i].offset)
  {
    hide Makes, WellFormed;
    if StrictlyInside(cuts, relocs[i].offset) {
      var k :| 0 <= k < |cuts| && cuts[k].offset < relocs[i].offset < cuts[k].End();
      assert cuts[k] in cuts;
      var j :| 0 <= j < |relocs| && Makes(relocs[j], cuts[k]);
      MadeInside(relocs[j], cuts[k]);
      assert false;
    }
  }

  // A call to a place in its own section, backward or past nothing that earlier passes deleted, reaches it
  // whatever this and later passes delete and wherever the section ends up.
  lemma CallWithinSectionReaches(pass: Pass, existing: seq<Cut>, relocs: seq<Reloc>, size: nat, i: nat, symbol: nat, t: nat,
                                 end: Pass, cuts: seq<Cut>)
    requires Spaced(relocs, size) && Consistent(relocs, size, cuts) && i < |relocs| && IsCall(relocs[i])
    requires CallCut(pass, existing, relocs[i].offset, symbol).Some?
    requires symbol in pass.resolve && pass.resolve[symbol].address == AddressOf(pass, existing, t)
    requires t <= relocs[i].offset || DeletedBefore(existing, t) == 0
    requires !StrictlyInside(cuts, t)
    ensures -0x10_0000 <= AddressOf(end, cuts, t) - AddressOf(end, cuts, relocs[i].offset) <= 0xf_ffff
  {
    hide DeletedBefore, SurvivorsBelow, Overshoot, StrictlyInside, Spaced, StartsAt, Consistent;
    var offset := relocs[i].offset;
    CallStartsOutside(relocs, size, cuts, i);
    assert WellFormed(cuts, size) by { ConsistentFits(relocs, size, cuts); }
    TranslationExactly(cuts, size, offset);
    TranslationExactly(cuts, size, t);
    if t <= offset { SurvivorsGrow(cuts, t, offset); } else { SurvivorsGrow(cuts, offset, t); }
  }
}
