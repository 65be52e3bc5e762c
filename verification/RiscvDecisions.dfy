// Which calls and luis lose bytes, in the terms of the instructions.
module RiscvDecisions {
  import opened Words
  import opened RelaxDeltas
  import opened RiscvRelax

  // ----- A call --------------------------------------------------------------------------------

  // A RELAX right behind a call and at its offset.
  predicate RelaxesCall(relocs: seq<Reloc>, n: nat, symbol: nat) {
    && 1 <= n < |relocs| && relocs[n].kind == Relax && relocs[n].offset == relocs[n - 1].offset
    && (relocs[n - 1].kind == Call || relocs[n - 1].kind == CallPlt) && relocs[n - 1].symbol == Some(symbol)
  }

  // The jalr of such a call is deleted exactly when it is still there, the target is known and cannot be
  // replaced at run time, and a jal at the input offset of the call would reach it.
  lemma CallExactly(pass: Pass, bytes: seq<Byte>, existing: seq<Cut>, relocs: seq<Reloc>, n: nat, symbol: nat)
    requires RelaxesCall(relocs, n, symbol)
    ensures var before, offset := Scanned(pass, bytes, existing, relocs, n), relocs[n].offset;
            Scanned(pass, bytes, existing, relocs, n + 1).raw == before.raw
              + if !StartsAt(existing, offset + 4) && symbol in pass.resolve && !pass.resolve[symbol].isInterposable
                   && -0x10_0000 <= pass.resolve[symbol].address - (pass.sectionAddress + offset) <= 0xf_ffff
                then [Cut(offset + 4, 4)] else []
  {
    hide StartsAt, AlignCut, LuiCut;
  }

  // ----- A lui ---------------------------------------------------------------------------------

  // What the instruction behind a lui adds to its register.
  predicate LowPart(lo: int) {
    -0x800 <= lo <= 0x7ff
  }

  // x0 and the low part give the value, on 32 bits.
  ghost predicate NeedsNoLui(value: int) {
    exists lo :: LowPart(lo) && (value - lo) % 0x1_0000_0000 == 0
  }

  predicate CluiImmediate(n: int) {
    1 <= n <= 31
  }

  // A c.lui and the low part give the value.
  ghost predicate NeedsOnlyClui(value: int) {
    exists n, lo :: CluiImmediate(n) && LowPart(lo) && (value - (0x1000 * n + lo)) % 0x1_0000_0000_0000_0000 == 0
  }

  // The register that the instruction at an offset writes to: bits 7 to 11 of it.
  function Register(bytes: seq<Byte>, offset: nat): nat
    requires offset + 4 <= |bytes|
  {
    bytes[offset] / 128 + bytes[offset + 1] % 16 * 2
  }

  // A RELAX right behind a HI20 and at its offset.
  predicate RelaxesLui(relocs: seq<Reloc>, n: nat, symbol: nat) {
    && 1 <= n < |relocs| && relocs[n].kind == Relax && relocs[n].offset == relocs[n - 1].offset
    && relocs[n - 1].kind == Hi20 && relocs[n - 1].symbol == Some(symbol)
  }

  predicate IsOpen(pass: Pass, bytes: seq<Byte>, existing: seq<Cut>, offset: nat, symbol: nat) {
    && !StartsAt(existing, offset) && !StartsAt(existing, offset + 2) && offset + 4 <= |bytes|
    && symbol in pass.resolve && !pass.resolve[symbol].isInterposable
  }

  // Such a lui that is still whole, for a symbol that is known and cannot be replaced at run time, is
  // deleted exactly when the value needs no lui, and else becomes a c.lui exactly when the register may be
  // written by one and the value needs only that.
  lemma LuiExactly(pass: Pass, bytes: seq<Byte>, existing: seq<Cut>, relocs: seq<Reloc>, n: nat, symbol: nat)
    requires RelaxesLui(relocs, n, symbol)
    ensures var before, offset := Scanned(pass, bytes, existing, relocs, n), relocs[n].offset;
            Scanned(pass, bytes, existing, relocs, n + 1).raw == before.raw
              + if !IsOpen(pass, bytes, existing, offset, symbol) then []
                else
                  var value, rd := pass.resolve[symbol].address + relocs[n - 1].addend, Register(bytes, offset);
                  if NeedsNoLui(value) then [Cut(offset, 4)]
                  else if rd != 0 && rd != 2 && NeedsOnlyClui(value) then [Cut(offset + 2, 2)] else []
  {
    hide StartsAt, AlignCut, CallCut, HighPart, FitsClui, NeedsNoLui, NeedsOnlyClui, DestinationRegister, U32, Register;
    var offset := relocs[n].offset;
    if IsOpen(pass, bytes, existing, offset, symbol) {
      var value := pass.resolve[symbol].address + relocs[n - 1].addend;
      NoLuiExactly(value);
      OnlyCluiExactly(value);
      RegisterOf(bytes, offset);
    }
  }

  lemma RegisterOf(bytes: seq<Byte>, offset: nat)
    requires offset + 4 <= |bytes|
    ensures DestinationRegister(U32(bytes, offset)) == Register(bytes, offset)
  {
    RegisterBits(bytes[offset], bytes[offset + 1], bytes[offset + 2], bytes[offset + 3]);
  }

  lemma RegisterBits(a: Byte, b: Byte, c: Byte, d: Byte)
    ensures (a + 256 * b + 65536 * c + 16777216 * d) / 128 % 32 == a / 128 + b % 16 * 2
  {
    assert (a + 256 * b + 65536 * c + 16777216 * d) / 128 == a / 128 + 2 * b + 512 * c + 131072 * d;
    assert 2 * b == 2 * (b % 16) + 32 * (b / 16);
    Remainder32(a / 128 + b % 16 * 2, b / 16 + 16 * c + 4096 * d);
  }

  lemma Remainder32(r: nat, q: nat)
    requires r < 32
    ensures (r + 32 * q) % 32 == r
  {}

  lemma HighPartWraps(value: int)
    ensures HighPart(value % TWO_64) == (value + 0x800) % TWO_64 / 0x1000
  {
    assert (value % TWO_64 + 0x800) % TWO_64 == (value + 0x800) % TWO_64;
  }

  lemma NoLuiExactly(value: int)
    ensures HighPart(value % TWO_64) % 0x10_0000 == 0 <==> NeedsNoLui(value)
  {
    HighPartWraps(value);
    PageIsZero(value + 0x800);
    var r := (value + 0x800) % 0x1_0000_0000;
    if r < 0x1000 {
      assert LowPart(r - 0x800) && (value - (r - 0x800)) % 0x1_0000_0000 == 0 by { RestIsMultiple(value + 0x800); }
    }
    if lo :| LowPart(lo) && (value - lo) % 0x1_0000_0000 == 0 {
      Remainder(value - lo, lo + 0x800);
    }
  }

  lemma PageIsZero(w: int)
    ensures w % TWO_64 / 0x1000 % 0x10_0000 == 0 <==> w % 0x1_0000_0000 < 0x1000
  {
    var x := w % TWO_64;
    assert x % 0x1_0000_0000 == w % 0x1_0000_0000;
  }

  lemma RestIsMultiple(w: int)
    ensures (w - w % 0x1_0000_0000) % 0x1_0000_0000 == 0
  {}

  lemma Remainder(q: int, r: int)
    requires q % 0x1_0000_0000 == 0 && 0 <= r < 0x1_0000_0000
    ensures (q + r) % 0x1_0000_0000 == r
  {}

  lemma OnlyCluiExactly(value: int)
    ensures FitsClui(value % TWO_64) <==> NeedsOnlyClui(value)
  {
    hide HighPart, SixBits;
    HighPartWraps(value);
    var w := (value + 0x800) % TWO_64;
    SixBitsExactly(w / 0x1000);
    if CluiImmediate(w / 0x1000) { CluiAndRest(value, w); }
    if n, lo :| CluiImmediate(n) && LowPart(lo) && (value - (0x1000 * n + lo)) % TWO_64 == 0 {
      CluiGivesImmediate(value, n, lo);
    }
  }

  lemma CluiAndRest(value: int, w: nat)
    requires w == (value + 0x800) % TWO_64 && CluiImmediate(w / 0x1000)
    ensures NeedsOnlyClui(value)
  {
    var n, lo := w / 0x1000, w % 0x1000 - 0x800;
    assert w == 0x1000 * n + lo + 0x800;
    RestIsMultiple64(value + 0x800);
    assert CluiImmediate(n) && LowPart(lo) && (value - (0x1000 * n + lo)) % TWO_64 == 0;
  }

  lemma RestIsMultiple64(w: int)
    ensures (w - w % TWO_64) % TWO_64 == 0
  {}

  lemma CluiGivesImmediate(value: int, n: int, lo: int)
    requires CluiImmediate(n) && LowPart(lo) && (value - (0x1000 * n + lo)) % TWO_64 == 0
    ensures (value + 0x800) % TWO_64 / 0x1000 == n
  {
    Remainder64(value - (0x1000 * n + lo), 0x1000 * n + lo + 0x800);
  }

  lemma Remainder64(q: int, r: int)
    requires q % TWO_64 == 0 && 0 <= r < TWO_64
    ensures (q + r) % TWO_64 == r
  {}

  lemma SixBitsExactly(n: nat)
    ensures SixBits(n) == n && n != 0 <==> CluiImmediate(n)
  {}
}
