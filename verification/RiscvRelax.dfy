// Finding the bytes that RISC-V relaxation deletes, pass after pass.
module RiscvRelax {
  import opened Words
  import opened RelaxDeltas

  datatype Kind = Align | Call | CallPlt | Hi20 | Relax | Another

  datatype Reloc = Reloc(offset: nat, kind: Kind, addend: int, symbol: Option<nat>)

  datatype SymbolInfo = SymbolInfo(address: nat, isInterposable: bool)

  // Where things are as one pass starts.
  datatype Pass = Pass(sectionAddress: nat, resolve: map<nat, SymbolInfo>)

  // ----- What a relocation may delete ----------------------------------------------------------

  function Padding(r: Reloc): nat {
    r.addend % TWO_64
  }

  predicate IsCall(r: Reloc) {
    r.kind == Call || r.kind == CallPlt
  }

  // Padding, a call pair or a lui.
  predicate HasCode(r: Reloc) {
    r.kind == Align || IsCall(r) || r.kind == Hi20
  }

  function CodeEnd(r: Reloc): nat {
    match r.kind
    case Align => r.offset + Padding(r)
    case Call | CallPlt => r.offset + 8
    case Hi20 => r.offset + 4
    case Relax | Another => r.offset
  }

  // What an assembler emits: relocations in order, and no two of them about the same code.
  ghost predicate Spaced(relocs: seq<Reloc>, size: nat) {
    && (forall i :: 0 <= i < |relocs| && HasCode(relocs[i]) ==> CodeEnd(relocs[i]) <= size)
    && (forall i :: 0 <= i < |relocs| && relocs[i].kind == Align ==> Padding(relocs[i]) < TWO_32)
    && forall i, j :: 0 <= i < j < |relocs| && HasCode(relocs[i]) ==> CodeEnd(relocs[i]) <= relocs[j].offset || !HasCode(relocs[j])
  }

  predicate Makes(r: Reloc, c: Cut) {
    match r.kind
    case Align => c.offset == r.offset && 0 < c.bytes <= Padding(r)
    case Call | CallPlt => c == Cut(r.offset + 4, 4)
    case Hi20 => c == Cut(r.offset, 4) || c == Cut(r.offset + 2, 2)
    case Relax | Another => false
  }

  lemma MadeInside(r: Reloc, c: Cut)
    requires Makes(r, c)
    ensures HasCode(r) && r.offset <= c.offset && c.End() <= CodeEnd(r) && c.bytes > 0
  {}

  // ----- One relocation ------------------------------------------------------------------------

  function AlignCut(pass: Pass, existing: seq<Cut>, newCumulative: nat, r: Reloc): Option<Cut> {
    if Padding(r) == 0 || StartsAt(existing, r.offset) then None
    else
      var p := pass.sectionAddress + (r.offset - DeletedBefore(existing, r.offset) - newCumulative);
      var desired, actual := NextMultiple(p, NextPowerOfTwo(Padding(r))), p + Padding(r);
      if actual > desired then Some(Cut(r.offset, (actual - desired) % TWO_32)) else None
  }

  predicate FitsJal(distance: int) {
    -0x10_0000 <= distance <= 0xf_ffff
  }

  function CallCut(pass: Pass, existing: seq<Cut>, offset: nat, symbol: nat): Option<Cut> {
    if StartsAt(existing, offset + 4) || symbol !in pass.resolve || pass.resolve[symbol].isInterposable then None
    else if FitsJal(pass.resolve[symbol].address - (pass.sectionAddress + offset)) then Some(Cut(offset + 4, 4))
    else None
  }

  // (value + 0x800) >> 12 on 64 bits.
  function HighPart(value: nat): nat {
    (value + 0x800) % TWO_64 / 0x1000
  }

  function SixBits(n: nat): int {
    if n % 64 >= 32 then n % 64 - 64 else n % 64
  }

  predicate FitsClui(value: nat) {
    SixBits(HighPart(value)) == HighPart(value) && HighPart(value) != 0
  }

  function DestinationRegister(word: nat): nat {
    word / 128 % 32
  }

  function LuiCut(bytes: seq<Byte>, offset: nat, value: nat): Option<Cut> {
    if offset + 4 > |bytes| then None
    else if HighPart(value) % 0x10_0000 == 0 then Some(Cut(offset, 4))
    else
      var rd := DestinationRegister(U32(bytes, offset));
      if rd != 0 && rd != 2 && FitsClui(value) then Some(Cut(offset + 2, 2)) else None
  }

  function Hi20Cut(pass: Pass, bytes: seq<Byte>, existing: seq<Cut>, offset: nat, symbol: nat, addend: int): Option<Cut> {
    if StartsAt(existing, offset) || StartsAt(existing, offset + 2) then None
    else if symbol !in pass.resolve || pass.resolve[symbol].isInterposable then None
    else LuiCut(bytes, offset, (pass.resolve[symbol].address + addend) % TWO_64)
  }

  // ----- The scan ------------------------------------------------------------------------------

  datatype Candidate = Candidate(offset: nat, symbol: nat, addend: int)

  datatype State = State(raw: seq<Cut>, newCumulative: nat, prevCall: Option<Candidate>, prevHi20: Option<Candidate>)

  function StepCut(pass: Pass, bytes: seq<Byte>, existing: seq<Cut>, s: State, r: Reloc): Option<Cut> {
    if r.kind == Align then AlignCut(pass, existing, s.newCumulative, r)
    else if r.kind != Relax then None
    else if s.prevCall.Some? && r.offset == s.prevCall.value.offset && !StartsAt(existing, r.offset + 4) then
      CallCut(pass, existing, r.offset, s.prevCall.value.symbol)
    else if s.prevHi20.Some? && r.offset == s.prevHi20.value.offset then
      Hi20Cut(pass, bytes, existing, r.offset, s.prevHi20.value.symbol, s.prevHi20.value.addend)
    else None
  }

  function CandidateOf(r: Reloc, isOne: bool): Option<Candidate> {
    if isOne && r.symbol.Some? then Some(Candidate(r.offset, r.symbol.value, r.addend)) else None
  }

  function Step(pass: Pass, bytes: seq<Byte>, existing: seq<Cut>, s: State, r: Reloc): State {
    var cut := StepCut(pass, bytes, existing, s, r);
    State(if cut.Some? then s.raw + [cut.value] else s.raw,
          s.newCumulative + if cut.Some? then cut.value.bytes else 0,
          CandidateOf(r, IsCall(r)), CandidateOf(r, r.kind == Hi20))
  }

  function Scanned(pass: Pass, bytes: seq<Byte>, existing: seq<Cut>, relocs: seq<Reloc>, n: nat): State
    requires n <= |relocs|
  {
    if n == 0 then State([], 0, None, None)
    else Step(pass, bytes, existing, Scanned(pass, bytes, existing, relocs, n - 1), relocs[n - 1])
  }

  function Collected(pass: Pass, bytes: seq<Byte>, existing: seq<Cut>, relocs: seq<Reloc>): seq<Cut> {
    Scanned(pass, bytes, existing, relocs, |relocs|).raw
  }

  method HasDelta(deltas: SectionRelaxDeltas?, x: nat) returns (found: bool)
    requires deltas != null ==> deltas.Valid()
    ensures found <==> deltas != null && StartsAt(deltas.cuts, x)
  {
    if deltas == null { return false; }
    found := deltas.HasDeltaAt(x);
  }

  ghost function CutsOf(deltas: SectionRelaxDeltas?): seq<Cut>
    reads deltas
  {
    if deltas == null then [] else deltas.cuts
  }

  method CollectRelaxationDeltas(pass: Pass, bytes: seq<Byte>, relocs: seq<Reloc>, existing: SectionRelaxDeltas?)
    returns (raw: seq<Cut>)
    requires existing != null ==> existing.Valid()
    ensures raw == Collected(pass, bytes, CutsOf(existing), relocs)
  {
    hide AlignCut, CallCut, Hi20Cut;
    raw := [];
    var newCumulative: nat := 0;
    var prevCall: Option<Candidate>, prevHi20: Option<Candidate> := None, None;
    ghost var cuts := CutsOf(existing);
    for i := 0 to |relocs|
      invariant State(raw, newCumulative, prevCall, prevHi20) == Scanned(pass, bytes, cuts, relocs, i)
    {
      var rel := relocs[i];
      match rel.kind
      case Align => {
        var cut := ExcessPadding(pass, existing, newCumulative, rel);
        if cut.Some? {
          raw := raw + [cut.value];
          newCumulative := newCumulative + cut.value.bytes;
        }
        prevCall, prevHi20 := None, None;
      }
      case Call | CallPlt => {
        prevCall := if rel.symbol.Some? then Some(Candidate(rel.offset, rel.symbol.value, rel.addend)) else None;
        prevHi20 := None;
      }
      case Hi20 => {
        prevHi20 := if rel.symbol.Some? then Some(Candidate(rel.offset, rel.symbol.value, rel.addend)) else None;
        prevCall := None;
      }
      case Relax => {
        var cut := RelaxCandidate(pass, bytes, existing, rel.offset, prevCall, prevHi20);
        if cut.Some? {
          raw := raw + [cut.value];
          newCumulative := newCumulative + cut.value.bytes;
        }
        prevCall, prevHi20 := None, None;
      }
      case Another => {
        prevCall, prevHi20 := None, None;
      }
    }
  }

  // Bytes deleted by earlier passes before x.
  method DeletedSoFar(existing: SectionRelaxDeltas?, x: nat) returns (bytes: nat)
    requires existing != null ==> existing.Valid()
    ensures bytes == DeletedBefore(CutsOf(existing), x)
  {
    if existing == null { return 0; }
    var translated := existing.InputToOutputOffset(x);
    bytes := x - translated;
  }

  // What is left of the padding once its end is aligned.
  method ExcessPadding(pass: Pass, existing: SectionRelaxDeltas?, newCumulative: nat, rel: Reloc)
    returns (cut: Option<Cut>)
    requires existing != null ==> existing.Valid()
    ensures cut == AlignCut(pass, CutsOf(existing), newCumulative, rel)
  {
    hide NextMultiple, NextPowerOfTwo, DeletedBefore;
    cut := None;
    var addend := Padding(rel);
    var hasDelta := HasDelta(existing, rel.offset);
    if addend != 0 && !hasDelta {
      var deleted := DeletedSoFar(existing, rel.offset);
      var p := pass.sectionAddress + (rel.offset - deleted - newCumulative);
      var desired := NextMultiple(p, NextPowerOfTwo(addend));
      var actual := p + addend;
      if actual > desired { cut := Some(Cut(rel.offset, (actual - desired) % TWO_32)); }
    }
  }

  // A RELAX at the offset of the call or lui just before it.
  method RelaxCandidate(pass: Pass, bytes: seq<Byte>, existing: SectionRelaxDeltas?, offset: nat,
                        prevCall: Option<Candidate>, prevHi20: Option<Candidate>) returns (cut: Option<Cut>)
    requires existing != null ==> existing.Valid()
    ensures forall raw, cumulative, addend, symbol ::
              cut == StepCut(pass, bytes, CutsOf(existing), State(raw, cumulative, prevCall, prevHi20),
                             Reloc(offset, Relax, addend, symbol))
  {
    hide HighPart, U32, FitsJal, FitsClui, DestinationRegister, AlignCut;
    cut := None;
    var callDone := HasDelta(existing, offset + 4);
    var luiDone := HasDelta(existing, offset);
    var halfDone := HasDelta(existing, offset + 2);
    if prevCall.Some? && offset == prevCall.value.offset && !callDone {
      var symbol := prevCall.value.symbol;
      if symbol in pass.resolve && !pass.resolve[symbol].isInterposable {
        var distance := pass.resolve[symbol].address - (pass.sectionAddress + offset);
        if FitsJal(distance) { cut := Some(Cut(offset + 4, 4)); }
      }
    } else if prevHi20.Some? && offset == prevHi20.value.offset && !luiDone && !halfDone {
      var symbol := prevHi20.value.symbol;
      if symbol in pass.resolve && !pass.resolve[symbol].isInterposable && offset + 4 <= |bytes| {
        var rd := DestinationRegister(U32(bytes, offset));
        var value := (pass.resolve[symbol].address + prevHi20.value.addend) % TWO_64;
        if HighPart(value) % 0x10_0000 == 0 {
          cut := Some(Cut(offset, 4));
        } else if rd != 0 && rd != 2 {
          if FitsClui(value) { cut := Some(Cut(offset + 2, 2)); }
        }
      }
    }
  }
}
