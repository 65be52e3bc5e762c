// RELR packing: the run encoder that layout uses to count entries and the writer uses to emit them,
// and the loader's decoder for SHT_RELR (gABI, "Relocation") that both are proved against.
module Relr {
  import opened Words

  // Number of words that one bitmap entry covers: all bits but the marker.
  function Slots(c: ElfClass): nat {
    match c case Class32 => 31 case Class64 => 63
  }

  // Number of bytes that one bitmap entry covers.
  function Span(c: ElfClass): nat {
    WordBytes(c, Slots(c))
  }

  datatype Bitmap = Bitmap(lo: nat, hi: nat, encoded: nat)

  function After(c: ElfClass, address: nat): Bitmap {
    var lo := address + WordSize(c);
    Bitmap(lo, lo + Span(c), 1)
  }

  function Following(c: ElfClass, b: Bitmap): Bitmap {
    Bitmap(b.lo + Span(c), b.hi + Span(c), 1)
  }

  function Insert(c: ElfClass, b: Bitmap, address: nat): Option<Bitmap> {
    if !(b.lo <= address < b.hi) || (address - b.lo) % WordSize(c) != 0 then
      None
    else
      Some(b.(encoded := SetBit(b.encoded, (address - b.lo) / WordSize(c) + 1)))
  }

  datatype State = NoRun | AddressOnly(next: Bitmap) | WithBitmap(bitmap: Bitmap)

  // What the encoder asks its caller to do with the value: append it, or overwrite the last entry.
  datatype Step = New(value: nat) | Update(value: nat)

  datatype Transition = Transition(state: State, step: Step)

  function NewRun(c: ElfClass, address: nat): Transition {
    Transition(AddressOnly(After(c, address)), New(address))
  }

  function Encode(c: ElfClass, state: State, address: nat): Transition {
    match state
    case NoRun => NewRun(c, address)
    case AddressOnly(next) => (
      match Insert(c, next, address)
      case Some(b) => Transition(WithBitmap(b), New(b.encoded))
      case None => NewRun(c, address))
    case WithBitmap(bitmap) => (
      match Insert(c, bitmap, address)
      case Some(b) => Transition(WithBitmap(b), Update(b.encoded))
      case None =>
        match Insert(c, Following(c, bitmap), address)
        case Some(b) => Transition(WithBitmap(b), New(b.encoded))
        case None => NewRun(c, address))
  }

  // The table after one step.
  function Apply(entries: seq<nat>, step: Step): seq<nat>
    requires step.Update? ==> entries != []
  {
    match step
    case New(v) => entries + [v]
    case Update(v) => entries[..|entries| - 1] + [v]
  }

  datatype Run = Run(state: State, entries: seq<nat>)

  // One run of the encoder, from `RelrEncoder::default()`, over a list of addresses.
  function RunOver(c: ElfClass, addresses: seq<nat>): (r: Run)
    ensures addresses != [] ==> r.entries != []
    ensures r.state.NoRun? <==> addresses == []
    ensures |r.entries| <= |addresses|
  {
    if addresses == [] then Run(NoRun, [])
    else
      var before := RunOver(c, addresses[..|addresses| - 1]);
      var t := Encode(c, before.state, addresses[|addresses| - 1]);
      Run(t.state, Apply(before.entries, t.step))
  }

  // ----- The loader ----------------------------------------------------------------------------

  // `bits` is a bitmap entry with its marker shifted out; bit i stands for the word at at + i * size.
  function BitAddresses(c: ElfClass, bits: nat, at: nat): seq<nat> {
    if bits == 0 then []
    else (if bits % 2 == 1 then [at] else []) + BitAddresses(c, bits / 2, at + WordSize(c))
  }

  // The relocated places, and the place that the next bitmap entry starts at.
  datatype Decoded = Decoded(places: seq<nat>, base: nat)

  function DecodeEntry(c: ElfClass, entry: nat, base: nat): Decoded {
    if entry % 2 == 0 then Decoded([entry], entry + WordSize(c))
    else Decoded(BitAddresses(c, entry / 2, base), base + Span(c))
  }

  function Decode(c: ElfClass, entries: seq<nat>, base: nat): Decoded {
    if entries == [] then Decoded([], base)
    else
      var first := DecodeEntry(c, entries[0], base);
      var rest := Decode(c, entries[1..], first.base);
      Decoded(first.places + rest.places, rest.base)
  }

  // ----- Round trip ----------------------------------------------------------------------------

  lemma {:induction false} DecodeConcat(c: ElfClass, a: seq<nat>, b: seq<nat>, base: nat)
    ensures var da := Decode(c, a, base);
            var db := Decode(c, b, da.base);
            Decode(c, a + b, base) == Decoded(da.places + db.places, db.base)
  {
    if a == [] {
      assert a + b == b;
    } else {
      assert (a + b)[1..] == a[1..] + b;
      DecodeConcat(c, a[1..], b, DecodeEntry(c, a[0], base).base);
    }
  }

  lemma DecodeAppend(c: ElfClass, entries: seq<nat>, v: nat, base: nat)
    ensures var d := Decode(c, entries, base);
            var e := DecodeEntry(c, v, d.base);
            Decode(c, entries + [v], base) == Decoded(d.places + e.places, e.base)
  {
    DecodeConcat(c, entries, [v], base);
    var d := Decode(c, entries, base);
    var e := DecodeEntry(c, v, d.base);
    assert [v][1..] == [];
    assert Decode(c, [v], d.base) == Decoded(e.places + [], e.base);
  }

  // A set bit is a place, and every place is a set bit.
  lemma {:induction false} BitAddressesMembers(c: ElfClass, bits: nat, at: nat, x: nat)
    ensures x in BitAddresses(c, bits, at)
       <==> x >= at && (x - at) % WordSize(c) == 0 && Bit(bits, (x - at) / WordSize(c))
  {
    if bits == 0 {
      if x >= at { ZeroHasNoBits((x - at) / WordSize(c)); }
    } else {
      BitAddressesMembers(c, bits / 2, at + WordSize(c), x);
      if x >= at + WordSize(c) {
        var w := WordSize(c);
        assert (x - at) % w == (x - (at + w)) % w && (x - at) / w == (x - (at + w)) / w + 1;
      }
    }
  }

  // Inserting an address into a bitmap adds exactly that address to what the loader reads from it.
  lemma InsertAddsAddress(c: ElfClass, b: Bitmap, address: nat, x: nat)
    requires b.encoded % 2 == 1
    requires Insert(c, b, address).Some?
    ensures var r := Insert(c, b, address).value;
            && r.lo == b.lo && r.hi == b.hi && r.encoded % 2 == 1
            && (x in BitAddresses(c, r.encoded / 2, b.lo)
                <==> x == address || x in BitAddresses(c, b.encoded / 2, b.lo))
  {
    var r := Insert(c, b, address).value;
    var w := WordSize(c);
    var k := (address - b.lo) / w;
    assert r.encoded / 2 == SetBit(b.encoded / 2, k);
    BitAddressesMembers(c, r.encoded / 2, b.lo, x);
    BitAddressesMembers(c, b.encoded / 2, b.lo, x);
    if x >= b.lo && (x - b.lo) % w == 0 {
      SetBitBits(b.encoded / 2, k, (x - b.lo) / w);
    }
  }

  // What the encoder's state says about the table, and what the table decodes to.
  ghost predicate InStep(c: ElfClass, r: Run, addresses: seq<nat>) {
    && (match r.state
        case NoRun => r.entries == []
        case AddressOnly(next) =>
          && r.entries != []
          && next == After(c, r.entries[|r.entries| - 1])
          && r.entries[|r.entries| - 1] % 2 == 0
        case WithBitmap(b) =>
          && r.entries != []
          && r.entries[|r.entries| - 1] == b.encoded
          && b.encoded % 2 == 1 && b.encoded < Pow2(8 * WordSize(c))
          && b.hi == b.lo + Span(c)
          && Decode(c, r.entries[..|r.entries| - 1], 0).base == b.lo)
    && forall x: nat :: x in Decode(c, r.entries, 0).places <==> x in addresses
  }

  lemma SplitLast(entries: seq<nat>)
    requires entries != []
    ensures entries == entries[..|entries| - 1] + [entries[|entries| - 1]]
  {}

  // Where the loader stands after the table: at the first word of the window that the encoder would
  // try next.
  lemma NextBase(c: ElfClass, r: Run, addresses: seq<nat>)
    requires InStep(c, r, addresses)
    ensures r.state.AddressOnly? ==> Decode(c, r.entries, 0).base == r.state.next.lo
    ensures r.state.WithBitmap? ==> Decode(c, r.entries, 0).base == Following(c, r.state.bitmap).lo
  {
    if r.entries != [] {
      SplitLast(r.entries);
      DecodeAppend(c, r.entries[..|r.entries| - 1], r.entries[|r.entries| - 1], 0);
    }
  }

  // A bitmap of its own class never outgrows its word.
  lemma InsertFits(c: ElfClass, b: Bitmap, address: nat)
    requires b.hi == b.lo + Span(c) && b.encoded < Pow2(8 * WordSize(c))
    requires Insert(c, b, address).Some?
    ensures Insert(c, b, address).value.encoded < Pow2(8 * WordSize(c))
  {
    SetBitFits(b.encoded, (address - b.lo) / WordSize(c) + 1, 8 * WordSize(c));
  }

  lemma AppendAddress(c: ElfClass, r: Run, addresses: seq<nat>, address: nat)
    requires InStep(c, r, addresses) && address % 2 == 0
    ensures InStep(c, Run(NewRun(c, address).state, r.entries + [address]), addresses + [address])
  {
    DecodeAppend(c, r.entries, address, 0);
  }

  lemma AppendBitmap(c: ElfClass, r: Run, addresses: seq<nat>, b: Bitmap, address: nat)
    requires InStep(c, r, addresses)
    requires b.encoded == 1 && b.hi == b.lo + Span(c) && b.lo == Decode(c, r.entries, 0).base
    requires Insert(c, b, address).Some?
    ensures var b' := Insert(c, b, address).value;
            InStep(c, Run(WithBitmap(b'), r.entries + [b'.encoded]), addresses + [address])
  {
    var b' := Insert(c, b, address).value;
    Pow2Monotone(1, 8 * WordSize(c));
    InsertFits(c, b, address);
    DecodeAppend(c, r.entries, b'.encoded, 0);
    assert (r.entries + [b'.encoded])[..|r.entries|] == r.entries;
    forall x: nat { InsertAddsAddress(c, b, address, x); }
    InsertAddsAddress(c, b, address, address);
  }

  lemma OverwriteBitmap(c: ElfClass, r: Run, addresses: seq<nat>, address: nat)
    requires InStep(c, r, addresses) && r.state.WithBitmap?
    requires Insert(c, r.state.bitmap, address).Some?
    ensures var b' := Insert(c, r.state.bitmap, address).value;
            InStep(c, Run(WithBitmap(b'), Apply(r.entries, Update(b'.encoded))), addresses + [address])
  {
    var b := r.state.bitmap;
    var b' := Insert(c, b, address).value;
    var front := r.entries[..|r.entries| - 1];
    InsertFits(c, b, address);
    SplitLast(r.entries);
    DecodeAppend(c, front, b.encoded, 0);
    DecodeAppend(c, front, b'.encoded, 0);
    assert (front + [b'.encoded])[..|front|] == front;
    forall x: nat { InsertAddsAddress(c, b, address, x); }
    InsertAddsAddress(c, b, address, address);
  }

  lemma StepKeepsInStep(c: ElfClass, r: Run, addresses: seq<nat>, address: nat)
    requires InStep(c, r, addresses) && address % 2 == 0
    requires r.state.NoRun? <==> addresses == []
    ensures var t := Encode(c, r.state, address);
            && (t.step.Update? ==> r.entries != [])
            && InStep(c, Run(t.state, Apply(r.entries, t.step)), addresses + [address])
  {
    NextBase(c, r, addresses);
    match r.state
    case NoRun => AppendAddress(c, r, addresses, address);
    case AddressOnly(next) =>
      if Insert(c, next, address).Some? {
        AppendBitmap(c, r, addresses, next, address);
      } else {
        AppendAddress(c, r, addresses, address);
      }
    case WithBitmap(bitmap) =>
      if Insert(c, bitmap, address).Some? {
        OverwriteBitmap(c, r, addresses, address);
      } else if Insert(c, Following(c, bitmap), address).Some? {
        AppendBitmap(c, r, addresses, Following(c, bitmap), address);
      } else {
        AppendAddress(c, r, addresses, address);
      }
  }

  ghost predicate AllEven(addresses: seq<nat>) {
    forall i :: 0 <= i < |addresses| ==> addresses[i] % 2 == 0
  }

  // Whatever the order of the places, the loader relocates exactly the places that were encoded.
  lemma {:induction false} RoundTrip(c: ElfClass, addresses: seq<nat>)
    requires AllEven(addresses)
    ensures InStep(c, RunOver(c, addresses), addresses)
    ensures forall x: nat :: x in Decode(c, RunOver(c, addresses).entries, 0).places <==> x in addresses
  {
    hide Encode, RunOver;
    if addresses != [] {
      var front, last := addresses[..|addresses| - 1], addresses[|addresses| - 1];
      RoundTrip(c, front);
      StepKeepsInStep(c, RunOver(c, front), front, last);
      RunOverAppend(c, front, last);
      assert front + [last] == addresses;
    } else {
      NothingEncoded(c);
    }
  }

  // ----- Order ---------------------------------------------------------------------------------

  ghost predicate Increasing(addresses: seq<nat>) {
    forall i, j :: 0 <= i < j < |addresses| ==> addresses[i] < addresses[j]
  }

  // A bit above all others is read last.
  lemma {:induction false} TopBitIsLast(c: ElfClass, bits: nat, k: nat, at: nat)
    requires bits < Pow2(k)
    ensures BitAddresses(c, SetBit(bits, k), at) == BitAddresses(c, bits, at) + [at + k * WordSize(c)]
  {
    if k == 0 {
      assert SetBit(bits, k) == 1 && BitAddresses(c, 1, at) == [at] + BitAddresses(c, 0, at + WordSize(c));
    } else {
      TopBitIsLast(c, bits / 2, k - 1, at + WordSize(c));
      assert at + WordSize(c) + (k - 1) * WordSize(c) == at + k * WordSize(c);
      assert SetBit(bits, k) / 2 == SetBit(bits / 2, k - 1) && SetBit(bits, k) % 2 == bits % 2;
      assert SetBit(bits, k) != 0 by { SetBitBits(bits, k, k); ZeroHasNoBits(k); }
      var head := if bits % 2 == 1 then [at] else [];
      var tail := BitAddresses(c, bits / 2, at + WordSize(c));
      assert BitAddresses(c, bits, at) == head + tail;
      assert head + (tail + [at + k * WordSize(c)]) == head + tail + [at + k * WordSize(c)];
    }
  }

  // The last address sits on the highest bit in use.
  ghost predicate Tops(c: ElfClass, state: State, last: nat) {
    match state
    case NoRun => false
    case AddressOnly(next) => next == After(c, last)
    case WithBitmap(b) =>
      b.lo <= last < b.hi && (last - b.lo) % WordSize(c) == 0
      && b.encoded / 2 < Pow2((last - b.lo) / WordSize(c) + 1)
  }

  lemma InsertAtTop(c: ElfClass, b: Bitmap, address: nat)
    requires b.encoded % 2 == 1 && b.hi == b.lo + Span(c)
    requires Insert(c, b, address).Some?
    requires b.encoded / 2 < Pow2((address - b.lo) / WordSize(c))
    ensures var b' := Insert(c, b, address).value;
            && BitAddresses(c, b'.encoded / 2, b.lo) == BitAddresses(c, b.encoded / 2, b.lo) + [address]
            && Tops(c, WithBitmap(b'), address)
  {
    var k := (address - b.lo) / WordSize(c);
    var b' := Insert(c, b, address).value;
    assert b'.encoded / 2 == SetBit(b.encoded / 2, k);
    TopBitIsLast(c, b.encoded / 2, k, b.lo);
    assert b.lo + k * WordSize(c) == address;
    Pow2Monotone(k, k + 1);
    SetBitFits(b.encoded / 2, k, k + 1);
  }

  lemma OverwriteInOrder(c: ElfClass, r: Run, addresses: seq<nat>, address: nat)
    requires InStep(c, r, addresses) && r.state.WithBitmap? && addresses != []
    requires Decode(c, r.entries, 0).places == addresses
    requires addresses[|addresses| - 1] < address && Tops(c, r.state, addresses[|addresses| - 1])
    requires Insert(c, r.state.bitmap, address).Some?
    ensures var b' := Insert(c, r.state.bitmap, address).value;
            && Decode(c, Apply(r.entries, Update(b'.encoded)), 0).places == addresses + [address]
            && Tops(c, WithBitmap(b'), address)
  {
    hide Decode, BitAddresses, Pow2;
    var b, last := r.state.bitmap, addresses[|addresses| - 1];
    var b' := Insert(c, b, address).value;
    var front := r.entries[..|r.entries| - 1];
    OneWordApart(c, last - b.lo, address - b.lo);
    Pow2Monotone((last - b.lo) / WordSize(c) + 1, (address - b.lo) / WordSize(c));
    InsertAtTop(c, b, address);
    SplitLast(r.entries);
    DecodeAppend(c, front, b.encoded, 0);
    DecodeAppend(c, front, b'.encoded, 0);
    var places, bits := Decode(c, front, 0).places, BitAddresses(c, b.encoded / 2, b.lo);
    assert places + (bits + [address]) == places + bits + [address];
  }

  lemma AppendBitmapInOrder(c: ElfClass, r: Run, addresses: seq<nat>, b: Bitmap, address: nat)
    requires Decode(c, r.entries, 0) == Decoded(addresses, b.lo)
    requires b.encoded == 1 && b.hi == b.lo + Span(c)
    requires Insert(c, b, address).Some?
    ensures var b' := Insert(c, b, address).value;
            && Decode(c, r.entries + [b'.encoded], 0).places == addresses + [address]
            && Tops(c, WithBitmap(b'), address)
  {
    var b' := Insert(c, b, address).value;
    DecodeAppend(c, r.entries, b'.encoded, 0);
    InsertAtTop(c, b, address);
    assert b'.encoded % 2 == 1;
    assert [] + [address] == [address];
  }

  lemma StepKeepsOrder(c: ElfClass, r: Run, addresses: seq<nat>, address: nat)
    requires InStep(c, r, addresses) && address % 2 == 0
    requires r.state.NoRun? <==> addresses == []
    requires Decode(c, r.entries, 0).places == addresses
    requires addresses != [] ==>
               addresses[|addresses| - 1] < address && Tops(c, r.state, addresses[|addresses| - 1])
    ensures var t := Encode(c, r.state, address);
            && (t.step.Update? ==> r.entries != [])
            && Decode(c, Apply(r.entries, t.step), 0).places == addresses + [address]
            && Tops(c, t.state, address)
  {
    NextBase(c, r, addresses);
    DecodeAppend(c, r.entries, address, 0);
    match r.state
    case NoRun =>
    case AddressOnly(next) =>
      if Insert(c, next, address).Some? { AppendBitmapInOrder(c, r, addresses, next, address); }
    case WithBitmap(bitmap) =>
      if Insert(c, bitmap, address).Some? {
        OverwriteInOrder(c, r, addresses, address);
      } else if Insert(c, Following(c, bitmap), address).Some? {
        AppendBitmapInOrder(c, r, addresses, Following(c, bitmap), address);
      }
  }

  lemma OneWordApart(c: ElfClass, a: nat, b: nat)
    requires a < b && a % WordSize(c) == 0 && b % WordSize(c) == 0
    ensures a / WordSize(c) + 1 <= b / WordSize(c)
  {}

  lemma NothingEncoded(c: ElfClass)
    ensures RunOver(c, []) == Run(NoRun, []) && Decode(c, [], 0).places == []
  {}

  // Places given in increasing order come back in that order, each once.
  lemma {:induction false} RoundTripInOrder(c: ElfClass, addresses: seq<nat>)
    requires AllEven(addresses) && Increasing(addresses)
    ensures Decode(c, RunOver(c, addresses).entries, 0).places == addresses
    ensures addresses != [] ==> Tops(c, RunOver(c, addresses).state, addresses[|addresses| - 1])
  {
    hide Encode, InStep, Tops, Decode, RunOver;
    if addresses != [] {
      var front, last := addresses[..|addresses| - 1], addresses[|addresses| - 1];
      RoundTrip(c, front);
      RoundTripInOrder(c, front);
      StepKeepsOrder(c, RunOver(c, front), front, last);
      RunOverAppend(c, front, last);
      assert front + [last] == addresses;
    } else {
      NothingEncoded(c);
    }
  }

  // ----- Layout counts what the writer emits ---------------------------------------------------

  function Shifted(addresses: seq<nat>, base: nat): (r: seq<nat>) {
    seq(|addresses|, i requires 0 <= i < |addresses| => base + addresses[i])
  }

  function ShiftBitmap(b: Bitmap, base: nat): Bitmap {
    Bitmap(base + b.lo, base + b.hi, b.encoded)
  }

  function ShiftState(state: State, base: nat): State {
    match state
    case NoRun => NoRun
    case AddressOnly(next) => AddressOnly(ShiftBitmap(next, base))
    case WithBitmap(b) => WithBitmap(ShiftBitmap(b, base))
  }

  lemma InsertShifted(c: ElfClass, b: Bitmap, address: nat, base: nat)
    ensures var r := Insert(c, b, address);
            Insert(c, ShiftBitmap(b, base), base + address)
            == if r.Some? then Some(ShiftBitmap(r.value, base)) else None
  {}

  // The encoder cannot tell section offsets from addresses: both make the same moves.
  lemma EncodeShifted(c: ElfClass, state: State, address: nat, base: nat)
    ensures var t := Encode(c, state, address);
            var t' := Encode(c, ShiftState(state, base), base + address);
            t'.state == ShiftState(t.state, base) && (t'.step.New? <==> t.step.New?)
  {
    match state
    case NoRun =>
    case AddressOnly(next) => InsertShifted(c, next, address, base);
    case WithBitmap(b) =>
      InsertShifted(c, b, address, base);
      InsertShifted(c, Following(c, b), address, base);
  }

  // One more address is one more step.
  lemma RunOverAppend(c: ElfClass, addresses: seq<nat>, address: nat)
    ensures var r := RunOver(c, addresses);
            var t := Encode(c, r.state, address);
            && (t.step.Update? ==> r.entries != [])
            && RunOver(c, addresses + [address]) == Run(t.state, Apply(r.entries, t.step))
  {
    assert (addresses + [address])[..|addresses|] == addresses;
  }

  lemma {:induction false} CountShifted(c: ElfClass, offsets: seq<nat>, base: nat)
    ensures RunOver(c, Shifted(offsets, base)).state == ShiftState(RunOver(c, offsets).state, base)
    ensures |RunOver(c, Shifted(offsets, base)).entries| == |RunOver(c, offsets).entries|
  {
    hide Encode;
    if offsets != [] {
      var front, last := offsets[..|offsets| - 1], offsets[|offsets| - 1];
      CountShifted(c, front, base);
      EncodeShifted(c, RunOver(c, front).state, last, base);
      assert offsets == front + [last];
      assert Shifted(offsets, base) == Shifted(front, base) + [base + last];
      RunOverAppend(c, front, last);
      RunOverAppend(c, Shifted(front, base), base + last);
    }
  }
}
