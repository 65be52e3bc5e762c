// The two passes that run the RELR encoder: layout, which counts, and the table writer, which fills
// the slices that layout sized.
module RelrTable {
  import opened Words
  import opened Relr
  import opened RelrGot

  datatype Relocation = Relocation(offset: nat, target: nat)

  // One loaded input section after layout: where it landed, and its relative relocations.
  datatype Section = Section(address: nat, relocations: seq<Relocation>)

  datatype Rela = Rela(offset: nat, addend: nat)

  // Only an even place can be an address entry: the low bit marks a bitmap.
  predicate Packs(packing: bool, place: nat) {
    packing && place % 2 == 0
  }

  // The places that go through the encoder, for a section at `base`. Layout works with base 0.
  function Packed(packing: bool, rs: seq<Relocation>, base: nat): (r: seq<nat>)
    ensures AllEven(r)
  {
    if rs == [] then []
    else
      var front, place := Packed(packing, rs[..|rs| - 1], base), base + rs[|rs| - 1].offset;
      if Packs(packing, place) then front + [place] else front
  }

  // What is left for .rela.dyn.
  function Unpacked(packing: bool, rs: seq<Relocation>, base: nat): (r: seq<Rela>) {
    if rs == [] then []
    else
      var front, last := Unpacked(packing, rs[..|rs| - 1], base), rs[|rs| - 1];
      if Packs(packing, base + last.offset) then front else front + [Rela(base + last.offset, last.target)]
  }

  // The entries of .relr.dyn for one section.
  function Entries(c: ElfClass, packing: bool, rs: seq<Relocation>, base: nat): seq<nat> {
    RunOver(c, Packed(packing, rs, base)).entries
  }

  lemma PackedAppend(packing: bool, rs: seq<Relocation>, n: nat, base: nat)
    requires n < |rs|
    ensures var place := base + rs[n].offset;
            && Packed(packing, rs[..n + 1], base)
               == (if Packs(packing, place) then Packed(packing, rs[..n], base) + [place]
                   else Packed(packing, rs[..n], base))
            && Unpacked(packing, rs[..n + 1], base)
               == (if Packs(packing, place) then Unpacked(packing, rs[..n], base)
                   else Unpacked(packing, rs[..n], base) + [Rela(place, rs[n].target)])
  {
    assert rs[..n + 1][..n] == rs[..n];
  }

  lemma EmptySection(c: ElfClass, packing: bool)
    ensures Packed(packing, [], 0) == [] && Unpacked(packing, [], 0) == []
    ensures RunOver(c, []) == Run(NoRun, [])
  {}

  // ----- Layout --------------------------------------------------------------------------------

  class RelrEncoder {
    var state: State
    const c: ElfClass

    constructor (c: ElfClass)
      ensures state == NoRun && this.c == c
    {
      this.c := c;
      state := NoRun;
    }

    method EncodeAddress(address: nat) returns (step: Step)
      modifies this
      ensures Transition(state, step) == Encode(c, old(state), address)
    {
      hide SetBit;
      match state {
        case NoRun =>
          step, state := New(address), AddressOnly(After(c, address));
        case AddressOnly(next) =>
          var inserted := Insert(c, next, address);
          if inserted.Some? {
            step, state := New(inserted.value.encoded), WithBitmap(inserted.value);
          } else {
            step, state := New(address), AddressOnly(After(c, address));
          }
        case WithBitmap(bitmap) =>
          var inserted := Insert(c, bitmap, address);
          if inserted.Some? {
            step, state := Update(inserted.value.encoded), WithBitmap(inserted.value);
          } else {
            inserted := Insert(c, Following(c, bitmap), address);
            if inserted.Some? {
              step, state := New(inserted.value.encoded), WithBitmap(inserted.value);
            } else {
              step, state := New(address), AddressOnly(After(c, address));
            }
          }
      }
    }
  }

  // Entries that layout reserves in .relr.dyn and in .rela.dyn.
  datatype Reservation = Reservation(relr: nat, rela: nat)

  // Layout sees section offsets only.
  method ReserveSection(c: ElfClass, packing: bool, rs: seq<Relocation>) returns (r: Reservation)
    ensures r == Reservation(|Entries(c, packing, rs, 0)|, |Unpacked(packing, rs, 0)|)
  {
    hide Encode, RunOver, Packed, Unpacked;
    EmptySection(c, packing);
    var encoder := new RelrEncoder(c);
    var relr, rela := 0, 0;
    assert rs[..0] == [];
    for i := 0 to |rs|
      invariant encoder.c == c
      invariant encoder.state == RunOver(c, Packed(packing, rs[..i], 0)).state
      invariant relr == |Entries(c, packing, rs[..i], 0)|
      invariant rela == |Unpacked(packing, rs[..i], 0)|
    {
      PackedAppend(packing, rs, i, 0);
      if Packs(packing, rs[i].offset) {
        RunOverAppend(c, Packed(packing, rs[..i], 0), rs[i].offset);
        var step := encoder.EncodeAddress(rs[i].offset);
        if step.New? { relr := relr + 1; }
      } else {
        rela := rela + 1;
      }
    }
    assert rs[..|rs|] == rs;
    r := Reservation(relr, rela);
  }

  function Total(c: ElfClass, packing: bool, sections: seq<Section>): (r: Reservation) {
    if sections == [] then Reservation(0, 0)
    else
      var front, last := Total(c, packing, sections[..|sections| - 1]), sections[|sections| - 1];
      Reservation(front.relr + |Entries(c, packing, last.relocations, 0)|,
                  front.rela + |Unpacked(packing, last.relocations, 0)|)
  }

  // ----- Writer --------------------------------------------------------------------------------

  // What the writer produces for a list of sections, with the run reset before each.
  function AllEntries(c: ElfClass, packing: bool, sections: seq<Section>): seq<nat> {
    if sections == [] then []
    else
      var last := sections[|sections| - 1];
      AllEntries(c, packing, sections[..|sections| - 1]) + Entries(c, packing, last.relocations, last.address)
  }

  function AllUnpacked(packing: bool, sections: seq<Section>): seq<Rela> {
    if sections == [] then []
    else
      var last := sections[|sections| - 1];
      AllUnpacked(packing, sections[..|sections| - 1]) + Unpacked(packing, last.relocations, last.address)
  }

  class TableWriter {
    const c: ElfClass
    const packing: bool
    const relrDyn: array<nat>
    const relaDyn: array<Rela>
    var relrUsed: nat
    var relaUsed: nat
    // Index of the entry that the next Update overwrites.
    var current: Option<nat>
    var state: State
    // The run in progress: where it began in the table, and the places fed to the encoder.
    ghost var runStart: nat
    ghost var places: seq<nat>

    ghost predicate Valid()
      reads this, relrDyn, relaDyn
    {
      && runStart <= relrUsed <= relrDyn.Length && relaUsed <= relaDyn.Length
      && RunOver(c, places) == Run(state, relrDyn[runStart..relrUsed])
      && current == (if runStart == relrUsed then None else Some(relrUsed - 1))
    }

    // What has been written to each table so far.
    ghost function RelrWritten(): seq<nat>
      reads this, relrDyn
      requires relrUsed <= relrDyn.Length
    { relrDyn[..relrUsed] }

    ghost function RelaWritten(): seq<Rela>
      reads this, relaDyn
      requires relaUsed <= relaDyn.Length
    { relaDyn[..relaUsed] }

    // The RELR slice is dropped when packing is off or nothing was reserved.
    constructor (c: ElfClass, packRelativeRelocs: bool, relrDyn: array<nat>, relaDyn: array<Rela>)
      ensures Valid() && RelrWritten() == [] && RelaWritten() == []
      ensures this.c == c && this.relrDyn == relrDyn && this.relaDyn == relaDyn
      ensures packing == (packRelativeRelocs && relrDyn.Length > 0)
    {
      this.c := c;
      this.packing := packRelativeRelocs && relrDyn.Length > 0;
      this.relrDyn, this.relaDyn := relrDyn, relaDyn;
      relrUsed, relaUsed := 0, 0;
      current, state := None, NoRun;
      runStart, places := 0, [];
    }

    method ResetRelrRun()
      requires Valid()
      modifies this
      ensures Valid() && places == [] && runStart == relrUsed
      ensures RelrWritten() == old(RelrWritten()) && RelaWritten() == old(RelaWritten())
    {
      state, current := NoRun, None;
      runStart, places := relrUsed, [];
    }

    // Appends an entry, or overwrites the last one of the run.
    method EmitEntry(step: Step) returns (r: Result<()>)
      requires runStart <= relrUsed <= relrDyn.Length
      requires current == (if runStart == relrUsed then None else Some(relrUsed - 1))
      modifies this`relrUsed, this`current, relrDyn
      ensures r.Ok? <==> if step.Update? then runStart < old(relrUsed) else old(relrUsed) < relrDyn.Length
      ensures r.Ok? ==>
                && runStart < relrUsed <= relrDyn.Length && current == Some(relrUsed - 1)
                && relrDyn[runStart..relrUsed] == Apply(old(relrDyn[runStart..relrUsed]), step)
                && relrDyn[..runStart] == old(relrDyn[..runStart])
    {
      ghost var before := relrDyn[runStart..relrUsed];
      match step {
        case New(v) =>
          if relrUsed == relrDyn.Length { return Err("insufficient .relr.dyn"); }
          relrDyn[relrUsed] := v;
          current, relrUsed := Some(relrUsed), relrUsed + 1;
          assert relrDyn[runStart..relrUsed] == before + [v];
        case Update(v) =>
          if current.None? { return Err("internal error in RELR bitmap encoding"); }
          relrDyn[current.value] := v;
          assert relrDyn[runStart..relrUsed] == before[..|before| - 1] + [v];
      }
      r := Ok(());
    }

    // Returns the value to store at the relocated place.
    method WriteAddressRelocation(place: nat, relativeAddress: nat) returns (r: Result<nat>)
      requires Valid()
      modifies this, relrDyn, relaDyn
      ensures r.Ok? ==> Valid() && runStart == old(runStart)
      ensures r.Ok? ==> relrDyn[..runStart] == old(relrDyn[..runStart])
      ensures Packs(packing, place) ==>
                && (r.Ok? <==> old(runStart) + |RunOver(c, old(places) + [place]).entries| <= relrDyn.Length)
                && (r.Ok? ==> r.value == relativeAddress && places == old(places) + [place]
                              && RelaWritten() == old(RelaWritten()))
      ensures !Packs(packing, place) ==>
                && (r.Ok? <==> |old(RelaWritten())| < relaDyn.Length)
                && (r.Ok? ==> r.value == 0 && places == old(places)
                              && RelaWritten() == old(RelaWritten()) + [Rela(place, relativeAddress)])
    {
      hide Encode, RunOver;
      if packing && place % 2 == 0 {
        RunOverAppend(c, places, place);
        var t := Encode(c, state, place);
        state := NoRun;
        var emitted := EmitEntry(t.step);
        if emitted.Err? { return Err(emitted.message); }
        state := t.state;
        places := places + [place];
        r := Ok(relativeAddress);
      } else {
        if relaUsed == relaDyn.Length { return Err("insufficient .rela.dyn"); }
        relaDyn[relaUsed] := Rela(place, relativeAddress);
        relaUsed := relaUsed + 1;
        r := Ok(0);
      }
    }

    // The writer has done the first n relocations of the section, on top of what it had before.
    ghost predicate InSection(section: Section, n: nat, relr: seq<nat>, rela: seq<Rela>)
      reads this, relrDyn, relaDyn
    {
      && Valid() && n <= |section.relocations|
      && places == Packed(packing, section.relocations[..n], section.address)
      && relrDyn[..runStart] == relr
      && RelaWritten() == rela + Unpacked(packing, section.relocations[..n], section.address)
    }

    // The first n relocations of the section fit.
    ghost predicate Fits(section: Section, n: nat, relr: seq<nat>, rela: seq<Rela>)
      requires n <= |section.relocations|
    {
      var rs := section.relocations[..n];
      && |relr| + |Entries(c, packing, rs, section.address)| <= relrDyn.Length
      && |rela| + |Unpacked(packing, rs, section.address)| <= relaDyn.Length
    }

    method WriteRelocation(section: Section, n: nat, ghost relr: seq<nat>, ghost rela: seq<Rela>)
      returns (r: Result<nat>)
      requires n < |section.relocations|
      requires InSection(section, n, relr, rela) && Fits(section, n, relr, rela)
      modifies this, relrDyn, relaDyn
      ensures r.Ok? <==> Fits(section, n + 1, relr, rela)
      ensures r.Ok? ==> InSection(section, n + 1, relr, rela)
    {
      hide RunOver, Packed, Unpacked;
      var next := section.relocations[n];
      PackedAppend(packing, section.relocations, n, section.address);
      r := WriteAddressRelocation(section.address + next.offset, next.target);
    }

    // The relocations of one loaded section. Succeeds exactly when they fit in what is left.
    method WriteSection(section: Section) returns (r: Result<()>)
      requires Valid()
      modifies this, relrDyn, relaDyn
      ensures var entries := Entries(c, packing, section.relocations, section.address);
              var rela := Unpacked(packing, section.relocations, section.address);
              && (r.Ok? <==> |old(RelrWritten())| + |entries| <= relrDyn.Length
                             && |old(RelaWritten())| + |rela| <= relaDyn.Length)
              && (r.Ok? ==> Valid() && RelrWritten() == old(RelrWritten()) + entries
                            && RelaWritten() == old(RelaWritten()) + rela)
    {
      ghost var relr, rela := RelrWritten(), RelaWritten();
      var rs := section.relocations;
      ResetRelrRun();
      assert rs[..0] == [];
      for i := 0 to |rs|
        invariant InSection(section, i, relr, rela) && Fits(section, i, relr, rela)
      {
        PrefixNeedsLess(c, packing, rs, i + 1, section.address);
        var w := WriteRelocation(section, i, relr, rela);
        if w.Err? { return Err(w.message); }
      }
      assert rs[..|rs|] == rs;
      assert relrDyn[..relrUsed] == relrDyn[..runStart] + relrDyn[runStart..relrUsed];
      r := Ok(());
    }

    // The whole GOT block at once: it is contiguous, so its bitmaps are known in closed form.
    method WriteGotRelrBitmap(n: nat, base: nat) returns (r: Result<()>)
      requires relrUsed <= relrDyn.Length
      modifies this`relrUsed, relrDyn
      ensures relrUsed <= relrDyn.Length
      ensures base == 0 || n == 0 || !packing ==> r.Ok? && RelrWritten() == old(RelrWritten())
      ensures base != 0 && n != 0 && packing ==>
                && (r.Ok? <==> |old(RelrWritten())| + |GotEntries(c, n, base)| <= relrDyn.Length)
                && (r.Ok? ==> RelrWritten() == old(RelrWritten()) + GotEntries(c, n, base))
    {
      hide LowSlots;
      if base == 0 || n == 0 || !packing { return Ok(()); }
      ghost var goal := RelrWritten() + GotEntries(c, n, base);
      if relrUsed == relrDyn.Length { return Err("insufficient .relr.dyn"); }
      relrDyn[relrUsed], relrUsed := base, relrUsed + 1;
      var remaining := n - 1;
      while remaining > 0
        invariant 0 <= remaining && relrUsed <= relrDyn.Length
        invariant goal == RelrWritten() + GotBitmaps(c, remaining)
      {
        var slots := if remaining < Slots(c) then remaining else Slots(c);
        if relrUsed == relrDyn.Length { return Err("insufficient .relr.dyn"); }
        relrDyn[relrUsed], relrUsed := LowSlots(slots), relrUsed + 1;
        remaining := remaining - slots;
      }
      r := Ok(());
    }

    // All loaded sections of an object.
    method WriteObject(sections: seq<Section>) returns (r: Result<()>)
      requires Valid()
      modifies this, relrDyn, relaDyn
      ensures r.Ok? <==> |old(RelrWritten())| + |AllEntries(c, packing, sections)| <= relrDyn.Length
                         && |old(RelaWritten())| + |AllUnpacked(packing, sections)| <= relaDyn.Length
      ensures r.Ok? ==> Valid() && RelrWritten() == old(RelrWritten()) + AllEntries(c, packing, sections)
                        && RelaWritten() == old(RelaWritten()) + AllUnpacked(packing, sections)
    {
      hide AllEntries, AllUnpacked, Entries, Unpacked, RunOver, Packed, AllPlaces;
      ghost var relr, rela := RelrWritten(), RelaWritten();
      assert sections[..0] == [];
      NoSections(c, packing);
      for i := 0 to |sections|
        invariant Valid() && RelrWritten() == relr + AllEntries(c, packing, sections[..i])
        invariant RelaWritten() == rela + AllUnpacked(packing, sections[..i])
      {
        OneMoreSection(c, packing, sections, i);
        ShorterNeedsLess(c, packing, sections, i + 1);
        ghost var rs, address := sections[i].relocations, sections[i].address;
        Assoc(relr, AllEntries(c, packing, sections[..i]), Entries(c, packing, rs, address));
        Assoc(rela, AllUnpacked(packing, sections[..i]), Unpacked(packing, rs, address));
        var w := WriteSection(sections[i]);
        if w.Err? { return Err(w.message); }
      }
      assert sections[..|sections|] == sections;
      r := Ok(());
    }
  }

  lemma Assoc<T>(a: seq<T>, b: seq<T>, c: seq<T>)
    ensures a + b + c == a + (b + c)
  {}

  lemma NoSections(c: ElfClass, packing: bool)
    ensures AllEntries(c, packing, []) == [] && AllUnpacked(packing, []) == []
  {}

  lemma OneMoreSection(c: ElfClass, packing: bool, sections: seq<Section>, n: nat)
    requires n < |sections|
    ensures var rs, address := sections[n].relocations, sections[n].address;
            && AllEntries(c, packing, sections[..n + 1]) == AllEntries(c, packing, sections[..n]) + Entries(c, packing, rs, address)
            && AllUnpacked(packing, sections[..n + 1]) == AllUnpacked(packing, sections[..n]) + Unpacked(packing, rs, address)
            && AllPlaces(packing, sections[..n + 1]) == AllPlaces(packing, sections[..n]) + Packed(packing, rs, address)
  {
    hide Entries, Unpacked, Packed;
    assert sections[..n + 1][..n] == sections[..n];
  }

  // Tables only grow along a section.
  lemma {:induction false} PrefixNeedsLess(c: ElfClass, packing: bool, rs: seq<Relocation>, n: nat, base: nat)
    requires n <= |rs|
    ensures |Entries(c, packing, rs[..n], base)| <= |Entries(c, packing, rs, base)|
    ensures |Unpacked(packing, rs[..n], base)| <= |Unpacked(packing, rs, base)|
    decreases |rs| - n
  {
    hide RunOver, Encode, Packed, Unpacked;
    if n == |rs| {
      assert rs[..n] == rs;
    } else {
      PackedAppend(packing, rs, n, base);
      RunOverAppend(c, Packed(packing, rs[..n], base), base + rs[n].offset);
      PrefixNeedsLess(c, packing, rs, n + 1, base);
    }
  }

  lemma {:induction false} ShorterNeedsLess(c: ElfClass, packing: bool, sections: seq<Section>, n: nat)
    requires n <= |sections|
    ensures |AllEntries(c, packing, sections[..n])| <= |AllEntries(c, packing, sections)|
    ensures |AllUnpacked(packing, sections[..n])| <= |AllUnpacked(packing, sections)|
    decreases |sections| - n
  {
    if n == |sections| {
      assert sections[..n] == sections;
    } else {
      assert sections[..n + 1][..n] == sections[..n];
      ShorterNeedsLess(c, packing, sections, n + 1);
    }
  }

  // ----- Agreement -----------------------------------------------------------------------------

  // An even base moves every place without moving it across the parity test.
  lemma {:induction false} PackedShifted(packing: bool, rs: seq<Relocation>, base: nat)
    requires base % 2 == 0
    ensures Packed(packing, rs, base) == Shifted(Packed(packing, rs, 0), base)
    ensures |Unpacked(packing, rs, base)| == |Unpacked(packing, rs, 0)|
  {
    if rs != [] {
      PackedShifted(packing, rs[..|rs| - 1], base);
      EvenPlus(base, rs[|rs| - 1].offset);
    }
  }

  ghost predicate EvenAddresses(sections: seq<Section>) {
    forall i :: 0 <= i < |sections| ==> sections[i].address % 2 == 0
  }

  // Layout, counting on offsets, reserves what the writer, working on addresses, emits.
  lemma {:induction false} ReservedIsEmitted(c: ElfClass, packing: bool, sections: seq<Section>)
    requires EvenAddresses(sections)
    ensures Total(c, packing, sections)
            == Reservation(|AllEntries(c, packing, sections)|, |AllUnpacked(packing, sections)|)
  {
    if sections != [] {
      var last := sections[|sections| - 1];
      ReservedIsEmitted(c, packing, sections[..|sections| - 1]);
      PackedShifted(packing, last.relocations, last.address);
      CountShifted(c, Packed(packing, last.relocations, 0), last.address);
    }
  }

  // An empty .relr.dyn slice turns packing off, and then nothing would have been packed anyway.
  lemma {:induction false} NothingToPack(c: ElfClass, sections: seq<Section>)
    requires AllEntries(c, true, sections) == []
    ensures AllEntries(c, false, sections) == [] && AllUnpacked(false, sections) == AllUnpacked(true, sections)
  {
    if sections != [] {
      var last := sections[|sections| - 1];
      NothingToPack(c, sections[..|sections| - 1]);
      NoEvenPlace(last.relocations, last.address);
    }
  }

  lemma {:induction false} NoEvenPlace(rs: seq<Relocation>, base: nat)
    requires Packed(true, rs, base) == []
    ensures Packed(false, rs, base) == [] && Unpacked(false, rs, base) == Unpacked(true, rs, base)
  {
    if rs != [] {
      NoEvenPlace(rs[..|rs| - 1], base);
    }
  }

  method ReserveSections(c: ElfClass, packing: bool, sections: seq<Section>) returns (r: Reservation)
    ensures r == Total(c, packing, sections)
  {
    hide Entries, Unpacked;
    r := Reservation(0, 0);
    assert sections[..0] == [];
    for i := 0 to |sections|
      invariant r == Total(c, packing, sections[..i])
    {
      assert sections[..i + 1][..i] == sections[..i];
      var reserved := ReserveSection(c, packing, sections[i].relocations);
      r := Reservation(r.relr + reserved.relr, r.rela + reserved.rela);
    }
    assert sections[..|sections|] == sections;
  }

  // The two passes together. No entry is missing, none is left over, and the tables hold what the
  // section addresses call for.
  method LayoutThenWrite(c: ElfClass, packing: bool, sections: seq<Section>)
    returns (r: Result<()>, relr: seq<nat>, rela: seq<Rela>)
    requires EvenAddresses(sections)
    ensures r.Ok? && relr == AllEntries(c, packing, sections) && rela == AllUnpacked(packing, sections)
  {
    hide Entries, Packed, Unpacked, AllEntries, AllUnpacked, RunOver, Total;
    var reserved := ReserveSections(c, packing, sections);
    ReservedIsEmitted(c, packing, sections);
    var relrDyn := new nat[reserved.relr];
    var relaDyn := new Rela[reserved.rela](_ => Rela(0, 0));
    var writer := new TableWriter(c, packing, relrDyn, relaDyn);
    if packing && reserved.relr == 0 { NothingToPack(c, sections); }
    r := writer.WriteObject(sections);
    assert relrDyn[..writer.relrUsed] == [] + AllEntries(c, packing, sections) == AllEntries(c, packing, sections);
    assert relaDyn[..writer.relaUsed] == [] + AllUnpacked(packing, sections) == AllUnpacked(packing, sections);
    assert |relrDyn[..writer.relrUsed]| == writer.relrUsed && |relaDyn[..writer.relaUsed]| == writer.relaUsed;
    relr, rela := relrDyn[..], relaDyn[..];
  }

  // ----- What the loader makes of the table ----------------------------------------------------

  // A run starts with an address entry, so it does not matter what comes before it in the table.
  lemma {:induction false} StartsWithAddress(c: ElfClass, addresses: seq<nat>)
    requires AllEven(addresses) && addresses != []
    ensures var r := RunOver(c, addresses);
            r.entries != [] && r.entries[0] == addresses[0] && (r.state.WithBitmap? ==> |r.entries| >= 2)
  {
    hide Encode;
    var front, last := addresses[..|addresses| - 1], addresses[|addresses| - 1];
    EncodeShape(c, RunOver(c, front).state, last);
    if front != [] {
      StartsWithAddress(c, front);
    }
  }

  // Only a bitmap is overwritten, and only an address opens a run.
  lemma EncodeShape(c: ElfClass, state: State, address: nat)
    ensures var t := Encode(c, state, address);
            && (t.step.Update? ==> state.WithBitmap?)
            && (state.NoRun? ==> t.step == New(address) && t.state.AddressOnly?)
  {}

  lemma RunDecodesAnywhere(c: ElfClass, addresses: seq<nat>, base: nat)
    requires AllEven(addresses)
    ensures Decode(c, RunOver(c, addresses).entries, base).places
            == Decode(c, RunOver(c, addresses).entries, 0).places
  {
    if addresses != [] {
      StartsWithAddress(c, addresses);
    }
  }

  function AllPlaces(packing: bool, sections: seq<Section>): seq<nat> {
    if sections == [] then []
    else
      var last := sections[|sections| - 1];
      AllPlaces(packing, sections[..|sections| - 1]) + Packed(packing, last.relocations, last.address)
  }

  // The loader relocates the even places of all sections, and nothing else.
  lemma {:induction false} TableRoundTrip(c: ElfClass, packing: bool, sections: seq<Section>)
    ensures forall x: nat :: x in Decode(c, AllEntries(c, packing, sections), 0).places
                        <==> x in AllPlaces(packing, sections)
  {
    if sections != [] {
      var front, last := sections[..|sections| - 1], sections[|sections| - 1];
      var run := Packed(packing, last.relocations, last.address);
      var entries := AllEntries(c, packing, front);
      TableRoundTrip(c, packing, front);
      DecodeConcat(c, entries, RunOver(c, run).entries, 0);
      RunDecodesAnywhere(c, run, Decode(c, entries, 0).base);
      RoundTrip(c, run);
    }
  }

  // ----- Where agreement fails -----------------------------------------------------------------

  // What is reserved for a section on its offsets is what it takes at its address.
  ghost predicate SameCounts(c: ElfClass, packing: bool, rs: seq<Relocation>, address: nat) {
    && |Entries(c, packing, rs, 0)| == |Entries(c, packing, rs, address)|
    && |Unpacked(packing, rs, 0)| == |Unpacked(packing, rs, address)|
  }

  // Exactly at even addresses that is so whatever the relocations.
  lemma AgreesExactlyWhenEven(c: ElfClass, address: nat)
    ensures (forall rs :: SameCounts(c, true, rs, address)) <==> address % 2 == 0
  {
    if address % 2 == 0 {
      forall rs ensures SameCounts(c, true, rs, address) { EvenAddressAgrees(c, rs, address); }
    } else {
      OddAddressDisagrees(c, address, 0);
    }
  }

  lemma EvenAddressAgrees(c: ElfClass, rs: seq<Relocation>, address: nat)
    requires address % 2 == 0
    ensures SameCounts(c, true, rs, address)
  {
    hide RunOver;
    PackedShifted(true, rs, address);
    CountShifted(c, Packed(true, rs, 0), address);
  }

  // At an odd address the parity test of the two passes differs: layout reserves a RELR entry for
  // offset 0, the writer wants a RELA entry.
  lemma OddAddressDisagrees(c: ElfClass, address: nat, target: nat)
    requires address % 2 == 1
    ensures var rs := [Relocation(0, target)];
            && |Entries(c, true, rs, 0)| == 1 && Unpacked(true, rs, 0) == []
            && Entries(c, true, rs, address) == [] && Unpacked(true, rs, address) == [Rela(address, target)]
            && !SameCounts(c, true, rs, address)
  {
    hide RunOver;
    var rs := [Relocation(0, target)];
    assert rs[..0] == [];
    assert Packed(true, rs, 0) == [0] && Packed(true, rs, address) == [];
    assert Unpacked(true, rs[..0], address) == [] && Unpacked(true, rs, 0) == [];
    assert Unpacked(true, rs, address) == [Rela(address, target)];
    OneAddress(c, 0);
    EmptySection(c, true);
  }

  lemma OneAddress(c: ElfClass, address: nat)
    ensures |RunOver(c, [address]).entries| == 1
  {
    RunOverAppend(c, [], address);
    assert [] + [address] == [address];
  }
}
