// When the sizes that the layout reserves for .eh_frame are those that the writer needs, for all entries.
module EhFrameSizes {
  import opened Words
  import opened EhFrame

  // ----- What each pass goes by ----------------------------------------------------------------

  // The relocation names a section that is loaded and not empty, and whose frames are listed.
  predicate NamesLive(obj: Object, loaded: set<nat>, r: Relocation) {
    && r.symbol.Some? && r.symbol.value < |obj.symbols|
    && var s := obj.symbols[r.symbol.value].section;
       && s.Some? && s.value < |obj.sections| && obj.sections[s.value].kind.Loadable?
       && s.value in loaded && obj.sections[s.value].size > 0
  }

  // The relocation names a section that has an address and is not empty.
  predicate NamesPlaced(obj: Object, addresses: Addresses, r: Relocation)
    requires |addresses| == |obj.sections|
  {
    && r.symbol.Some? && r.symbol.value < |obj.symbols|
    && var s := obj.symbols[r.symbol.value].section;
       && s.Some? && s.value < |obj.sections| && addresses[s.value].Some? && obj.sections[s.value].size > 0
  }

  predicate NamesPcBegin(e: Entry, r: Relocation) {
    AtPcBegin(e, r) && r.symbol.Some?
  }

  // Relocation k is the last of the first n that names something for pc-begin.
  ghost predicate LastOf(e: Entry, n: nat, k: nat)
    requires n <= |e.relocations|
  {
    k < n && NamesPcBegin(e, e.relocations[k]) && forall i :: k < i < n ==> !NamesPcBegin(e, e.relocations[i])
  }

  // Layout goes by the last relocation at pc-begin.
  ghost predicate LastNamesLive(obj: Object, loaded: set<nat>, e: Entry) {
    exists k: nat :: LastOf(e, |e.relocations|, k) && NamesLive(obj, loaded, e.relocations[k])
  }

  predicate StartsAtPcBegin(e: Entry) {
    e.relocations != [] && AtPcBegin(e, e.relocations[0])
  }

  // The writer goes by the first relocation of all.
  predicate FirstNamesPlaced(obj: Object, addresses: Addresses, e: Entry)
    requires |addresses| == |obj.sections|
  {
    StartsAtPcBegin(e) && NamesPlaced(obj, addresses, e.relocations[0])
  }

  lemma {:induction false} LayoutTargetIsLast(obj: Object, e: Entry, n: nat, k: nat)
    requires LastIn(e, n, k) && LayoutTarget(obj, e, n).Ok?
    ensures if k == n then LayoutTarget(obj, e, n).value.None?
            else var symbol := e.relocations[k].symbol.value;
                 symbol < |obj.symbols| && LayoutTarget(obj, e, n).value == obj.symbols[symbol].section
  {
    if n > 0 && k != n - 1 {
      LayoutTargetIsLast(obj, e, n - 1, if k == n then n - 1 else k);
    }
  }

  // As LastOf; n stands for no such relocation.
  ghost predicate LastIn(e: Entry, n: nat, k: nat) {
    && k <= n <= |e.relocations|
    && (k < n ==> NamesPcBegin(e, e.relocations[k]))
    && forall i :: (if k == n then 0 else k + 1) <= i < n ==> !NamesPcBegin(e, e.relocations[i])
  }

  lemma {:induction false} FindLast(e: Entry, n: nat) returns (k: nat)
    requires n <= |e.relocations|
    ensures LastIn(e, n, k)
    ensures forall j: nat :: LastOf(e, n, j) <==> k < n && j == k
  {
    k := n;
    if n > 0 {
      if NamesPcBegin(e, e.relocations[n - 1]) {
        k := n - 1;
      } else {
        var j := FindLast(e, n - 1);
        k := if j == n - 1 then n else j;
        assert forall i: nat :: LastOf(e, n - 1, i) <==> LastOf(e, n, i);
      }
    }
  }

  lemma CountedExactly(obj: Object, loaded: set<nat>, e: Entry)
    ensures Counted(obj, loaded, e) <==> Owner(obj, e).Ok? && LastNamesLive(obj, loaded, e)
  {
    hide LayoutTarget, LastOf;
    var n := |e.relocations|;
    var k := FindLast(e, n);
    if LayoutTarget(obj, e, n).Ok? { LayoutTargetIsLast(obj, e, n, k); }
    hide LastIn;
    assert LastNamesLive(obj, loaded, e) <==> k < n && NamesLive(obj, loaded, e.relocations[k]);
  }

  lemma KeptExactly(obj: Object, addresses: Addresses, e: Entry)
    requires |addresses| == |obj.sections|
    ensures Kept(obj, addresses, e) <==> FirstNamesPlaced(obj, addresses, e)
  {}

  // ----- By how much they differ ---------------------------------------------------------------

  // Layout reserves space that the writer does not use.
  ghost predicate TooMuch(obj: Object, loaded: set<nat>, addresses: Addresses, e: Entry)
    requires |addresses| == |obj.sections|
  {
    !e.IsCie() && Owner(obj, e).Ok? && LastNamesLive(obj, loaded, e) && !FirstNamesPlaced(obj, addresses, e)
  }

  // The writer needs space that layout does not reserve.
  ghost predicate TooLittle(obj: Object, loaded: set<nat>, addresses: Addresses, e: Entry)
    requires |addresses| == |obj.sections|
  {
    !e.IsCie() && FirstNamesPlaced(obj, addresses, e) && !(Owner(obj, e).Ok? && LastNamesLive(obj, loaded, e))
  }

  // What one entry adds to bytes and header entries.
  ghost predicate Differ(reserved: Space, missing: Space, kept: Space, unused: Space) {
    reserved.bytes + missing.bytes == kept.bytes + unused.bytes
    && reserved.hdrEntries + missing.hdrEntries == kept.hdrEntries + unused.hdrEntries
  }

  ghost function SpaceIf(b: bool, e: Entry): Space {
    if b then Space(e.size, 1) else Space(0, 0)
  }

  lemma SpacesByVerdict(obj: Object, loaded: set<nat>, addresses: Addresses, e: Entry)
    requires |addresses| == |obj.sections| && e.size < 0x1_0000_0000 && !e.IsCie()
    ensures CountedSpace(obj, loaded, e) == SpaceIf(Owner(obj, e).Ok? && LastNamesLive(obj, loaded, e), e)
    ensures KeptSpace(obj, addresses, e) == SpaceIf(FirstNamesPlaced(obj, addresses, e), e)
    ensures CieSpace(e) == Space(0, 0)
  {
    hide Counted, Kept, LastNamesLive, FirstNamesPlaced, Owner;
    CountedExactly(obj, loaded, e);
    KeptExactly(obj, addresses, e);
    assert FrameSize(e) == e.size;
  }

  // For one entry of a length below 2^32, whatever its relocations.
  lemma OneEntryExactly(obj: Object, loaded: set<nat>, addresses: Addresses, e: Entry)
    requires |addresses| == |obj.sections| && e.size < 0x1_0000_0000
    ensures Differ(Plus(CountedSpace(obj, loaded, e), CieSpace(e)), SpaceIf(TooLittle(obj, loaded, addresses, e), e),
                   KeptSpace(obj, addresses, e), SpaceIf(TooMuch(obj, loaded, addresses, e), e))
  {
    hide LastNamesLive, FirstNamesPlaced, Owner, Counted, Kept, Plus, SpaceIf, Differ;
    if e.IsCie() {
      CieDiffers(e);
    } else {
      hide CountedSpace, KeptSpace, CieSpace;
      SpacesByVerdict(obj, loaded, addresses, e);
      VerdictsDiffer(Owner(obj, e).Ok? && LastNamesLive(obj, loaded, e), FirstNamesPlaced(obj, addresses, e), e);
    }
  }

  lemma VerdictsDiffer(counted: bool, kept: bool, e: Entry)
    ensures Differ(Plus(SpaceIf(counted, e), Space(0, 0)), SpaceIf(kept && !counted, e),
                   SpaceIf(kept, e), SpaceIf(counted && !kept, e))
  {
    hide SpaceIf, Plus;
    SpaceIfIs(counted, e);
    SpaceIfIs(kept, e);
    SpaceIfIs(kept && !counted, e);
    SpaceIfIs(counted && !kept, e);
    PlusNothing(SpaceIf(counted, e));
  }

  lemma SpaceIfIs(b: bool, e: Entry)
    ensures SpaceIf(b, e).bytes == (if b then e.size else 0) && SpaceIf(b, e).hdrEntries == if b then 1 else 0
  {}

  lemma PlusNothing(a: Space)
    ensures Plus(a, Space(0, 0)) == a
  {}

  lemma CieDiffers(e: Entry)
    ensures Differ(Plus(Space(0, 0), Space(e.size, 0)), SpaceIf(false, e), Space(e.size, 0), SpaceIf(false, e))
  {}

  lemma PlusIf(a: Space, b: bool, e: Entry)
    ensures var r := Plus(a, SpaceIf(b, e));
            r.hdrEntries == a.hdrEntries + (if b then 1 else 0) && r.bytes == a.bytes + if b then e.size else 0
  {}

  ghost function AllTooMuch(obj: Object, loaded: set<nat>, addresses: Addresses, entries: seq<Entry>): Space
    requires |addresses| == |obj.sections|
  {
    if entries == [] then Space(0, 0)
    else
      var last := entries[|entries| - 1];
      Plus(AllTooMuch(obj, loaded, addresses, entries[..|entries| - 1]), SpaceIf(TooMuch(obj, loaded, addresses, last), last))
  }

  ghost function AllTooLittle(obj: Object, loaded: set<nat>, addresses: Addresses, entries: seq<Entry>): Space
    requires |addresses| == |obj.sections|
  {
    if entries == [] then Space(0, 0)
    else
      var last := entries[|entries| - 1];
      Plus(AllTooLittle(obj, loaded, addresses, entries[..|entries| - 1]), SpaceIf(TooLittle(obj, loaded, addresses, last), last))
  }

  lemma DifferTogether(a: Space, a': Space, b: Space, b': Space, c: Space, c': Space, d: Space, d': Space, cie: Space, cie': Space)
    requires Differ(Plus(a, cie), b, c, d) && Differ(Plus(a', cie'), b', c', d')
    ensures Differ(Plus(Plus(a, a'), Plus(cie, cie')), Plus(b, b'), Plus(c, c'), Plus(d, d'))
  {}

  // Over all entries: what is reserved and what is missing make up what is kept and what is left over.
  lemma {:induction false} SizesDiffer(obj: Object, loaded: set<nat>, addresses: Addresses, entries: seq<Entry>)
    requires |addresses| == |obj.sections|
    requires forall i :: 0 <= i < |entries| ==> entries[i].size < 0x1_0000_0000
    ensures Differ(Plus(AllCountedSpace(obj, loaded, entries), AllCieSpace(entries)), AllTooLittle(obj, loaded, addresses, entries),
                   AllKeptSpace(obj, addresses, entries), AllTooMuch(obj, loaded, addresses, entries))
  {
    hide CountedSpace, KeptSpace, CieSpace, TooMuch, TooLittle, SpaceIf, Differ, Plus;
    if entries == [] {
      NothingDiffers();
    } else {
      var front, last := entries[..|entries| - 1], entries[|entries| - 1];
      SizesDiffer(obj, loaded, addresses, front);
      OneEntryExactly(obj, loaded, addresses, last);
      DifferTogether(AllCountedSpace(obj, loaded, front), CountedSpace(obj, loaded, last),
                     AllTooLittle(obj, loaded, addresses, front), SpaceIf(TooLittle(obj, loaded, addresses, last), last),
                     AllKeptSpace(obj, addresses, front), KeptSpace(obj, addresses, last),
                     AllTooMuch(obj, loaded, addresses, front), SpaceIf(TooMuch(obj, loaded, addresses, last), last),
                     AllCieSpace(front), CieSpace(last));
    }
  }

  lemma NothingDiffers()
    ensures Differ(Plus(Space(0, 0), Space(0, 0)), Space(0, 0), Space(0, 0), Space(0, 0))
  {}

  lemma {:induction false} NothingMissing(obj: Object, loaded: set<nat>, addresses: Addresses, entries: seq<Entry>)
    requires |addresses| == |obj.sections|
    ensures AllTooLittle(obj, loaded, addresses, entries).hdrEntries == 0
       <==> forall i :: 0 <= i < |entries| ==> !TooLittle(obj, loaded, addresses, entries[i])
    ensures AllTooLittle(obj, loaded, addresses, entries).hdrEntries == 0 ==> AllTooLittle(obj, loaded, addresses, entries).bytes == 0
  {
    hide TooLittle, Plus, SpaceIf;
    if entries != [] {
      var front, last := entries[..|entries| - 1], entries[|entries| - 1];
      NothingMissing(obj, loaded, addresses, front);
      PlusIf(AllTooLittle(obj, loaded, addresses, front), TooLittle(obj, loaded, addresses, last), last);
      assert forall i :: 0 <= i < |front| ==> front[i] == entries[i];
    }
  }

  lemma {:induction false} NothingUnused(obj: Object, loaded: set<nat>, addresses: Addresses, entries: seq<Entry>)
    requires |addresses| == |obj.sections|
    ensures AllTooMuch(obj, loaded, addresses, entries).hdrEntries == 0
       <==> forall i :: 0 <= i < |entries| ==> !TooMuch(obj, loaded, addresses, entries[i])
    ensures AllTooMuch(obj, loaded, addresses, entries).hdrEntries == 0 ==> AllTooMuch(obj, loaded, addresses, entries).bytes == 0
  {
    hide TooMuch, Plus, SpaceIf;
    if entries != [] {
      var front, last := entries[..|entries| - 1], entries[|entries| - 1];
      NothingUnused(obj, loaded, addresses, front);
      PlusIf(AllTooMuch(obj, loaded, addresses, front), TooMuch(obj, loaded, addresses, last), last);
      assert forall i :: 0 <= i < |front| ==> front[i] == entries[i];
    }
  }

  // The sizes agree exactly when as much is missing as is left over. So they do when all entries get the
  // same verdict from both passes, and when none is missing they do in no other case.
  lemma SizesAgreeExactly(obj: Object, loaded: set<nat>, addresses: Addresses, entries: seq<Entry>)
    requires |addresses| == |obj.sections|
    requires forall i :: 0 <= i < |entries| ==> entries[i].size < 0x1_0000_0000
    ensures var reserved, kept := Plus(AllCountedSpace(obj, loaded, entries), AllCieSpace(entries)), AllKeptSpace(obj, addresses, entries);
            var enough := forall i :: 0 <= i < |entries| ==> !TooLittle(obj, loaded, addresses, entries[i]);
            var used := forall i :: 0 <= i < |entries| ==> !TooMuch(obj, loaded, addresses, entries[i]);
            && (kept == reserved
                <==> AllTooLittle(obj, loaded, addresses, entries) == AllTooMuch(obj, loaded, addresses, entries))
            && (enough ==> kept.bytes <= reserved.bytes && (kept == reserved <==> used))
            && (used ==> reserved.bytes <= kept.bytes && (kept == reserved <==> enough))
  {
    hide TooMuch, TooLittle, AllCountedSpace, AllCieSpace, AllKeptSpace, AllTooMuch, AllTooLittle;
    SizesDiffer(obj, loaded, addresses, entries);
    NothingMissing(obj, loaded, addresses, entries);
    NothingUnused(obj, loaded, addresses, entries);
  }

  // At most one relocation of the entry is at pc-begin, wherever it stands in the list.
  ghost predicate OnePcBegin(e: Entry) {
    forall i, j :: 0 <= i < j < |e.relocations| ==> !(AtPcBegin(e, e.relocations[i]) && AtPcBegin(e, e.relocations[j]))
  }

  // With one relocation at pc-begin, against a section whose frames are listed, layout never reserves
  // too little. It reserves too much exactly for a counted FDE that does not start at pc-begin.
  lemma OnePcBeginIsEnough(obj: Object, loaded: set<nat>, addresses: Addresses, e: Entry)
    requires obj.Valid() && Resolves(obj, loaded, addresses) && !e.IsCie()
    requires OnePcBegin(e) && TargetIsLoadable(obj, addresses, e)
    ensures !TooLittle(obj, loaded, addresses, e)
    ensures TooMuch(obj, loaded, addresses, e) <==> Counted(obj, loaded, e) && !StartsAtPcBegin(e)
  {
    CountedExactly(obj, loaded, e);
    KeptExactly(obj, addresses, e);
    hide LastNamesLive, Resolves, TargetIsLoadable, Counted, Kept;
    if StartsAtPcBegin(e) { CountedIsKept(obj, loaded, addresses, e); }
  }

  // ----- Sections for which they disagree ------------------------------------------------------

  // One section that is loaded at 4096 and one that is not, and a symbol in each.
  function TwoSections(): (obj: Object)
    ensures obj.symbols == [Symbol(Some(0), 0), Symbol(Some(1), 0)]
    ensures obj.sections == [Section(Loadable, 16), Section(OtherSlot, 16)]
  {
    Object([Symbol(Some(0), 0), Symbol(Some(1), 0)], [Section(Loadable, 16), Section(OtherSlot, 16)])
  }

  // A CIE of 8 bytes, and behind it an FDE of 24 that points back to it.
  function OneFde(): (data: seq<Byte>)
    ensures |data| == 32 && U32(data, 0) == 4 && U32(data, 4) == 0 && U32(data, 8) == 20 && U32(data, 12) == 12
  {
    FourWords(4, 0, 20, 12, seq(16, _ => 0));
    Le32(4) + Le32(0) + Le32(20) + Le32(12) + seq(16, _ => 0)
  }

  lemma FourWords(a: nat, b: nat, c: nat, d: nat, rest: seq<Byte>)
    requires a < 256 && b < 256 && c < 256 && d < 256
    ensures var data := Le32(a) + Le32(b) + Le32(c) + Le32(d) + rest;
            && |data| == 16 + |rest|
            && U32(data, 0) == a && U32(data, 4) == b && U32(data, 8) == c && U32(data, 12) == d
  {
    hide Le32, U32;
    Le32RoundTrip(a);
    Le32RoundTrip(b);
    Le32RoundTrip(c);
    Le32RoundTrip(d);
    var data := Le32(a) + Le32(b) + Le32(c) + Le32(d) + rest;
    WordAt(data, 0, Le32(a));
    WordAt(data, 4, Le32(b));
    WordAt(data, 8, Le32(c));
    WordAt(data, 12, Le32(d));
  }

  lemma WordAt(data: seq<Byte>, at: nat, word: seq<Byte>)
    requires at + 4 <= |data| && |word| == 4 && data[at..at + 4] == word
    ensures U32(data, at) == U32(word, 0)
  {
    assert forall k :: 0 <= k < 4 ==> word[k] == data[at..at + 4][k];
  }

  lemma OneFdeParses(relocations: seq<Relocation>)
    requires forall i :: 0 <= i < |relocations| ==> 8 <= relocations[i].offset < 32
    ensures EntriesOf(Input(OneFde(), relocations)) == [Entry(0, 8, 0, []), Entry(8, 24, 12, relocations)]
  {
    hide Skip, OneFde, U32;
    var input := Input(OneFde(), relocations);
    SkipNone(relocations, 8);
    SkipAll(relocations, 0, 32);
    assert relocations[0..|relocations|] == relocations;
    assert EntryAt(input, 0, 0) == Entry(0, 8, 0, []) && EntryAt(input, 8, 0) == Entry(8, 24, 12, relocations);
    ParseStep(input, 8, 0);
    ParseStep(input, 0, 0);
    assert Parse(input, 8, 0) == Ok(Parsed([Entry(8, 24, 12, relocations)] + [], 32));
    assert [Entry(0, 8, 0, [])] + [Entry(8, 24, 12, relocations)] == [Entry(0, 8, 0, []), Entry(8, 24, 12, relocations)];
  }

  lemma ParseStep(input: Input, pos: nat, from: nat)
    requires pos + PREFIX_LEN <= |input.data| && from <= |input.relocations| && U32(input.data, pos) != 0
    requires pos + EntryAt(input, pos, from).size <= |input.data|
    ensures var e := EntryAt(input, pos, from);
            var rest := Parse(input, pos + e.size, Skip(input.relocations, from, pos + e.size));
            rest.Ok? ==> Parse(input, pos, from) == Ok(Parsed([e] + rest.value.entries, rest.value.end))
    ensures Parse(input, |input.data|, |input.relocations|) == Ok(Parsed([], |input.data|))
  {
    hide U32, Skip;
  }

  lemma SkipNone(relocations: seq<Relocation>, limit: nat)
    requires relocations == [] || relocations[0].offset >= limit
    ensures Skip(relocations, 0, limit) == 0
  {}

  lemma {:induction false} SkipAll(relocations: seq<Relocation>, from: nat, limit: nat)
    requires from <= |relocations| && forall i :: from <= i < |relocations| ==> relocations[i].offset < limit
    ensures Skip(relocations, from, limit) == |relocations|
    decreases |relocations| - from
  {
    if from < |relocations| { SkipAll(relocations, from + 1, limit); }
  }

  // The FDE has another relocation before the one at pc-begin: layout reserves 32 bytes and a header
  // entry, and the writer uses 8.
  lemma LateRelocationWastes()
    ensures var obj, addresses := TwoSections(), [Some(4096), None];
            var es := EntriesOf(Input(OneFde(), [Relocation(12, Some(1), 0), Relocation(16, Some(0), 0)]));
            && obj.Valid() && Resolves(obj, {0}, addresses)
            && AllCountedSpace(obj, {0}, es) == Space(24, 1) && AllCieSpace(es) == Space(8, 0)
            && AllKeptSpace(obj, addresses, es) == Space(8, 0)
  {
    hide TwoSections, OneFde, Counted, Kept, EntriesOf, AllCountedSpace, AllCieSpace, AllKeptSpace;
    var relocations := [Relocation(12, Some(1), 0), Relocation(16, Some(0), 0)];
    OneFdeParses(relocations);
    FdeByItsRelocations(relocations);
    SpacesOfTwo(TwoSections(), {0}, [Some(4096), None], Entry(0, 8, 0, []), Entry(8, 24, 12, relocations));
  }

  // The FDE has two relocations at pc-begin, the first against the loaded section and the second against
  // the other: layout reserves 8 bytes, and the writer needs 32 and a header entry.
  lemma SecondPcBeginOverruns()
    ensures var obj, addresses := TwoSections(), [Some(4096), None];
            var es := EntriesOf(Input(OneFde(), [Relocation(16, Some(0), 0), Relocation(16, Some(1), 0)]));
            && obj.Valid() && Resolves(obj, {0}, addresses)
            && AllCountedSpace(obj, {0}, es) == Space(0, 0) && AllCieSpace(es) == Space(8, 0)
            && AllKeptSpace(obj, addresses, es) == Space(32, 1)
  {
    hide TwoSections, OneFde, Counted, Kept, EntriesOf, AllCountedSpace, AllCieSpace, AllKeptSpace;
    var relocations := [Relocation(16, Some(0), 0), Relocation(16, Some(1), 0)];
    OneFdeParses(relocations);
    FdeByItsRelocations(relocations);
    SpacesOfTwo(TwoSections(), {0}, [Some(4096), None], Entry(0, 8, 0, []), Entry(8, 24, 12, relocations));
  }

  // The FDE is counted by its second relocation and kept by its first.
  lemma FdeByItsRelocations(relocations: seq<Relocation>)
    requires |relocations| == 2 && relocations[1].offset == 16
    requires relocations[0].symbol.Some? && relocations[0].symbol.value < 2
    requires relocations[1].symbol.Some? && relocations[1].symbol.value < 2
    ensures var e := Entry(8, 24, 12, relocations);
            && (Counted(TwoSections(), {0}, e) <==> relocations[1].symbol == Some(0))
            && (Kept(TwoSections(), [Some(4096), None], e)
                <==> relocations[0].offset == 16 && relocations[0].symbol == Some(0))
  {
    hide TwoSections;
    var obj, e := TwoSections(), Entry(8, 24, 12, relocations);
    assert LayoutTarget(obj, e, 0) == Ok(None) && LayoutTarget(obj, e, 1).Ok?;
  }

  lemma SpacesOfTwo(obj: Object, loaded: set<nat>, addresses: Addresses, cie: Entry, fde: Entry)
    requires |addresses| == |obj.sections| && cie.IsCie() && !fde.IsCie()
    requires cie.size < 0x1_0000_0000 && fde.size < 0x1_0000_0000
    ensures var es := [cie, fde];
            && AllCieSpace(es) == Space(cie.size, 0)
            && AllCountedSpace(obj, loaded, es) == (if Counted(obj, loaded, fde) then Space(fde.size, 1) else Space(0, 0))
            && AllKeptSpace(obj, addresses, es)
               == if Kept(obj, addresses, fde) then Space(cie.size + fde.size, 1) else Space(cie.size, 0)
  {
    hide CountedSpace, KeptSpace, CieSpace, Plus, Counted, Kept;
    var es := [cie, fde];
    assert es[..1] == [cie] && es[1] == fde && es[..1][..0] == [];
    assert AllKeptSpace(obj, addresses, es[..1]) == Plus(Space(0, 0), KeptSpace(obj, addresses, cie));
    assert AllCountedSpace(obj, loaded, es[..1]) == Plus(Space(0, 0), CountedSpace(obj, loaded, cie));
    assert AllCieSpace(es[..1]) == Plus(Space(0, 0), CieSpace(cie));
    OneSpace(obj, loaded, addresses, cie);
    OneSpace(obj, loaded, addresses, fde);
    PlusPlus(CieSpace(cie), CieSpace(fde));
    PlusPlus(CountedSpace(obj, loaded, cie), CountedSpace(obj, loaded, fde));
    PlusPlus(KeptSpace(obj, addresses, cie), KeptSpace(obj, addresses, fde));
  }

  lemma OneSpace(obj: Object, loaded: set<nat>, addresses: Addresses, e: Entry)
    requires |addresses| == |obj.sections| && e.size < 0x1_0000_0000
    ensures CieSpace(e) == Space(if e.IsCie() then e.size else 0, 0)
    ensures CountedSpace(obj, loaded, e) == if !e.IsCie() && Counted(obj, loaded, e) then Space(e.size, 1) else Space(0, 0)
    ensures KeptSpace(obj, addresses, e)
            == if e.IsCie() then Space(e.size, 0) else if Kept(obj, addresses, e) then Space(e.size, 1) else Space(0, 0)
  {
    hide Counted, Kept;
    assert FrameSize(e) == e.size;
  }

  lemma PlusPlus(a: Space, b: Space)
    ensures Plus(Plus(Space(0, 0), a), b) == Space(a.bytes + b.bytes, a.hdrEntries + b.hdrEntries)
  {}
}
