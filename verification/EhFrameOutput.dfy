// What a reader finds in the .eh_frame that the writer emitted: the kept entries, in input order and
// without gaps, and in every FDE a CIE pointer to the copy of its own CIE.
module EhFrameOutput {
  import opened Words
  import opened EhFrame
  import opened EhFrameEmit

  predicate IsKept(env: Env, e: Entry)
    requires |env.addresses| == |env.obj.sections|
  {
    e.IsCie() || Kept(env.obj, env.addresses, e)
  }

  ghost predicate AllKept(env: Env, kept: seq<Entry>)
    requires |env.addresses| == |env.obj.sections|
  {
    forall i :: 0 <= i < |kept| ==> IsKept(env, kept[i])
  }

  function KeptEntries(env: Env, entries: seq<Entry>): (r: seq<Entry>)
    requires |env.addresses| == |env.obj.sections|
    ensures AllKept(env, r)
  {
    if entries == [] then []
    else
      var front, last := KeptEntries(env, entries[..|entries| - 1]), entries[|entries| - 1];
      if IsKept(env, last) then front + [last] else front
  }

  // Where entry number i of a list of adjacent entries starts.
  function OutPos(kept: seq<Entry>, i: nat): nat
    requires i <= |kept|
  {
    if i == 0 then 0 else OutPos(kept, i - 1) + kept[i - 1].size
  }

  lemma {:induction false} OutPosPrefix(kept: seq<Entry>, more: seq<Entry>, i: nat)
    requires i <= |kept|
    ensures OutPos(kept + more, i) == OutPos(kept, i)
  {
    if i > 0 { OutPosPrefix(kept, more, i - 1); }
  }

  lemma {:induction false} OutPosMonotone(kept: seq<Entry>, i: nat, j: nat)
    requires i <= j <= |kept|
    ensures OutPos(kept, i) <= OutPos(kept, j)
    ensures i < j ==> OutPos(kept, i) + kept[i].size <= OutPos(kept, j)
  {
    if i < j { OutPosMonotone(kept, i, j - 1); }
  }

  // The length and id fields are in the section.
  ghost predicate HasHeader(data: seq<Byte>, e: Entry) {
    e.pos + 8 <= |data| && U32(data, e.pos) == e.size - 4 && U32(data, e.pos + 4) == e.cieId
  }

  // The entry's length covers its id field, and no relocation touches either field.
  ghost predicate PlainHeader(e: Entry) {
    e.size >= 8 && forall i :: 0 <= i < |e.relocations| ==> e.relocations[i].offset >= e.pos + 8
  }

  // The FDE's id leads from its place back to the copy of CIE number j.
  ghost predicate PointsTo(bytes: seq<Byte>, kept: seq<Entry>, i: nat, j: nat)
    requires j < i < |kept| && OutPos(kept, i) + 8 <= |bytes|
  {
    && kept[j].IsCie() && kept[j].pos + kept[i].cieId == kept[i].pos + 4
    && U32(bytes, OutPos(kept, i) + 4) == OutPos(kept, i) + 4 - OutPos(kept, j)
  }

  // Entry number i sits at its place.
  ghost predicate Placed(bytes: seq<Byte>, kept: seq<Entry>, i: nat)
    requires i < |kept|
  {
    var p := OutPos(kept, i);
    && p + kept[i].size <= |bytes| && kept[i].size >= 8
    && U32(bytes, p) == kept[i].size - 4
    && (kept[i].IsCie() ==> U32(bytes, p + 4) == 0)
    && (!kept[i].IsCie() ==> exists j: nat :: j < i && PointsTo(bytes, kept, i, j))
  }

  ghost predicate CieKnown(kept: seq<Entry>, i: nat, pos: nat, out: nat) {
    i < |kept| && kept[i].IsCie() && kept[i].pos == pos && OutPos(kept, i) == out
  }

  // What the writer's state says about the entries it has emitted.
  ghost predicate Faithful(kept: seq<Entry>, st: Emitted) {
    && |st.bytes| == OutPos(kept, |kept|)
    && (forall i: nat :: i < |kept| ==> Placed(st.bytes, kept, i))
    && (forall pos: nat :: pos in st.cies ==> exists i: nat :: CieKnown(kept, i, pos, st.cies[pos]))
  }

  lemma U32Append(a: seq<Byte>, b: seq<Byte>, k: nat)
    ensures k + 4 <= |a| ==> U32(a + b, k) == U32(a, k)
    ensures k + 4 <= |b| ==> U32(a + b, |a| + k) == U32(b, k)
  {}

  lemma U32Slice(a: seq<Byte>, lo: nat, hi: nat, k: nat)
    requires lo <= hi <= |a| && lo + k + 4 <= hi
    ensures U32(a[lo..hi], k) == U32(a, lo + k)
  {}

  lemma PlacedAppend(bytes: seq<Byte>, b: seq<Byte>, kept: seq<Entry>, e: Entry, i: nat)
    requires i < |kept| && Placed(bytes, kept, i)
    ensures Placed(bytes + b, kept + [e], i)
  {
    hide U32;
    OutPosPrefix(kept, [e], i);
    var p := OutPos(kept, i);
    U32Append(bytes, b, p);
    U32Append(bytes, b, p + 4);
    if !kept[i].IsCie() {
      var j: nat :| j < i && PointsTo(bytes, kept, i, j);
      OutPosPrefix(kept, [e], j);
      assert PointsTo(bytes + b, kept + [e], i, j);
    }
  }

  // A block appended for entry e, with the right length and id fields, extends the output.
  lemma AppendBlock(kept: seq<Entry>, st: Emitted, b: seq<Byte>, e: Entry, cies: map<nat, nat>, hdr: seq<HdrEntry>)
    requires Faithful(kept, st) && |b| == e.size >= 8 && U32(b, 0) == e.size - 4
    requires e.IsCie() ==> U32(b, 4) == 0 && cies == st.cies[e.pos := |st.bytes|]
    requires !e.IsCie() ==>
               && cies == st.cies && e.cieId <= e.pos + 4 && e.pos + 4 - e.cieId in st.cies
               && U32(b, 4) == |st.bytes| + 4 - st.cies[e.pos + 4 - e.cieId]
    ensures Faithful(kept + [e], Emitted(st.bytes + b, hdr, cies))
  {
    hide U32, Placed, OutPos;
    var n, more, bytes := |kept|, kept + [e], st.bytes + b;
    OutPosPrefix(kept, [e], n);
    OutPosLast(kept, e);
    forall i: nat | i < |more| ensures Placed(bytes, more, i) {
      if i < n {
        PlacedAppend(st.bytes, b, kept, e, i);
        assert kept[i] == more[i];
      } else {
        U32Append(st.bytes, b, 0);
        U32Append(st.bytes, b, 4);
        NewPlaced(kept, st, bytes, e);
      }
    }
    forall pos: nat | pos in cies ensures exists i: nat :: CieKnown(more, i, pos, cies[pos]) {
      if e.IsCie() && pos == e.pos {
        assert CieKnown(more, n, pos, cies[pos]);
      } else {
        var i: nat :| CieKnown(kept, i, pos, st.cies[pos]);
        OutPosPrefix(kept, [e], i);
        assert CieKnown(more, i, pos, cies[pos]);
      }
    }
  }

  lemma OutPosLast(kept: seq<Entry>, e: Entry)
    ensures OutPos(kept + [e], |kept| + 1) == OutPos(kept, |kept|) + e.size
  {
    OutPosPrefix(kept, [e], |kept|);
  }

  lemma NewPlaced(kept: seq<Entry>, st: Emitted, bytes: seq<Byte>, e: Entry)
    requires Faithful(kept, st) && |bytes| == |st.bytes| + e.size && e.size >= 8
    requires U32(bytes, |st.bytes|) == e.size - 4
    requires e.IsCie() ==> U32(bytes, |st.bytes| + 4) == 0
    requires !e.IsCie() ==>
               && e.cieId <= e.pos + 4 && e.pos + 4 - e.cieId in st.cies
               && U32(bytes, |st.bytes| + 4) == |st.bytes| + 4 - st.cies[e.pos + 4 - e.cieId]
    ensures Placed(bytes, kept + [e], |kept|)
  {
    hide U32;
    var n, more := |kept|, kept + [e];
    OutPosPrefix(kept, [e], n);
    if !e.IsCie() {
      var pos := e.pos + 4 - e.cieId;
      var j: nat :| CieKnown(kept, j, pos, st.cies[pos]);
      OutPosPrefix(kept, [e], j);
      assert PointsTo(bytes, more, n, j);
    }
  }

  // What the relocations leave of the length and id fields.
  lemma HeaderSurvives(env: Env, bytes: seq<Byte>, e: Entry, at: nat)
    requires |bytes| >= 8 && ApplyAll(env, bytes, e, at, |e.relocations|).Ok?
    requires forall i :: 0 <= i < |e.relocations| ==> e.relocations[i].offset >= e.pos + 8
    ensures var b := ApplyAll(env, bytes, e, at, |e.relocations|).value;
            U32(b, 0) == U32(bytes, 0) && U32(b, 4) == U32(bytes, 4)
  {
    hide U32;
    var b := ApplyAll(env, bytes, e, at, |e.relocations|).value;
    ApplyKeepsPrefix(env, bytes, e, at, |e.relocations|, 8);
    U32Slice(b, 0, 8, 0);
    U32Slice(b, 0, 8, 4);
    U32Slice(bytes, 0, 8, 0);
    U32Slice(bytes, 0, 8, 4);
  }

  lemma CieOffsetFields(bytes: seq<Byte>, distance: nat)
    requires |bytes| >= 8 && distance < 0x1_0000_0000
    ensures U32(WithCieOffset(bytes, distance), 0) == U32(bytes, 0)
    ensures U32(WithCieOffset(bytes, distance), 4) == distance
  {
    Le32RoundTrip(distance);
  }

  lemma EmitKeepsFaithful(env: Env, data: seq<Byte>, start: nat, room: nat, kept: seq<Entry>, st: Emitted, e: Entry)
    requires |env.addresses| == |env.obj.sections| && Bounded(e) && e.pos + e.size <= |data| && HasHeader(data, e)
    requires IsKept(env, e) ==> PlainHeader(e)
    requires Faithful(kept, st) && EmitEntry(env, data, start, room, st, e).Ok?
    ensures Faithful(if IsKept(env, e) then kept + [e] else kept, EmitEntry(env, data, start, room, st, e).value)
  {
    hide U32, Faithful, ApplyAll, WriterTarget;
    var bytes := data[e.pos..e.pos + e.size];
    var st' := EmitEntry(env, data, start, room, st, e).value;
    var at := start + |st.bytes|;
    if IsKept(env, e) {
      U32Slice(data, e.pos, e.pos + e.size, 0);
      U32Slice(data, e.pos, e.pos + e.size, 4);
    }
    if e.IsCie() {
      HeaderSurvives(env, bytes, e, at);
      var b := ApplyAll(env, bytes, e, at, |e.relocations|).value;
      AppendBlock(kept, st, b, e, st'.cies, st'.hdr);
    } else if Kept(env.obj, env.addresses, e) {
      var distance := CieOffset(st.cies, |st.bytes|, e).value;
      CieOffsetFields(bytes, distance);
      HeaderSurvives(env, WithCieOffset(bytes, distance), e, at);
      var b := ApplyAll(env, WithCieOffset(bytes, distance), e, at, |e.relocations|).value;
      AppendBlock(kept, st, b, e, st'.cies, st'.hdr);
    }
  }

  // Of entries that are dropped, nothing is asked.
  ghost predicate PlainHeaders(env: Env, data: seq<Byte>, entries: seq<Entry>)
    requires |env.addresses| == |env.obj.sections|
  {
    forall i :: 0 <= i < |entries| ==> HasHeader(data, entries[i]) && (IsKept(env, entries[i]) ==> PlainHeader(entries[i]))
  }

  // Whatever subset of the FDEs is dropped, what is emitted is faithful to what was kept.
  lemma {:induction false} OutputIsFaithful(env: Env, data: seq<Byte>, start: nat, room: nat, entries: seq<Entry>)
    requires |env.addresses| == |env.obj.sections|
    requires EntriesIn(data, entries) && PlainHeaders(env, data, entries)
    requires EmitAll(env, data, start, room, entries).Ok?
    ensures Faithful(KeptEntries(env, entries), EmitAll(env, data, start, room, entries).value)
  {
    hide EmitEntry, Faithful, IsKept, PlainHeader, HasHeader, Bounded;
    if entries == [] {
      NothingEmitted();
    } else {
      var front, last := entries[..|entries| - 1], entries[|entries| - 1];
      OutputIsFaithful(env, data, start, room, front);
      var st := EmitAll(env, data, start, room, front).value;
      EmitKeepsFaithful(env, data, start, room, KeptEntries(env, front), st, last);
    }
  }

  lemma NothingEmitted()
    ensures Faithful([], Emitted([], [], map[]))
  {}

  // ----- Reading the output back ---------------------------------------------------------------

  // The entries as a reader of the output sees them.
  function Reread(bytes: seq<Byte>, kept: seq<Entry>, i: nat): (r: seq<Entry>)
    requires i <= |kept| && forall k: nat :: k < |kept| ==> OutPos(kept, k) + 8 <= |bytes|
    ensures |r| == |kept| - i
    decreases |kept| - i
  {
    if i == |kept| then []
    else
      var p := OutPos(kept, i);
      [Entry(p, kept[i].size, U32(bytes, p + 4), [])] + Reread(bytes, kept, i + 1)
  }

  // The reader that parsed the input parses the output, and sees each kept entry at its place.
  lemma {:induction false} OutputParses(kept: seq<Entry>, st: Emitted, i: nat)
    requires Faithful(kept, st) && i <= |kept|
    ensures forall k: nat :: k < |kept| ==> OutPos(kept, k) + 8 <= |st.bytes|
    ensures OutPos(kept, i) <= |st.bytes|
    ensures Parse(Input(st.bytes, []), OutPos(kept, i), 0) == Ok(Parsed(Reread(st.bytes, kept, i), |st.bytes|))
    decreases |kept| - i
  {
    hide U32;
    forall k: nat | k < |kept| ensures OutPos(kept, k) + 8 <= |st.bytes| {
      assert Placed(st.bytes, kept, k);
    }
    OutPosMonotone(kept, i, |kept|);
    if i < |kept| {
      assert Placed(st.bytes, kept, i);
      OutputParses(kept, st, i + 1);
    }
  }

  // ----- What the header table says ------------------------------------------------------------

  // A kept FDE and its address in the output.
  datatype FdePlace = FdePlace(fde: Entry, at: int)

  function FdePlaces(start: nat, kept: seq<Entry>): seq<FdePlace> {
    if kept == [] then []
    else
      var n := |kept| - 1;
      FdePlaces(start, kept[..n]) + if kept[n].IsCie() then [] else [FdePlace(kept[n], start + OutPos(kept, n))]
  }

  // The entry leads to the FDE and to its function: the relocation at pc-begin names symbol and addend.
  ghost predicate Describes(env: Env, h: HdrEntry, place: FdePlace) {
    && env.hdrAddress + h.frameInfoPtr == place.at
    && place.fde.relocations != []
    && var r := place.fde.relocations[0];
       && r.offset == place.fde.pos + 8 && r.symbol.Some? && r.symbol.value < |env.obj.symbols|
       && var symbol := env.obj.symbols[r.symbol.value];
          && symbol.section.Some? && symbol.section.value < |env.addresses| && env.addresses[symbol.section.value].Some?
          && env.hdrAddress + h.framePtr
             == env.addresses[symbol.section.value].value + env.relaxed(symbol.section.value, symbol.value + r.addend)
  }

  // One entry for each FDE in turn, as many as there are.
  ghost predicate TableDescribes(env: Env, table: seq<HdrEntry>, places: seq<FdePlace>) {
    |table| <= |places| && forall k :: 0 <= k < |table| ==> Describes(env, table[k], places[k])
  }

  lemma {:induction false} HdrsDescribe(env: Env, start: nat, kept: seq<Entry>)
    requires env.Valid() && AllKept(env, kept)
    ensures |FdeHdrs(env, start, kept)| == |FdePlaces(start, kept)|
    ensures TableDescribes(env, FdeHdrs(env, start, kept), FdePlaces(start, kept))
  {
    hide OutPos, Describes;
    if kept != [] {
      var n := |kept| - 1;
      assert IsKept(env, kept[n]);
      HdrsDescribe(env, start, kept[..n]);
      if !kept[n].IsCie() { OneDescribes(env, kept[n], start + OutPos(kept, n)); }
    }
  }

  lemma OneDescribes(env: Env, e: Entry, at: int)
    requires env.Valid() && Kept(env.obj, env.addresses, e)
    ensures Describes(env, HdrEntry(FunctionAddress(env, e) - env.hdrAddress, at - env.hdrAddress), FdePlace(e, at))
  {}

  // ----- A whole section -----------------------------------------------------------------------

  ghost predicate InOrder(relocations: seq<Relocation>) {
    forall i, j :: 0 <= i < j < |relocations| ==> relocations[i].offset <= relocations[j].offset
  }

  // Relocations are in order, and every CIE has an id field that no relocation touches.
  ghost predicate Regular(input: Input) {
    var entries := EntriesOf(input);
    InOrder(input.relocations) && forall i :: 0 <= i < |entries| && entries[i].IsCie() ==> PlainHeader(entries[i])
  }

  lemma {:induction false} ParsedHeaders(input: Input, pos: nat, from: nat)
    requires pos <= |input.data| && from <= |input.relocations| && Parse(input, pos, from).Ok?
    ensures var entries := Parse(input, pos, from).value.entries;
            forall i :: 0 <= i < |entries| ==>
              HasHeader(input.data, entries[i]) && (InOrder(input.relocations) ==> InOrder(entries[i].relocations))
    decreases |input.data| - pos
  {
    hide U32;
    if pos + PREFIX_LEN <= |input.data| && U32(input.data, pos) != 0 {
      var e := EntryAt(input, pos, from);
      ParsedHeaders(input, pos + e.size, Skip(input.relocations, from, pos + e.size));
    }
  }

  // The first relocation of a kept FDE is at pc-begin, so all are behind its header.
  lemma KeptIsPlain(env: Env, e: Entry)
    requires env.Valid() && Bounded(e) && InOrder(e.relocations) && Kept(env.obj, env.addresses, e)
    ensures PlainHeader(e)
  {
    assert e.relocations[0].offset == e.pos + 8 < e.pos + e.size;
  }

  lemma RegularIsPlain(env: Env, input: Input)
    requires env.Valid() && Parse(input, 0, 0).Ok? && Regular(input)
    ensures EntriesIn(input.data, EntriesOf(input)) && PlainHeaders(env, input.data, EntriesOf(input))
  {
    hide Parse, Kept, PlainHeader, HasHeader, Bounded;
    ParsedEntriesIn(input, 0, 0);
    ParsedHeaders(input, 0, 0);
    var entries := EntriesOf(input);
    forall i | 0 <= i < |entries| && IsKept(env, entries[i]) ensures PlainHeader(entries[i]) {
      if !entries[i].IsCie() { KeptIsPlain(env, entries[i]); }
    }
  }

  // A reader of the bytes finds the kept entries one after the other, and in each FDE the way to the copy
  // of the CIE that it named.
  ghost predicate ReadsBack(env: Env, input: Input, bytes: seq<Byte>)
    requires |env.addresses| == |env.obj.sections|
  {
    var kept := KeptEntries(env, EntriesOf(input));
    && |bytes| == OutPos(kept, |kept|) && (forall i: nat :: i < |kept| ==> Placed(bytes, kept, i))
    && (forall i: nat :: i < |kept| ==> OutPos(kept, i) + 8 <= |bytes|)
    && Parse(Input(bytes, []), 0, 0) == Ok(Parsed(Reread(bytes, kept, 0), |bytes|))
  }

  // The header entries of a section, as many as there is room for.
  lemma SectionTable(env: Env, input: Input, start: nat, room: nat)
    requires env.Valid() && EntriesIn(input.data, EntriesOf(input))
    requires EmitAll(env, input.data, start, room, EntriesOf(input)).Ok?
    ensures var table, places := EmitAll(env, input.data, start, room, EntriesOf(input)).value.hdr,
                                 FdePlaces(start, KeptEntries(env, EntriesOf(input)));
            TableDescribes(env, table, places) && |table| == Min(room, |places|)
  {
    hide EmitAll, FdeHdrs, FdePlaces, Describes;
    EmittedSizes(env, input.data, start, room, EntriesOf(input));
    HdrsDescribe(env, start, KeptEntries(env, EntriesOf(input)));
  }

  lemma SectionReadsBack(env: Env, input: Input, start: nat, room: nat)
    requires env.Valid() && Parse(input, 0, 0).Ok? && Regular(input) && EntriesIn(input.data, EntriesOf(input))
    requires EmitAll(env, input.data, start, room, EntriesOf(input)).Ok?
    ensures ReadsBack(env, input, EmitAll(env, input.data, start, room, EntriesOf(input)).value.bytes)
  {
    hide Parse, EmitAll, Placed, IsKept, Reread, PlainHeaders;
    var kept := KeptEntries(env, EntriesOf(input));
    RegularIsPlain(env, input);
    OutputIsFaithful(env, input.data, start, room, EntriesOf(input));
    OutputParses(kept, EmitAll(env, input.data, start, room, EntriesOf(input)).value, 0);
  }

  // ----- What an entry holds -------------------------------------------------------------------

  ghost predicate Untouched(env: Env, e: Entry, at: nat, k: nat) {
    && (e.IsCie() || !(4 <= k < 8))
    && forall i :: 0 <= i < |e.relocations| ==> !Patches(env, e, at, e.relocations[i], k)
  }

  // Of a kept entry, every relocation is applied at its own place. All else is as in the input but for the id
  // of an FDE.
  lemma EntryIsCopied(env: Env, data: seq<Byte>, start: nat, room: nat, st: Emitted, e: Entry)
    requires |env.addresses| == |env.obj.sections| && Bounded(e) && e.pos + e.size <= |data| && IsKept(env, e)
    requires EmitEntry(env, data, start, room, st, e).Ok? && PatchesApart(env, e, start + |st.bytes|)
    ensures var at, out := start + |st.bytes|, EmitEntry(env, data, start, room, st, e).value.bytes;
            && |out| == |st.bytes| + e.size && out[..|st.bytes|] == st.bytes
            && (forall i :: 0 <= i < |e.relocations| ==> InPlace(env, e, at, out[|st.bytes|..], e.relocations[i]))
            && forall k: nat :: k < e.size && Untouched(env, e, at, k) ==> out[|st.bytes|..][k] == data[e.pos..e.pos + e.size][k]
  {
    hide ApplyAll, WriterTarget, Patches, InPlace, PatchesApart, U32, Le32;
    var at, bytes := start + |st.bytes|, data[e.pos..e.pos + e.size];
    var from := if e.IsCie() then bytes else WithCieOffset(bytes, CieOffset(st.cies, |st.bytes|, e).value);
    var b := ApplyAll(env, from, e, at, |e.relocations|).value;
    var out := EmitEntry(env, data, start, room, st, e).value.bytes;
    assert out == st.bytes + b;
    PatchesInPlace(env, from, e, at, |e.relocations|);
    assert out[|st.bytes|..] == b;
    forall k: nat | k < e.size && Untouched(env, e, at, k) ensures b[k] == bytes[k] {
      assert from[k] == bytes[k];
    }
  }

  // ----- Sizes and header entries --------------------------------------------------------------

  lemma KeptBytes(env: Env, e: Entry)
    requires |env.addresses| == |env.obj.sections|
    ensures KeptSpace(env.obj, env.addresses, e).bytes == if IsKept(env, e) then e.size else 0
  {
    hide Kept;
  }

  lemma {:induction false} OutputSize(env: Env, entries: seq<Entry>)
    requires |env.addresses| == |env.obj.sections|
    ensures var kept := KeptEntries(env, entries);
            OutPos(kept, |kept|) == AllKeptSpace(env.obj, env.addresses, entries).bytes
  {
    if entries != [] {
      var front, last := entries[..|entries| - 1], entries[|entries| - 1];
      OutputSize(env, front);
      OutPosLast(KeptEntries(env, front), last);
      KeptBytes(env, last);
      hide OutPos, Kept, KeptSpace, IsKept;
    }
  }

  // One header entry per kept FDE, in order, pointing at the function and at the FDE's own place.
  ghost function FdeHdrs(env: Env, start: nat, kept: seq<Entry>): seq<HdrEntry>
    requires |env.addresses| == |env.obj.sections|
    requires AllKept(env, kept)
  {
    if kept == [] then []
    else
      var n := |kept| - 1;
      assert IsKept(env, kept[n]);
      FdeHdrs(env, start, kept[..n])
      + if kept[n].IsCie() then []
        else [HdrEntry(FunctionAddress(env, kept[n]) - env.hdrAddress, start + OutPos(kept, n) - env.hdrAddress)]
  }

  // Where the function of an FDE is in the output: its section, and in it the symbol of the relocation at
  // pc-begin and the addend, as far as relaxation has moved them.
  ghost function FunctionAddress(env: Env, fde: Entry): int
    requires |env.addresses| == |env.obj.sections| && Kept(env.obj, env.addresses, fde)
  {
    var relocation := fde.relocations[0];
    var symbol := env.obj.symbols[relocation.symbol.value];
    env.addresses[symbol.section.value].value + env.relaxed(symbol.section.value, symbol.value + relocation.addend)
  }

  // An entry that there is room for is refused exactly when one of its words does not fit in 32 bits.
  lemma HdrOverflowsExactly(env: Env, hdr: seq<HdrEntry>, room: nat, e: Entry, at: nat)
    requires env.Valid() && Kept(env.obj, env.addresses, e)
    ensures var framePtr, frameInfoPtr := FunctionAddress(env, e) - env.hdrAddress, at - env.hdrAddress;
            AddHdr(env, hdr, room, e, at)
            == if |hdr| >= room then Ok(hdr)
               else if -0x8000_0000 <= framePtr <= 0x7fff_ffff && -0x8000_0000 <= frameInfoPtr <= 0x7fff_ffff then
                 Ok(hdr + [HdrEntry(framePtr, frameInfoPtr)])
               else Err("32 bit overflow")
  {}

  lemma FdeHdrsAppend(env: Env, start: nat, kept: seq<Entry>, e: Entry)
    requires |env.addresses| == |env.obj.sections| && AllKept(env, kept) && IsKept(env, e)
    ensures AllKept(env, kept + [e])
    ensures FdeHdrs(env, start, kept + [e])
            == FdeHdrs(env, start, kept)
               + if e.IsCie() then []
                 else [HdrEntry(FunctionAddress(env, e) - env.hdrAddress, start + OutPos(kept, |kept|) - env.hdrAddress)]
  {
    hide IsKept;
    assert (kept + [e])[..|kept|] == kept;
    OutPosPrefix(kept, [e], |kept|);
  }

  function Min(a: nat, b: nat): nat {
    if a < b then a else b
  }

  // No PlainHeader is needed for this: lengths and header entries do not depend on relocations.
  lemma {:induction false} EmittedSizes(env: Env, data: seq<Byte>, start: nat, room: nat, entries: seq<Entry>)
    requires |env.addresses| == |env.obj.sections| && EntriesIn(data, entries)
    requires EmitAll(env, data, start, room, entries).Ok?
    ensures var st, kept := EmitAll(env, data, start, room, entries).value, KeptEntries(env, entries);
            && |st.bytes| == OutPos(kept, |kept|)
            && st.hdr == FdeHdrs(env, start, kept)[..Min(room, |FdeHdrs(env, start, kept)|)]
  {
    hide EmitEntry, IsKept, Bounded, FdeHdrs, AllKept;
    if entries == [] {
      NoHdrs(env, start, room);
    } else {
      var front, last := entries[..|entries| - 1], entries[|entries| - 1];
      EmittedSizes(env, data, start, room, front);
      EmitSizesStep(env, data, start, room, EmitAll(env, data, start, room, front).value, KeptEntries(env, front), last);
    }
  }

  lemma NoHdrs(env: Env, start: nat, room: nat)
    requires |env.addresses| == |env.obj.sections|
    ensures AllKept(env, []) && FdeHdrs(env, start, []) == []
  {}

  lemma EmitSizesStep(env: Env, data: seq<Byte>, start: nat, room: nat, st: Emitted, kept: seq<Entry>, e: Entry)
    requires |env.addresses| == |env.obj.sections| && Bounded(e) && e.pos + e.size <= |data|
    requires AllKept(env, kept) && |st.bytes| == OutPos(kept, |kept|)
    requires st.hdr == FdeHdrs(env, start, kept)[..Min(room, |FdeHdrs(env, start, kept)|)]
    requires EmitEntry(env, data, start, room, st, e).Ok?
    ensures var st', kept' := EmitEntry(env, data, start, room, st, e).value, if IsKept(env, e) then kept + [e] else kept;
            && AllKept(env, kept') && |st'.bytes| == OutPos(kept', |kept'|)
            && st'.hdr == FdeHdrs(env, start, kept')[..Min(room, |FdeHdrs(env, start, kept')|)]
  {
    hide FdeHdrs, ApplyAll, OutPos, CieOffset, FitsI32;
    if IsKept(env, e) {
      OutPosLast(kept, e);
      FdeHdrsAppend(env, start, kept, e);
      if !e.IsCie() { FramePtrLeads(env, e); }
    }
    hide WriterTarget, FramePtr, FunctionAddress;
  }

  lemma FramePtrLeads(env: Env, e: Entry)
    requires |env.addresses| == |env.obj.sections| && Kept(env.obj, env.addresses, e)
    ensures FramePtr(env, e) == FunctionAddress(env, e) - env.hdrAddress
  {}

  lemma {:induction false} HdrCount(env: Env, start: nat, entries: seq<Entry>)
    requires |env.addresses| == |env.obj.sections|
    ensures |FdeHdrs(env, start, KeptEntries(env, entries))|
            == AllKeptSpace(env.obj, env.addresses, entries).hdrEntries
  {
    hide FdeHdrs;
    if entries == [] {
      NoHdrs(env, start, 0);
    } else {
      var front, last := entries[..|entries| - 1], entries[|entries| - 1];
      HdrCount(env, start, front);
      if IsKept(env, last) { FdeHdrsAppend(env, start, KeptEntries(env, front), last); }
    }
  }
}
