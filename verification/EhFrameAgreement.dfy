// Layout and the writer over all .eh_frame sections of an object: what was reserved is what is used.
module EhFrameAgreement {
  import opened Words
  import opened EhFrame
  import opened EhFrameEmit
  import opened EhFrameOutput
  import opened EhFrameLayout
  import opened EhFrameWriter

  lemma {:induction false} KeptSpaceConcat(obj: Object, addresses: Addresses, a: seq<Entry>, b: seq<Entry>)
    requires |addresses| == |obj.sections|
    ensures AllKeptSpace(obj, addresses, a + b)
            == Plus(AllKeptSpace(obj, addresses, a), AllKeptSpace(obj, addresses, b))
  {
    hide KeptSpace;
    if b == [] {
      assert a + b == a;
    } else {
      var front, last := b[..|b| - 1], b[|b| - 1];
      KeptSpaceConcat(obj, addresses, a, front);
      assert (a + b)[..|a + b| - 1] == a + front;
    }
  }

  // One section uses its kept entries and its trailing bytes, and one header entry per kept FDE as
  // far as there is room.
  lemma SectionUses(env: Env, input: Input, start: nat, room: nat)
    requires env.Valid() && EntriesIn(input.data, EntriesOf(input))
    requires EmitAll(env, input.data, start, room, EntriesOf(input)).Ok?
    ensures var st := EmitAll(env, input.data, start, room, EntriesOf(input)).value;
            var space := AllKeptSpace(env.obj, env.addresses, EntriesOf(input));
            |st.bytes| == space.bytes && |st.hdr| == Min(room, space.hdrEntries)
  {
    hide EmitAll, FdeHdrs;
    EmittedSizes(env, input.data, start, room, EntriesOf(input));
    OutputSize(env, EntriesOf(input));
    HdrCount(env, start, EntriesOf(input));
  }

  ghost function Needed(env: Env, inputs: seq<Input>): Space
    requires env.Valid()
  {
    Plus(AllKeptSpace(env.obj, env.addresses, AllEntries(inputs)), Space(AllTrailing(inputs), 0))
  }

  lemma NeededAppend(env: Env, inputs: seq<Input>, n: nat)
    requires env.Valid() && n < |inputs|
    ensures var kept := AllKeptSpace(env.obj, env.addresses, EntriesOf(inputs[n]));
            Needed(env, inputs[..n + 1])
            == Plus(Needed(env, inputs[..n]), Space(kept.bytes + |TrailingOf(inputs[n])|, kept.hdrEntries))
  {
    hide EntriesOf, TrailingOf, AllKeptSpace;
    assert inputs[..n + 1][..n] == inputs[..n];
    KeptSpaceConcat(env.obj, env.addresses, AllEntries(inputs[..n]), EntriesOf(inputs[n]));
  }

  lemma {:induction false} NeededGrows(env: Env, inputs: seq<Input>, n: nat)
    requires env.Valid() && n <= |inputs|
    ensures Needed(env, inputs[..n]).bytes <= Needed(env, inputs).bytes
    decreases |inputs| - n
  {
    hide Needed, EntriesOf, TrailingOf, AllKeptSpace;
    if n == |inputs| {
      assert inputs[..n] == inputs;
    } else {
      NeededAppend(env, inputs, n);
      NeededGrows(env, inputs, n + 1);
    }
  }

  // ----- What an object emits ------------------------------------------------------------------

  // What the writer adds to .eh_frame and to the table in .eh_frame_hdr.
  datatype Output = Output(bytes: seq<Byte>, hdr: seq<HdrEntry>)

  ghost function EmitSection(env: Env, input: Input, start: nat, room: nat): (r: Result<Output>)
    requires env.Valid()
    ensures r.Ok? ==> |r.value.hdr| <= room
  {
    if !EntriesIn(input.data, EntriesOf(input)) then Err("invalid .eh_frame data")
    else
      match EmitAll(env, input.data, start, room, EntriesOf(input))
      case Err(m) => Err(m)
      case Ok(st) =>
        SectionUses(env, input, start, room);
        Ok(Output(st.bytes + TrailingOf(input), st.hdr))
  }

  // Section after section, each behind what those before it have emitted.
  ghost function EmitObject(env: Env, inputs: seq<Input>, start: nat, room: nat): (r: Result<Output>)
    requires env.Valid()
    ensures r.Ok? ==> |r.value.hdr| <= room
  {
    if inputs == [] then Ok(Output([], []))
    else
      match EmitObject(env, inputs[..|inputs| - 1], start, room)
      case Err(m) => Err(m)
      case Ok(o) =>
        match EmitSection(env, inputs[|inputs| - 1], start + |o.bytes|, room - |o.hdr|)
        case Err(m) => Err(m)
        case Ok(p) => Ok(Output(o.bytes + p.bytes, o.hdr + p.hdr))
  }

  // Section i can be emitted at the very place, and with the room for header entries, that the sections
  // before it leave.
  ghost predicate Emits(env: Env, inputs: seq<Input>, start: nat, room: nat, i: nat)
    requires env.Valid() && i < |inputs|
  {
    var before := Needed(env, inputs[..i]);
    EmitSection(env, inputs[i], start + before.bytes, room - Min(room, before.hdrEntries)).Ok?
  }

  ghost predicate AllEmit(env: Env, inputs: seq<Input>, start: nat, room: nat)
    requires env.Valid()
  {
    forall i :: 0 <= i < |inputs| ==> Emits(env, inputs, start, room, i)
  }

  lemma SectionSize(env: Env, input: Input, start: nat, room: nat)
    requires env.Valid() && EmitSection(env, input, start, room).Ok?
    ensures var o, space := EmitSection(env, input, start, room).value, AllKeptSpace(env.obj, env.addresses, EntriesOf(input));
            |o.bytes| == space.bytes + |TrailingOf(input)| && |o.hdr| == Min(room, space.hdrEntries)
  {
    hide EmitAll, EntriesOf, TrailingOf, AllKeptSpace, Min;
    SectionUses(env, input, start, room);
  }

  // An object can be emitted exactly when each of its sections can be at its place, and takes what it
  // needs.
  lemma {:induction false} ObjectExactly(env: Env, inputs: seq<Input>, start: nat, room: nat)
    requires env.Valid()
    ensures EmitObject(env, inputs, start, room).Ok? <==> AllEmit(env, inputs, start, room)
    ensures var r, needed := EmitObject(env, inputs, start, room), Needed(env, inputs);
            r.Ok? ==> |r.value.bytes| == needed.bytes && |r.value.hdr| == Min(room, needed.hdrEntries)
  {
    hide EmitSection, EntriesOf, TrailingOf, AllKeptSpace, Needed, AllEmit;
    if inputs == [] {
      NothingNeeded(env);
      NothingEmitted(env, start, room);
    } else {
      var n := |inputs| - 1;
      ObjectExactly(env, inputs[..n], start, room);
      AllEmitStep(env, inputs, start, room, n);
      assert inputs[..n + 1] == inputs;
      NeededAppend(env, inputs, n);
      var o := EmitObject(env, inputs[..n], start, room);
      if o.Ok? && Emits(env, inputs, start, room, n) {
        SectionSize(env, inputs[n], start + |o.value.bytes|, room - |o.value.hdr|);
      }
    }
  }

  // The kept FDEs of all sections and their addresses in the output.
  ghost function ObjectPlaces(env: Env, inputs: seq<Input>, start: nat): seq<FdePlace>
    requires env.Valid()
  {
    if inputs == [] then []
    else
      var n := |inputs| - 1;
      ObjectPlaces(env, inputs[..n], start)
      + FdePlaces(start + Needed(env, inputs[..n]).bytes, KeptEntries(env, EntriesOf(inputs[n])))
  }

  // The table of an object leads, for its FDEs in turn, to the FDE and to its function. It has an entry for
  // each as far as there is room.
  lemma {:induction false} ObjectTable(env: Env, inputs: seq<Input>, start: nat, room: nat)
    requires env.Valid() && EmitObject(env, inputs, start, room).Ok?
    ensures var table, places := EmitObject(env, inputs, start, room).value.hdr, ObjectPlaces(env, inputs, start);
            TableDescribes(env, table, places) && |table| == Min(room, |places|)
  {
    hide EmitAll, EntriesOf, TrailingOf, AllKeptSpace, Needed, FdePlaces, KeptEntries, Describes, EntriesIn;
    if inputs != [] {
      var n := |inputs| - 1;
      ObjectTable(env, inputs[..n], start, room);
      ObjectExactly(env, inputs[..n], start, room);
      var o := EmitObject(env, inputs[..n], start, room).value;
      SectionTable(env, inputs[n], start + |o.bytes|, room - |o.hdr|);
    }
  }

  lemma NothingEmitted(env: Env, start: nat, room: nat)
    requires env.Valid()
    ensures EmitObject(env, [], start, room) == Ok(Output([], [])) && AllEmit(env, [], start, room)
  {}

  lemma AllEmitStep(env: Env, inputs: seq<Input>, start: nat, room: nat, n: nat)
    requires env.Valid() && n < |inputs|
    ensures AllEmit(env, inputs[..n + 1], start, room)
       <==> AllEmit(env, inputs[..n], start, room) && Emits(env, inputs, start, room, n)
    ensures AllEmit(env, inputs, start, room) ==> AllEmit(env, inputs[..n + 1], start, room)
  {
    hide EmitSection, Needed, Emits;
    var front, more := inputs[..n], inputs[..n + 1];
    forall i: nat | i <= n
      ensures Emits(env, more, start, room, i) == Emits(env, inputs, start, room, i)
      ensures i < n ==> Emits(env, front, start, room, i) == Emits(env, inputs, start, room, i)
    {
      SameSection(env, inputs, start, room, i, n + 1);
      if i < n { SameSection(env, inputs, start, room, i, n); }
    }
    if AllEmit(env, more, start, room) {
      assert Emits(env, more, start, room, n);
      forall i | 0 <= i < n ensures Emits(env, front, start, room, i) { assert Emits(env, more, start, room, i); }
    }
    if AllEmit(env, front, start, room) && Emits(env, inputs, start, room, n) {
      forall i | 0 <= i <= n ensures Emits(env, more, start, room, i) {
        if i < n { assert Emits(env, front, start, room, i); }
      }
    }
  }

  // Which sections follow makes no difference.
  lemma SameSection(env: Env, inputs: seq<Input>, start: nat, room: nat, i: nat, m: nat)
    requires env.Valid() && i < m <= |inputs|
    ensures Emits(env, inputs[..m], start, room, i) == Emits(env, inputs, start, room, i)
  {
    hide EmitSection, Needed;
    assert inputs[..m][..i] == inputs[..i];
  }

  // Where the writer stands before section i, and what the section makes of it.
  lemma ObjectStep(env: Env, inputs: seq<Input>, start: nat, room: nat, i: nat)
    requires env.Valid() && i < |inputs| && EmitObject(env, inputs[..i], start, room).Ok?
    ensures var o := EmitObject(env, inputs[..i], start, room).value;
            var p := EmitSection(env, inputs[i], start + |o.bytes|, room - |o.hdr|);
            && (p.Ok? ==> EmitObject(env, inputs[..i + 1], start, room) == Ok(Output(o.bytes + p.value.bytes, o.hdr + p.value.hdr))
                          && |o.bytes| + |p.value.bytes| <= Needed(env, inputs).bytes)
            && (p.Err? ==> !AllEmit(env, inputs, start, room))
  {
    hide EmitSection, EntriesOf, TrailingOf, AllKeptSpace, Needed, AllEmit, Min;
    assert inputs[..i + 1][..i] == inputs[..i] && inputs[..i + 1][i] == inputs[i];
    ObjectExactly(env, inputs[..i], start, room);
    ObjectExactly(env, inputs[..i + 1], start, room);
    AllEmitStep(env, inputs, start, room, i);
    NeededGrows(env, inputs, i + 1);
  }

  // A section that parses is written exactly when it can be emitted and fits.
  lemma SectionWrites(env: Env, input: Input, start: nat, room: nat, space: nat)
    requires env.Valid() && Parse(input, 0, 0).Ok? && EntriesIn(input.data, EntriesOf(input))
    ensures var p := EmitSection(env, input, start, room);
            && (WriteOk(env, input, start, room, space) <==> p.Ok? && |p.value.bytes| <= space)
            && (p.Ok? ==> var st := EmitAll(env, input.data, start, room, EntriesOf(input)).value;
                          p.value == Output(st.bytes + TrailingOf(input), st.hdr))
  {
    hide EmitAll, EntriesOf, TrailingOf, Parse;
  }

  // ----- Writing an object ---------------------------------------------------------------------

  // Sections that layout accepted, with the space that was reserved for them. The writer never runs out:
  // it fails exactly when some section cannot be emitted at its place.
  method WriteObject(writer: FrameWriter, env: Env, inputs: seq<Input>) returns (r: Result<()>)
    requires env.Valid() && writer.Valid()
    requires AllInputsOk(env.obj, inputs) && writer.used + Needed(env, inputs).bytes <= writer.out.Length
    modifies writer`used, writer`hdrUsed, writer`startAddress, writer.out, writer.hdr
    ensures r.Ok? <==> AllEmit(env, inputs, old(writer.startAddress), writer.hdr.Length - old(writer.hdrUsed))
    ensures r.Ok? ==>
              var o := EmitObject(env, inputs, old(writer.startAddress), writer.hdr.Length - old(writer.hdrUsed));
              && writer.Valid() && o.Ok?
              && writer.out[..writer.used] == old(writer.out[..writer.used]) + o.value.bytes
              && writer.hdr[..writer.hdrUsed] == old(writer.hdr[..writer.hdrUsed]) + o.value.hdr
              && writer.startAddress == old(writer.startAddress) + |o.value.bytes|
    ensures r.Ok? ==>
              && writer.used == old(writer.used) + Needed(env, inputs).bytes
              && writer.hdrUsed == old(writer.hdrUsed)
                                   + Min(writer.hdr.Length - old(writer.hdrUsed), Needed(env, inputs).hdrEntries)
  {
    hide EmitAll, EntriesOf, TrailingOf, AllKeptSpace, Needed, EmitObject, EmitSection, AllEmit, Emits, Min, WriteOk;
    hide InputOk, Parse, EntriesIn, Regular, ReadsBack, TableDescribes, FdePlaces, KeptEntries;
    ghost var start, room := writer.startAddress, writer.hdr.Length - writer.hdrUsed;
    ghost var out0, hdr0 := writer.out[..writer.used], writer.hdr[..writer.hdrUsed];
    NothingEmitted(env, start, room);
    assert inputs[..0] == [];
    for i := 0 to |inputs|
      invariant writer.Valid() && EmitObject(env, inputs[..i], start, room).Ok?
      invariant writer.out[..writer.used] == out0 + EmitObject(env, inputs[..i], start, room).value.bytes
      invariant writer.hdr[..writer.hdrUsed] == hdr0 + EmitObject(env, inputs[..i], start, room).value.hdr
      invariant writer.startAddress == start + |EmitObject(env, inputs[..i], start, room).value.bytes|
    {
      ghost var o := EmitObject(env, inputs[..i], start, room).value;
      assert |writer.out[..writer.used]| == writer.used && |writer.hdr[..writer.hdrUsed]| == writer.hdrUsed;
      InputParses(env.obj, inputs[i]);
      ObjectStep(env, inputs, start, room, i);
      SectionWrites(env, inputs[i], writer.startAddress, writer.hdr.Length - writer.hdrUsed, writer.out.Length - writer.used);
      var w := writer.WriteEhFrame(env, inputs[i]);
      if w.Err? { return Err(w.message); }
      ghost var p := EmitSection(env, inputs[i], start + |o.bytes|, room - |o.hdr|).value;
      assert out0 + o.bytes + p.bytes == out0 + (o.bytes + p.bytes);
      assert hdr0 + o.hdr + p.hdr == hdr0 + (o.hdr + p.hdr);
    }
    assert inputs[..|inputs|] == inputs;
    ObjectExactly(env, inputs, start, room);
    ghost var o := EmitObject(env, inputs, start, room).value;
    assert |writer.out[..writer.used]| == writer.used && |writer.hdr[..writer.hdrUsed]| == writer.hdrUsed;
    r := Ok(());
  }

  lemma NothingNeeded(env: Env)
    requires env.Valid()
    ensures Needed(env, []) == Space(0, 0)
  {}

  lemma InputParses(obj: Object, input: Input)
    requires InputOk(obj, input)
    ensures Parse(input, 0, 0).Ok? && EntriesIn(input.data, EntriesOf(input))
  {
    hide Parse;
    ParsedEntriesIn(input, 0, 0);
  }

  ghost predicate AllCanonical(env: Env, inputs: seq<Input>)
    requires env.Valid()
  {
    forall i :: 0 <= i < |inputs| ==> Canonical(env.obj, env.addresses, EntriesOf(inputs[i]))
  }

  lemma {:induction false} CanonicalConcat(env: Env, inputs: seq<Input>)
    requires env.Valid() && AllCanonical(env, inputs)
    ensures Canonical(env.obj, env.addresses, AllEntries(inputs))
  {
    hide EntriesOf, CanonicalFde;
    if inputs != [] {
      var front, last := inputs[..|inputs| - 1], inputs[|inputs| - 1];
      CanonicalConcat(env, front);
      var a, b := AllEntries(front), EntriesOf(last);
      assert Canonical(env.obj, env.addresses, b);
      forall i | 0 <= i < |a + b| && !(a + b)[i].IsCie() ensures CanonicalFde(env.obj, env.addresses, (a + b)[i]) {
        if i < |a| { assert (a + b)[i] == a[i]; } else { assert (a + b)[i] == b[i - |a|]; }
      }
    }
  }

  // What layout reserves for an object is what the writer needs.
  lemma ReservedIsNeeded(env: Env, loaded: set<nat>, inputs: seq<Input>)
    requires env.Valid() && Resolves(env.obj, loaded, env.addresses) && AllCanonical(env, inputs)
    ensures var es := AllEntries(inputs);
            Plus(Plus(AllCountedSpace(env.obj, loaded, es), AllCieSpace(es)), Space(AllTrailing(inputs), 0))
            == Needed(env, inputs)
  {
    CanonicalConcat(env, inputs);
    CountedIsKeptOverall(env.obj, loaded, env.addresses, AllEntries(inputs));
  }

  // The two passes over an object. They succeed exactly when layout accepts the sections and the load
  // requests, and each section can be emitted at its place. The writer then fills exactly what was reserved in both tables.
  method LayoutThenWrite(env: Env, writeHdr: bool, inputs: seq<Input>, requests: seq<nat>, start: nat)
    returns (r: Result<()>, ehFrame: seq<Byte>, table: seq<HdrEntry>, unusedBytes: nat, unusedHdrs: nat)
    requires env.Valid() && AllCanonical(env, inputs)
    requires forall i :: 0 <= i < |requests| ==> requests[i] < |env.obj.sections|
    requires Resolves(env.obj, Requested(env.obj, requests), env.addresses)
    ensures var room := if writeHdr then Needed(env, inputs).hdrEntries else 0;
            && (r.Ok? <==> AllInputsOk(env.obj, inputs) && NoneDiscarded(env.obj, requests)
                           && AllEmit(env, inputs, start, room))
            && (r.Ok? ==> EmitObject(env, inputs, start, room) == Ok(Output(ehFrame, table)))
    ensures r.Ok? ==>
              var places := ObjectPlaces(env, inputs, start);
              TableDescribes(env, table, places) && |table| == if writeHdr then |places| else 0
    ensures r.Ok? ==> unusedBytes == 0 && unusedHdrs == 0
  {
    hide EmitAll, EntriesOf, TrailingOf, AllKeptSpace, Needed, AllCountedSpace, AllCieSpace, Canonical, Resolves, EmitObject, AllEmit,
         Min, ObjectPlaces, TableDescribes;
    ehFrame, table, unusedBytes, unusedHdrs := [], [], 0, 0;
    var reserved := LayoutObject(env.obj, writeHdr, inputs, requests);
    if reserved.Err? { return Err(reserved.message), [], [], 0, 0; }
    ReservedIsNeeded(env, Requested(env.obj, requests), inputs);
    CiesHaveNoHdr(AllEntries(inputs));
    var out := new Byte[reserved.value.bytes](_ => 0);
    var hdr := new HdrEntry[reserved.value.hdrEntries](_ => HdrEntry(0, 0));
    var writer := new FrameWriter(out, hdr, start);
    r := WriteObject(writer, env, inputs);
    if r.Ok? {
      AtMost(hdr.Length, Needed(env, inputs).hdrEntries);
      ehFrame, table := out[..writer.used], hdr[..writer.hdrUsed];
      ghost var o := EmitObject(env, inputs, start, hdr.Length).value;
      ObjectTable(env, inputs, start, hdr.Length);
      PlacesNeeded(env, inputs, start);
      assert ehFrame == [] + o.bytes == o.bytes && table == [] + o.hdr == o.hdr;
      unusedBytes, unusedHdrs := out.Length - writer.used, hdr.Length - writer.hdrUsed;
    }
  }

  lemma {:induction false} PlacesNeeded(env: Env, inputs: seq<Input>, start: nat)
    requires env.Valid()
    ensures |ObjectPlaces(env, inputs, start)| == Needed(env, inputs).hdrEntries
  {
    hide EntriesOf, TrailingOf, AllKeptSpace, Needed, FdePlaces, KeptEntries;
    if inputs == [] {
      NothingNeeded(env);
    } else {
      var n := |inputs| - 1;
      PlacesNeeded(env, inputs[..n], start);
      NeededAppend(env, inputs, n);
      assert inputs[..n + 1] == inputs;
      PlacesCount(env, start + Needed(env, inputs[..n]).bytes, EntriesOf(inputs[n]));
    }
  }

  lemma PlacesCount(env: Env, start: nat, entries: seq<Entry>)
    requires env.Valid()
    ensures |FdePlaces(start, KeptEntries(env, entries))| == AllKeptSpace(env.obj, env.addresses, entries).hdrEntries
  {
    hide FdePlaces, KeptEntries, FdeHdrs, AllKeptSpace;
    HdrsDescribe(env, start, KeptEntries(env, entries));
    HdrCount(env, start, entries);
  }

  lemma AtMost(a: nat, b: nat)
    requires a <= b
    ensures Min(a, b) == a
  {}

  lemma CiesHaveNoHdr(entries: seq<Entry>)
    ensures AllCieSpace(entries).hdrEntries == 0
  {
    CieSizesSum(entries);
  }
}
