// The writer of .eh_frame: cursors over the output slices that layout sized.
module EhFrameWriter {
  import opened Words
  import opened EhFrame
  import opened EhFrameEmit
  import opened EhFrameOutput

  // The writer can finish a section: it parses, every kept entry can be emitted, and all fits.
  ghost predicate WriteOk(env: Env, input: Input, start: nat, room: nat, space: nat)
    requires env.Valid()
  {
    && Parse(input, 0, 0).Ok?
    && EntriesIn(input.data, EntriesOf(input))
    && var st := EmitAll(env, input.data, start, room, EntriesOf(input));
       st.Ok? && |st.value.bytes| + |TrailingOf(input)| <= space
  }

  lemma {:induction false} EmitPrefix(env: Env, data: seq<Byte>, start: nat, room: nat, entries: seq<Entry>, n: nat)
    requires env.Valid() && EntriesIn(data, entries) && n <= |entries|
    ensures EntriesIn(data, entries[..n])
    ensures var all, some := EmitAll(env, data, start, room, entries), EmitAll(env, data, start, room, entries[..n]);
            all.Ok? ==> some.Ok? && |some.value.bytes| <= |all.value.bytes|
    decreases |entries|
  {
    hide ApplyAll, WriterTarget, AddHdr, CieOffset, Bounded;
    if n == |entries| {
      assert entries[..n] == entries;
    } else {
      assert entries[..|entries| - 1][..n] == entries[..n];
      EmitPrefix(env, data, start, room, entries[..|entries| - 1], n);
    }
  }

  // A prefix that cannot be emitted, or does not fit, settles the whole section.
  lemma FailsEarly(env: Env, input: Input, start: nat, room: nat, space: nat, done: seq<Entry>, pos: nat, from: nat)
    requires env.Valid() && Ahead(input, done, pos, from) && EntriesIn(input.data, done)
    requires var st := EmitAll(env, input.data, start, room, done);
             st.Err? || |st.value.bytes| > space
    ensures !WriteOk(env, input, start, room, space)
  {
    hide EmitAll;
    if WriteOk(env, input, start, room, space) {
      var entries := EntriesOf(input);
      assert entries[..|done|] == done;
      EmitPrefix(env, input.data, start, room, entries, |done|);
    }
  }

  class FrameWriter {
    const out: array<Byte>
    const hdr: array<HdrEntry>
    var used: nat
    var hdrUsed: nat
    var startAddress: nat

    ghost predicate Valid()
      reads this
    {
      used <= out.Length && hdrUsed <= hdr.Length
    }

    constructor (out: array<Byte>, hdr: array<HdrEntry>, startAddress: nat)
      ensures Valid() && used == hdrUsed == 0 && this.startAddress == startAddress
      ensures this.out == out && this.hdr == hdr
    {
      this.out, this.hdr, this.startAddress := out, hdr, startAddress;
      used, hdrUsed := 0, 0;
    }

    // Returns where the slice taken starts.
    method TakeEhFrameData(size: nat) returns (r: Result<nat>)
      requires Valid()
      modifies this`used
      ensures Valid()
      ensures r.Ok? <==> old(used) + size <= out.Length
      ensures if r.Ok? then r.value == old(used) && used == old(used) + size else used == old(used)
    {
      if size > out.Length - used { return Err("insufficient .eh_frame"); }
      r := Ok(used);
      used := used + size;
    }

    // No room is not an error: the table may not be wanted.
    method AddHdrEntry(env: Env, e: Entry, at: nat) returns (r: Result<()>)
      requires Valid() && env.Valid() && Kept(env.obj, env.addresses, e)
      modifies this`hdrUsed, hdr
      ensures Valid() && hdrUsed >= old(hdrUsed)
      ensures forall from: nat :: from <= old(hdrUsed) ==>
                var added := AddHdr(env, old(hdr[from..hdrUsed]), hdr.Length - from, e, at);
                && (r.Ok? <==> added.Ok?) && (r.Ok? ==> hdr[from..hdrUsed] == added.value)
      ensures hdr[..old(hdrUsed)] == old(hdr[..hdrUsed])
    {
      if hdrUsed == hdr.Length { return Ok(()); }
      var h := HdrEntry(FramePtr(env, e), at - env.hdrAddress);
      if !FitsI32(h.framePtr) || !FitsI32(h.frameInfoPtr) { return Err("32 bit overflow"); }
      hdr[hdrUsed] := h;
      hdrUsed := hdrUsed + 1;
      forall from: nat | from <= old(hdrUsed) ensures hdr[from..hdrUsed] == old(hdr[from..hdrUsed]) + [h] {}
      r := Ok(());
    }

    // Overwrites part of the entry that was copied to out[at0..at0 + size].
    method Patch(at0: nat, size: nat, off: nat, bytes: seq<Byte>)
      requires at0 + size <= out.Length && off + |bytes| <= size
      modifies out
      ensures out[..at0] == old(out[..at0])
      ensures var was := old(out[at0..at0 + size]);
              out[at0..at0 + size] == was[..off] + bytes + was[off + |bytes|..]
    {
      forall k | 0 <= k < |bytes| {
        out[at0 + off + k] := bytes[k];
      }
    }

    // Applies the relocations of the entry to its copy. Returns where the cursor stops.
    method ApplyRelocations(env: Env, input: Input, pos: nat, from: nat, at: nat, at0: nat) returns (r: Result<nat>)
      requires env.Valid() && pos + PREFIX_LEN <= |input.data| && from <= |input.relocations|
      requires at0 + EntryAt(input, pos, from).size <= out.Length
      modifies out
      ensures out[..at0] == old(out[..at0])
      ensures var e := EntryAt(input, pos, from);
              var b := ApplyAll(env, old(out[at0..at0 + e.size]), e, at, |e.relocations|);
              && (r.Ok? <==> b.Ok?)
              && (r.Ok? ==> out[at0..at0 + e.size] == b.value
                            && r.value == Skip(input.relocations, from, pos + e.size))
    {
      hide ApplyAll, Skip, U32;
      ghost var e := EntryAt(input, pos, from);
      var size := 4 + U32(input.data, pos);
      ghost var copied := out[at0..at0 + size];
      ApplyNone(env, copied, e, at);
      var next := from;
      while next < |input.relocations| && input.relocations[next].offset < pos + size
        invariant from <= next <= from + |e.relocations|
        invariant Skip(input.relocations, next, pos + size) == from + |e.relocations|
        invariant out[..at0] == old(out[..at0])
        invariant ApplyAll(env, copied, e, at, next - from) == Ok(out[at0..at0 + size])
      {
        SkipStep(input.relocations, next, pos + size);
        var rel := input.relocations[next];
        assert e.relocations[next - from] == rel;
        ApplyOneMore(env, copied, e, at, next - from + 1);
        var patch := env.patch(rel, at);
        if patch.None? || rel.offset < pos || rel.offset - pos + |patch.value| > size {
          ApplyErrorSticks(env, copied, e, at, next - from + 1, |e.relocations|);
          return Err("failed to apply eh_frame relocation");
        }
        Patch(at0, size, rel.offset - pos, patch.value);
        next := next + 1;
      }
      SkipStep(input.relocations, next, pos + size);
      r := Ok(next);
    }

    // Copies an entry, rewrites the id field of an FDE, and applies the entry's relocations.
    method CopyEntry(env: Env, input: Input, pos: nat, from: nat, distance: Option<nat>, at: nat)
      returns (r: Result<nat>)
      requires Valid() && env.Valid() && pos + PREFIX_LEN <= |input.data| && from <= |input.relocations|
      requires var e := EntryAt(input, pos, from);
               && pos + e.size <= |input.data|
               && (distance.Some? ==> e.size >= 8 && distance.value < 0x1_0000_0000)
      modifies this`used, out
      ensures Valid() && old(used) <= used && out[..old(used)] == old(out[..used])
      ensures var e := EntryAt(input, pos, from);
              var b := ApplyAll(env, Copied(input, e, distance), e, at, |e.relocations|);
              && (r.Ok? <==> old(used) + e.size <= out.Length && b.Ok?)
              && (r.Ok? ==> used == old(used) + e.size && out[old(used)..used] == b.value
                            && r.value == Skip(input.relocations, from, pos + e.size))
    {
      hide ApplyAll, Skip, U32, Le32;
      ghost var e := EntryAt(input, pos, from);
      var size := 4 + U32(input.data, pos);
      var taken := TakeEhFrameData(size);
      if taken.Err? { return Err(taken.message); }
      var at0 := taken.value;
      Patch(at0, size, 0, input.data[pos..pos + size]);
      if distance.Some? {
        Patch(at0, size, 4, Le32(distance.value));
      }
      assert out[at0..at0 + size] == Copied(input, e, distance);
      r := ApplyRelocations(env, input, pos, from, at, at0);
    }

    // The section of the function that the FDE is for, when the FDE is to be kept.
    method PcBeginTarget(env: Env, input: Input, pos: nat, from: nat) returns (r: Result<Option<nat>>)
      requires env.Valid() && pos + PREFIX_LEN <= |input.data| && from <= |input.relocations|
      ensures r == WriterTarget(env.obj, env.addresses, EntryAt(input, pos, from))
    {
      hide U32;
      ghost var e := EntryAt(input, pos, from);
      var limit := pos + 4 + U32(input.data, pos);
      SkipStep(input.relocations, from, limit);
      if from == |input.relocations| || input.relocations[from].offset >= limit { return Ok(None); }
      var rel := input.relocations[from];
      assert e.relocations[0] == rel;
      if rel.offset != pos + FDE_PC_BEGIN_OFFSET { return Ok(None); }
      if rel.symbol.None? { return Err("unexpected absolute relocation in .eh_frame pc-begin"); }
      if rel.symbol.value >= |env.obj.symbols| { return Err("invalid symbol index"); }
      var section := env.obj.symbols[rel.symbol.value].section;
      if section.None? { return Err(".eh_frame pc-begin refers to symbol that's not defined in file"); }
      if env.addresses[section.value].Some? && env.obj.sections[section.value].size != 0 {
        return Ok(section);
      }
      r := Ok(None);
    }

    // Since the section began at `used0` and `hdr0`, the writer has emitted what `st` says.
    ghost predicate Wrote(used0: nat, hdr0: nat, st: Emitted)
      reads this, out, hdr
    {
      && Valid() && used == used0 + |st.bytes| && out[used0..used] == st.bytes
      && hdr0 <= hdrUsed && hdr[hdr0..hdrUsed] == st.hdr
    }

    // Copies one kept entry behind what the section has emitted so far.
    method WriteKept(env: Env, input: Input, pos: nat, from: nat, distance: Option<nat>, outPos: nat,
                     ghost used0: nat, ghost so: seq<Byte>)
      returns (r: Result<nat>)
      requires Valid() && env.Valid() && pos + PREFIX_LEN <= |input.data| && from <= |input.relocations|
      requires used0 <= used && out[used0..used] == so && outPos == |so|
      requires var e := EntryAt(input, pos, from);
               && pos + e.size <= |input.data|
               && (distance.Some? ==> e.size >= 8 && distance.value < 0x1_0000_0000)
      modifies this`used, out
      ensures Valid() && used0 <= used && out[..used0] == old(out[..used0])
      ensures var e := EntryAt(input, pos, from);
              var b := ApplyAll(env, Copied(input, e, distance), e, startAddress + outPos, |e.relocations|);
              && (r.Ok? <==> old(used) + e.size <= out.Length && b.Ok?)
              && (r.Ok? ==> used == old(used) + e.size && out[used0..used] == so + b.value
                            && r.value == Skip(input.relocations, from, pos + e.size))
    {
      hide ApplyAll, Skip, U32;
      ghost var used1 := used;
      r := CopyEntry(env, input, pos, from, distance, startAddress + outPos);
      assert out[..used0] == out[..used1][..used0] == old(out[..used])[..used0] == old(out[..used0]);
      if r.Ok? {
        assert out[used0..used] == out[..used1][used0..] + out[used1..used];
      }
    }

    // An FDE that is to be kept: its header entry, then its bytes.
    method WriteFde(env: Env, input: Input, pos: nat, from: nat, outPos: nat, cies: map<nat, nat>,
                    ghost used0: nat, ghost hdr0: nat, ghost st: Emitted)
      returns (r: Result<nat>)
      requires env.Valid() && pos + PREFIX_LEN <= |input.data| && from <= |input.relocations|
      requires Wrote(used0, hdr0, st) && outPos == |st.bytes| && cies == st.cies
      requires var e := EntryAt(input, pos, from);
               pos + e.size <= |input.data| && e.size >= 8 && Kept(env.obj, env.addresses, e)
      modifies this`used, this`hdrUsed, out, hdr
      ensures out[..used0] == old(out[..used0]) && hdr[..hdr0] == old(hdr[..hdr0])
      ensures var e := EntryAt(input, pos, from);
              var after := EmitFde(env, input.data, startAddress, hdr.Length - hdr0, st, e);
              && (r.Ok? <==> after.Ok? && used0 + |after.value.bytes| <= out.Length)
              && (r.Ok? ==> Wrote(used0, hdr0, after.value) && r.value == Skip(input.relocations, from, pos + e.size))
    {
      hide ApplyAll, Skip, U32, AddHdr, Kept;
      var e := EntryAt(input, pos, from);
      ghost var hdr1 := hdrUsed;
      var added := AddHdrEntry(env, e, startAddress + outPos);
      assert hdr[..hdr0] == hdr[..hdr1][..hdr0] == old(hdr[..hdrUsed])[..hdr0] == old(hdr[..hdr0]);
      if added.Err? { return Err(added.message); }
      var distance := CieOffset(cies, outPos, e);
      if distance.Err? { return Err(distance.message); }
      r := WriteKept(env, input, pos, from, Some(distance.value), outPos, used0, st.bytes);
    }

    // One entry that lies within the section.
    method WriteEntry(env: Env, input: Input, pos: nat, from: nat, outPos: nat, cies: map<nat, nat>,
                      ghost used0: nat, ghost hdr0: nat, ghost st: Emitted)
      returns (r: Result<nat>, outPos': nat, cies': map<nat, nat>)
      requires env.Valid() && pos + PREFIX_LEN <= |input.data| && from <= |input.relocations|
      requires Wrote(used0, hdr0, st) && outPos == |st.bytes| && cies == st.cies
      requires var e := EntryAt(input, pos, from); Bounded(e) && pos + e.size <= |input.data|
      modifies this`used, this`hdrUsed, out, hdr
      ensures out[..used0] == old(out[..used0]) && hdr[..hdr0] == old(hdr[..hdr0])
      ensures var e := EntryAt(input, pos, from);
              var after := EmitEntry(env, input.data, startAddress, hdr.Length - hdr0, st, e);
              && (r.Ok? <==> after.Ok? && used0 + |after.value.bytes| <= out.Length)
              && (r.Ok? ==> Wrote(used0, hdr0, after.value) && r.value == Skip(input.relocations, from, pos + e.size)
                            && outPos' == |after.value.bytes| && cies' == after.value.cies)
    {
      hide ApplyAll, Skip, U32, AddHdr, WriterTarget, CieOffset;
      var size := 4 + U32(input.data, pos);
      outPos', cies' := outPos, cies;
      if U32(input.data, pos + 4) == 0 {
        r := WriteKept(env, input, pos, from, None, outPos, used0, st.bytes);
        cies' := cies[pos := outPos];
        outPos' := outPos + size;
      } else {
        var target := PcBeginTarget(env, input, pos, from);
        if target.Err? { return Err(target.message), outPos', cies'; }
        if target.value.Some? {
          KeptIsLarge(env, EntryAt(input, pos, from));
          r := WriteFde(env, input, pos, from, outPos, cies, used0, hdr0, st);
          outPos' := outPos + size;
        } else {
          var next := SkipRelocations(input, from, pos + size);
          r := Ok(next);
        }
      }
    }

    // One .eh_frame input section. Succeeds exactly when the section can be emitted and fits.
    method WriteEhFrame(env: Env, input: Input) returns (r: Result<()>)
      requires env.Valid() && Valid()
      modifies this`used, this`hdrUsed, this`startAddress, out, hdr
      ensures r.Ok? <==> WriteOk(env, input, old(startAddress), hdr.Length - old(hdrUsed), out.Length - old(used))
      ensures r.Ok? ==>
                var st := EmitAll(env, input.data, old(startAddress), hdr.Length - old(hdrUsed), EntriesOf(input)).value;
                && Valid()
                && out[..used] == old(out[..used]) + st.bytes + TrailingOf(input)
                && hdr[..hdrUsed] == old(hdr[..hdrUsed]) + st.hdr
                && startAddress == old(startAddress) + |st.bytes| + |TrailingOf(input)|
                && TableDescribes(env, st.hdr, FdePlaces(old(startAddress), KeptEntries(env, EntriesOf(input))))
                && (Regular(input) ==> ReadsBack(env, input, st.bytes))
    {
      hide Parse, EmitAll, EmitEntry, EntryAt, Skip, U32, Bounded, IsTerminator, Regular, ReadsBack;
      hide TableDescribes, FdePlaces, KeptEntries;
      ghost var used0, hdr0 := used, hdrUsed;
      ghost var room, space := hdr.Length - hdr0, out.Length - used0;
      ghost var st, done := Emitted([], [], map[]), [];
      var pos, from, outPos, cies := 0, 0, 0, map[];
      AheadAtStart(input);
      NothingYet(env, input, startAddress, room);
      while pos + PREFIX_LEN <= |input.data| && U32(input.data, pos) != 0
        invariant Ahead(input, done, pos, from) && EntriesIn(input.data, done)
        invariant EmitAll(env, input.data, startAddress, room, done) == Ok(st)
        invariant Wrote(used0, hdr0, st) && outPos == |st.bytes| && cies == st.cies
        invariant out[..used0] == old(out[..used]) && hdr[..hdr0] == old(hdr[..hdrUsed])
        invariant startAddress == old(startAddress)
        decreases |input.data| - pos
      {
        AheadStep(input, done, pos, from);
        EntryAtBounded(input, pos, from);
        ghost var e := EntryAt(input, pos, from);
        var size := 4 + U32(input.data, pos);
        EntrySize(input, pos, from);
        if pos + size > |input.data| { return Err("invalid .eh_frame data"); }
        EmitOneMore(env, input.data, startAddress, room, done, e);
        ghost var after := EmitEntry(env, input.data, startAddress, room, st, e);
        var next;
        next, outPos, cies := WriteEntry(env, input, pos, from, outPos, cies, used0, hdr0, st);
        if next.Err? {
          FailsEarly(env, input, startAddress, room, space, done + [e], pos + size,
                     Skip(input.relocations, from, pos + size));
          return Err(next.message);
        }
        st, done := after.value, done + [e];
        pos, from := pos + size, next.value;
      }
      AheadAtEnd(input, done, pos, from);
      if pos + PREFIX_LEN <= |input.data| { pos := |input.data|; }
      assert out[..used] == out[..used0] + out[used0..used];
      assert hdr[..hdrUsed] == hdr[..hdr0] + hdr[hdr0..hdrUsed];
      var written := WriteTrailing(input.data[pos..]);
      if written.Err? { return Err(written.message); }
      SectionTable(env, input, startAddress, room);
      if Regular(input) { SectionReadsBack(env, input, startAddress, room); }
      startAddress := startAddress + outPos + written.value;
      r := Ok(());
    }

    // Bytes that are too few to be an entry, unless they are the end marker. Returns how many.
    method WriteTrailing(remaining: seq<Byte>) returns (r: Result<nat>)
      requires Valid()
      modifies this`used, out
      ensures var kept := if IsTerminator(remaining) then [] else remaining;
              && (r.Ok? <==> old(used) + |kept| <= out.Length)
              && (r.Ok? ==> Valid() && r.value == |kept| && used == old(used) + |kept|
                            && out[..used] == old(out[..used]) + kept)
    {
      if |remaining| == 0 || IsTerminator(remaining) { return Ok(0); }
      ghost var used1 := used;
      var taken := TakeEhFrameData(|remaining|);
      if taken.Err? { return Err(taken.message); }
      Patch(taken.value, |remaining|, 0, remaining);
      assert out[..used] == out[..used1] + out[used1..used];
      r := Ok(|remaining|);
    }
  }

  lemma NothingYet(env: Env, input: Input, start: nat, room: nat)
    requires env.Valid()
    ensures EntriesIn(input.data, []) && EmitAll(env, input.data, start, room, []) == Ok(Emitted([], [], map[]))
  {}

  lemma EntrySize(input: Input, pos: nat, from: nat)
    requires pos + PREFIX_LEN <= |input.data| && from <= |input.relocations|
    ensures EntryAt(input, pos, from).size == 4 + U32(input.data, pos) && EntryAt(input, pos, from).pos == pos
  {}

  lemma EmitOneMore(env: Env, data: seq<Byte>, start: nat, room: nat, done: seq<Entry>, e: Entry)
    requires env.Valid() && EntriesIn(data, done) && Bounded(e)
    requires e.pos + e.size <= |data| && EmitAll(env, data, start, room, done).Ok?
    ensures EntriesIn(data, done + [e])
    ensures EmitAll(env, data, start, room, done + [e])
            == EmitEntry(env, data, start, room, EmitAll(env, data, start, room, done).value, e)
  {
    hide EmitEntry, Bounded;
    assert (done + [e])[..|done|] == done;
  }

  lemma KeptIsLarge(env: Env, e: Entry)
    requires env.Valid() && Bounded(e) && Kept(env.obj, env.addresses, e)
    ensures e.size >= 8
  {
    assert e.relocations[0].offset < e.pos + e.size;
  }

  // The entry before its relocations are applied.
  function Copied(input: Input, e: Entry, distance: Option<nat>): (r: seq<Byte>)
    requires e.pos + e.size <= |input.data|
    requires distance.Some? ==> e.size >= 8 && distance.value < 0x1_0000_0000
    ensures |r| == e.size
  {
    var bytes := input.data[e.pos..e.pos + e.size];
    if distance.Some? then WithCieOffset(bytes, distance.value) else bytes
  }

  lemma ApplyNone(env: Env, bytes: seq<Byte>, e: Entry, at: nat)
    ensures ApplyAll(env, bytes, e, at, 0) == Ok(bytes)
  {}

  lemma ApplyOneMore(env: Env, bytes: seq<Byte>, e: Entry, at: nat, n: nat)
    requires 0 < n <= |e.relocations| && ApplyAll(env, bytes, e, at, n - 1).Ok?
    ensures ApplyAll(env, bytes, e, at, n)
            == ApplyRelocation(env, ApplyAll(env, bytes, e, at, n - 1).value, e.pos, at, e.relocations[n - 1])
  {}

  lemma SkipStep(relocations: seq<Relocation>, from: nat, limit: nat)
    requires from <= |relocations|
    ensures Skip(relocations, from, limit)
            == if from < |relocations| && relocations[from].offset < limit then Skip(relocations, from + 1, limit) else from
  {}
}
