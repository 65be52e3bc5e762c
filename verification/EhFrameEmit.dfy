// What the writer makes of the entries of one .eh_frame section, as a function, and what a reader of
// the output finds there.
module EhFrameEmit {
  import opened Words
  import opened EhFrame

  // Offsets from the start of .eh_frame_hdr.
  datatype HdrEntry = HdrEntry(framePtr: int, frameInfoPtr: int)

  // What the writer is given besides the section: resolved addresses, the effect of relaxation on an
  // offset of a section, and the bytes that a relocation puts at its place when the entry lands at an
  // address (None when the relocation cannot be applied).
  datatype Env = Env(obj: Object, addresses: Addresses, hdrAddress: int,
                     relaxed: (nat, int) -> int, patch: (Relocation, nat) -> Option<seq<Byte>>) {
    ghost predicate Valid() {
      obj.Valid() && |addresses| == |obj.sections|
    }
  }

  // ----- Relocations inside one entry ----------------------------------------------------------

  // `bytes` is the entry, copied to address `at`.
  function ApplyRelocation(env: Env, bytes: seq<Byte>, pos: nat, at: nat, r: Relocation): (res: Result<seq<Byte>>)
    ensures res.Ok? ==> |res.value| == |bytes|
  {
    var patch := env.patch(r, at);
    if patch.None? || r.offset < pos || r.offset - pos + |patch.value| > |bytes| then Err("failed to apply")
    else
      var off, b := r.offset - pos, patch.value;
      Ok(bytes[..off] + b + bytes[off + |b|..])
  }

  // The first n relocations of the entry.
  function ApplyAll(env: Env, bytes: seq<Byte>, e: Entry, at: nat, n: nat): (res: Result<seq<Byte>>)
    requires n <= |e.relocations|
    ensures res.Ok? ==> |res.value| == |bytes|
  {
    if n == 0 then Ok(bytes)
    else
      match ApplyAll(env, bytes, e, at, n - 1)
      case Err(m) => Err(m)
      case Ok(b) => ApplyRelocation(env, b, e.pos, at, e.relocations[n - 1])
  }

  lemma {:induction false} ApplyErrorSticks(env: Env, bytes: seq<Byte>, e: Entry, at: nat, n: nat, m: nat)
    requires n <= m <= |e.relocations| && ApplyAll(env, bytes, e, at, n).Err?
    ensures ApplyAll(env, bytes, e, at, m).Err?
  {
    if n < m { ApplyErrorSticks(env, bytes, e, at, n, m - 1); }
  }

  // Relocations that all lie at or after offset k leave the first k bytes alone.
  lemma {:induction false} ApplyKeepsPrefix(env: Env, bytes: seq<Byte>, e: Entry, at: nat, n: nat, k: nat)
    requires n <= |e.relocations| && k <= |bytes| && ApplyAll(env, bytes, e, at, n).Ok?
    requires forall i :: 0 <= i < n ==> e.relocations[i].offset >= e.pos + k
    ensures ApplyAll(env, bytes, e, at, n).value[..k] == bytes[..k]
  {
    if n > 0 {
      ApplyKeepsPrefix(env, bytes, e, at, n - 1, k);
    }
  }

  // The patches of the first n relocations follow each other within the entry.
  ghost predicate PatchesApart(env: Env, e: Entry, at: nat) {
    forall i, j :: 0 <= i < j < |e.relocations| && env.patch(e.relocations[i], at).Some? ==>
      e.relocations[i].offset + |env.patch(e.relocations[i], at).value| <= e.relocations[j].offset
  }

  // Byte k of the entry is one that relocation r patches.
  predicate Patches(env: Env, e: Entry, at: nat, r: Relocation, k: nat) {
    var patch := env.patch(r, at);
    patch.Some? && r.offset <= e.pos + k < r.offset + |patch.value|
  }

  ghost predicate InPlace(env: Env, e: Entry, at: nat, bytes: seq<Byte>, r: Relocation) {
    var patch := env.patch(r, at);
    && patch.Some? && e.pos <= r.offset && r.offset - e.pos + |patch.value| <= |bytes|
    && bytes[r.offset - e.pos..r.offset - e.pos + |patch.value|] == patch.value
  }

  // Each relocation puts its patch at its own offset, and other bytes stay.
  lemma {:induction false} PatchesInPlace(env: Env, bytes: seq<Byte>, e: Entry, at: nat, n: nat)
    requires n <= |e.relocations| && ApplyAll(env, bytes, e, at, n).Ok? && PatchesApart(env, e, at)
    ensures var b := ApplyAll(env, bytes, e, at, n).value;
            && (forall i :: 0 <= i < n ==> InPlace(env, e, at, b, e.relocations[i]))
            && forall k: nat :: k < |bytes| && (forall i :: 0 <= i < n ==> !Patches(env, e, at, e.relocations[i], k)) ==> b[k] == bytes[k]
  {
    if n > 0 {
      PatchesInPlace(env, bytes, e, at, n - 1);
      var a, b := ApplyAll(env, bytes, e, at, n - 1).value, ApplyAll(env, bytes, e, at, n).value;
      var last := e.relocations[n - 1];
      OnePatch(env, a, e, at, last);
      forall i | 0 <= i < n ensures InPlace(env, e, at, b, e.relocations[i]) {
        if i < n - 1 { EarlierStays(env, a, e, at, e.relocations[i], last); }
      }
    }
  }

  lemma OnePatch(env: Env, bytes: seq<Byte>, e: Entry, at: nat, r: Relocation)
    requires ApplyRelocation(env, bytes, e.pos, at, r).Ok?
    ensures var b := ApplyRelocation(env, bytes, e.pos, at, r).value;
            && InPlace(env, e, at, b, r)
            && forall k: nat :: k < |bytes| && !Patches(env, e, at, r, k) ==> b[k] == bytes[k]
  {}

  lemma EarlierStays(env: Env, bytes: seq<Byte>, e: Entry, at: nat, r: Relocation, next: Relocation)
    requires ApplyRelocation(env, bytes, e.pos, at, next).Ok? && InPlace(env, e, at, bytes, r)
    requires r.offset + |env.patch(r, at).value| <= next.offset
    ensures InPlace(env, e, at, ApplyRelocation(env, bytes, e.pos, at, next).value, r)
  {
    var patch, b := env.patch(r, at).value, ApplyRelocation(env, bytes, e.pos, at, next).value;
    var lo := r.offset - e.pos;
    assert forall k :: lo <= k < lo + |patch| ==> b[k] == bytes[k];
  }

  // ----- One entry -----------------------------------------------------------------------------

  // Where the section's output stands: its bytes, the header entries taken, and the output position
  // of every CIE seen, by input position.
  datatype Emitted = Emitted(bytes: seq<Byte>, hdr: seq<HdrEntry>, cies: map<nat, nat>)

  function FramePtr(env: Env, e: Entry): int
    requires |env.addresses| == |env.obj.sections| && Kept(env.obj, env.addresses, e)
  {
    var s := WriterTarget(env.obj, env.addresses, e).value.value;
    var r := e.relocations[0];
    env.addresses[s].value + env.relaxed(s, env.obj.symbols[r.symbol.value].value + r.addend) - env.hdrAddress
  }

  predicate FitsI32(n: int) {
    -0x8000_0000 <= n < 0x8000_0000
  }

  // The header entry of an FDE that lands at `at`, when there is room for one.
  function AddHdr(env: Env, hdr: seq<HdrEntry>, room: nat, e: Entry, at: nat): Result<seq<HdrEntry>>
    requires |env.addresses| == |env.obj.sections| && Kept(env.obj, env.addresses, e)
  {
    if |hdr| >= room then Ok(hdr)
    else
      var h := HdrEntry(FramePtr(env, e), at - env.hdrAddress);
      if FitsI32(h.framePtr) && FitsI32(h.frameInfoPtr) then Ok(hdr + [h]) else Err("32 bit overflow")
  }

  function EmitCie(env: Env, data: seq<Byte>, start: nat, st: Emitted, e: Entry): Result<Emitted>
    requires e.pos + e.size <= |data|
  {
    var out := |st.bytes|;
    match ApplyAll(env, data[e.pos..e.pos + e.size], e, start + out, |e.relocations|)
    case Err(m) => Err(m)
    case Ok(b) => Ok(Emitted(st.bytes + b, st.hdr, st.cies[e.pos := out]))
  }

  // The distance back from the id field of an FDE at `out` to the copy of its CIE.
  function CieOffset(cies: map<nat, nat>, out: nat, e: Entry): Result<nat> {
    var idPos := e.pos + 4;
    if e.cieId > idPos then Err("CIE pointer before section")
    else if idPos - e.cieId !in cies then Err("no CIE at that position")
    else
      var distance := out + 4 - cies[idPos - e.cieId];
      if 0 <= distance < 0x1_0000_0000 then Ok(distance) else Err("CIE pointer overflow")
  }

  function WithCieOffset(bytes: seq<Byte>, distance: nat): (r: seq<Byte>)
    requires |bytes| >= 8 && distance < 0x1_0000_0000
    ensures |r| == |bytes|
  {
    bytes[..4] + Le32(distance) + bytes[8..]
  }

  function EmitFde(env: Env, data: seq<Byte>, start: nat, room: nat, st: Emitted, e: Entry): Result<Emitted>
    requires |env.addresses| == |env.obj.sections| && Kept(env.obj, env.addresses, e)
    requires 8 <= e.size && e.pos + e.size <= |data|
  {
    var at := start + |st.bytes|;
    var hdr := AddHdr(env, st.hdr, room, e, at);
    var distance := CieOffset(st.cies, |st.bytes|, e);
    if hdr.Err? then Err(hdr.message)
    else if distance.Err? then Err(distance.message)
    else
      match ApplyAll(env, WithCieOffset(data[e.pos..e.pos + e.size], distance.value), e, at, |e.relocations|)
      case Err(m) => Err(m)
      case Ok(b) => Ok(Emitted(st.bytes + b, hdr.value, st.cies))
  }

  // The cursor hands an entry only relocations that end before the next entry.
  predicate Bounded(e: Entry) {
    forall i :: 0 <= i < |e.relocations| ==> e.relocations[i].offset < e.pos + e.size
  }

  function EmitEntry(env: Env, data: seq<Byte>, start: nat, room: nat, st: Emitted, e: Entry): Result<Emitted>
    requires |env.addresses| == |env.obj.sections|
    requires Bounded(e) && e.pos + e.size <= |data|
  {
    if e.IsCie() then EmitCie(env, data, start, st, e)
    else
      var target := WriterTarget(env.obj, env.addresses, e);
      if target.Err? then Err(target.message)
      else if target.value.None? then Ok(st)
      else EmitFde(env, data, start, room, st, e)
  }

  ghost predicate EntriesIn(data: seq<Byte>, entries: seq<Entry>) {
    forall i :: 0 <= i < |entries| ==> Bounded(entries[i]) && entries[i].pos + entries[i].size <= |data|
  }

  // All entries of one section whose output starts at address `start`; `room` header entries are left.
  function EmitAll(env: Env, data: seq<Byte>, start: nat, room: nat, entries: seq<Entry>): Result<Emitted>
    requires |env.addresses| == |env.obj.sections| && EntriesIn(data, entries)
  {
    if entries == [] then Ok(Emitted([], [], map[]))
    else
      match EmitAll(env, data, start, room, entries[..|entries| - 1])
      case Err(m) => Err(m)
      case Ok(st) => EmitEntry(env, data, start, room, st, entries[|entries| - 1])
  }

  // ----- Parsed entries lie in the section -----------------------------------------------------

  lemma {:induction false} SkipBounds(relocations: seq<Relocation>, from: nat, limit: nat)
    requires from <= |relocations|
    ensures forall i :: from <= i < Skip(relocations, from, limit) ==> relocations[i].offset < limit
    decreases |relocations| - from
  {
    if from < |relocations| && relocations[from].offset < limit {
      SkipBounds(relocations, from + 1, limit);
    }
  }

  lemma EntryAtBounded(input: Input, pos: nat, from: nat)
    requires pos + PREFIX_LEN <= |input.data| && from <= |input.relocations|
    ensures Bounded(EntryAt(input, pos, from))
  {
    SkipBounds(input.relocations, from, pos + 4 + U32(input.data, pos));
  }

  lemma {:induction false} ParsedEntriesIn(input: Input, pos: nat, from: nat)
    requires pos <= |input.data| && from <= |input.relocations| && Parse(input, pos, from).Ok?
    ensures EntriesIn(input.data, Parse(input, pos, from).value.entries)
    decreases |input.data| - pos
  {
    if pos + PREFIX_LEN <= |input.data| && U32(input.data, pos) != 0 {
      var e := EntryAt(input, pos, from);
      EntryAtBounded(input, pos, from);
      ParsedEntriesIn(input, pos + e.size, Skip(input.relocations, from, pos + e.size));
    }
  }
}
