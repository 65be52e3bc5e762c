// The .eh_frame section (LSB Core Generic 5.0, section 10.6.1) as the layout pass and the writer read
// it, and what each of them decides about an entry.
module EhFrame {
  import opened Words

  datatype Relocation = Relocation(offset: nat, symbol: Option<nat>, addend: int)

  // The section that defines the symbol, if any, and its value there.
  datatype Symbol = Symbol(section: Option<nat>, value: nat)

  // What the object's section slot was before sections were loaded. Only loadable slots remember
  // frames; frame data and debug info can have an address without ever being loaded that way.
  datatype SlotKind = Loadable | FrameData | DebugInfo | Discarded | OtherSlot

  datatype Section = Section(kind: SlotKind, size: nat)

  datatype Object = Object(symbols: seq<Symbol>, sections: seq<Section>) {
    ghost predicate Valid() {
      forall i :: 0 <= i < |symbols| && symbols[i].section.Some? ==>
                    symbols[i].section.value < |sections|
    }
  }

  // One .eh_frame input section.
  datatype Input = Input(data: seq<Byte>, relocations: seq<Relocation>)

  // An entry of the section with the relocations that the cursor hands to it. A CIE has id 0; in an
  // FDE the id is the distance back to its CIE.
  datatype Entry = Entry(pos: nat, size: nat, cieId: nat, relocations: seq<Relocation>) {
    predicate IsCie() { cieId == 0 }
  }

  const PREFIX_LEN: nat := 8
  const FDE_PC_BEGIN_OFFSET: nat := 8

  // The cursor moves past relocations below `limit` and stops at the first that is not.
  function Skip(relocations: seq<Relocation>, from: nat, limit: nat): (r: nat)
    requires from <= |relocations|
    ensures from <= r <= |relocations|
    decreases |relocations| - from
  {
    if from < |relocations| && relocations[from].offset < limit then Skip(relocations, from + 1, limit)
    else from
  }

  method SkipRelocations(input: Input, from: nat, limit: nat) returns (next: nat)
    requires from <= |input.relocations|
    ensures next == Skip(input.relocations, from, limit)
  {
    next := from;
    while next < |input.relocations| && input.relocations[next].offset < limit
      invariant from <= next <= |input.relocations|
      invariant Skip(input.relocations, next, limit) == Skip(input.relocations, from, limit)
    {
      next := next + 1;
    }
  }

  // Entries from `pos` on, and where they end. A zero length ends the section.
  datatype Parsed = Parsed(entries: seq<Entry>, end: nat)

  function EntryAt(input: Input, pos: nat, from: nat): (e: Entry)
    requires pos + PREFIX_LEN <= |input.data| && from <= |input.relocations|
    ensures e.pos == pos && e.size >= 4
  {
    var size := 4 + U32(input.data, pos);
    Entry(pos, size, U32(input.data, pos + 4),
          input.relocations[from..Skip(input.relocations, from, pos + size)])
  }

  function Parse(input: Input, pos: nat, from: nat): (r: Result<Parsed>)
    requires pos <= |input.data| && from <= |input.relocations|
    ensures r.Ok? ==> pos <= r.value.end <= |input.data|
    decreases |input.data| - pos
  {
    if pos + PREFIX_LEN > |input.data| then Ok(Parsed([], pos))
    else if U32(input.data, pos) == 0 then Ok(Parsed([], |input.data|))
    else
      var e := EntryAt(input, pos, from);
      if pos + e.size > |input.data| then Err("invalid .eh_frame data")
      else
        match Parse(input, pos + e.size, Skip(input.relocations, from, pos + e.size))
        case Err(m) => Err(m)
        case Ok(p) => Ok(Parsed([e] + p.entries, p.end))
  }

  // A pass that has seen the entries `done` and stands at `pos` will see what Parse says.
  ghost predicate Ahead(input: Input, done: seq<Entry>, pos: nat, from: nat) {
    && pos <= |input.data| && from <= |input.relocations|
    && var whole := Parse(input, 0, 0);
       match Parse(input, pos, from)
       case Err(_) => whole.Err?
       case Ok(p) => whole == Ok(Parsed(done + p.entries, p.end))
  }

  lemma AheadAtStart(input: Input)
    ensures Ahead(input, [], 0, 0)
  {
    var whole := Parse(input, 0, 0);
    if whole.Ok? { assert [] + whole.value.entries == whole.value.entries; }
  }

  lemma AheadStep(input: Input, done: seq<Entry>, pos: nat, from: nat)
    requires Ahead(input, done, pos, from)
    requires pos + PREFIX_LEN <= |input.data| && U32(input.data, pos) != 0
    ensures var e := EntryAt(input, pos, from);
            if pos + e.size > |input.data| then Parse(input, 0, 0).Err?
            else Ahead(input, done + [e], pos + e.size, Skip(input.relocations, from, pos + e.size))
  {
    hide U32, Skip;
    var e := EntryAt(input, pos, from);
    if pos + e.size <= |input.data| {
      var rest := Parse(input, pos + e.size, Skip(input.relocations, from, pos + e.size));
      if rest.Ok? { assert done + ([e] + rest.value.entries) == done + [e] + rest.value.entries; }
    }
  }

  lemma AheadAtEnd(input: Input, done: seq<Entry>, pos: nat, from: nat)
    requires Ahead(input, done, pos, from)
    requires pos + PREFIX_LEN > |input.data| || U32(input.data, pos) == 0
    ensures var end := if pos + PREFIX_LEN > |input.data| then pos else |input.data|;
            Parse(input, 0, 0) == Ok(Parsed(done, end))
  {
    assert done + [] == done;
  }

  predicate IsTerminator(data: seq<Byte>) {
    |data| == 4 && data == [0, 0, 0, 0]
  }

  // Bytes after the last entry that both passes carry over.
  function Trailing(input: Input, p: Parsed): seq<Byte>
    requires p.end <= |input.data|
  {
    if IsTerminator(input.data[p.end..]) then [] else input.data[p.end..]
  }

  // What both passes go by when the section parses.
  function EntriesOf(input: Input): seq<Entry> {
    var p := Parse(input, 0, 0);
    if p.Ok? then p.value.entries else []
  }

  function TrailingOf(input: Input): seq<Byte> {
    var p := Parse(input, 0, 0);
    if p.Ok? then Trailing(input, p.value) else []
  }

  // All bytes behind the last entry, unless they are four zeros, the mark of the end.
  lemma TrailingExactly(input: Input)
    requires Parse(input, 0, 0).Ok?
    ensures var rest := input.data[Parse(input, 0, 0).value.end..];
            if |rest| == 4 && U32(rest, 0) == 0 then TrailingOf(input) == [] else TrailingOf(input) == rest
  {
    hide Parse;
    var rest := input.data[Parse(input, 0, 0).value.end..];
    if |rest| == 4 {
      var b0: int, b1: int, b2: int, b3: int := rest[0], rest[1], rest[2], rest[3];
      assert U32(rest, 0) == b0 + 0x100 * b1 + 0x1_0000 * b2 + 0x100_0000 * b3;
      if b0 == 0 && b1 == 0 && b2 == 0 && b3 == 0 { assert rest == [0, 0, 0, 0]; }
    }
  }

  // ----- What layout decides -------------------------------------------------------------------

  predicate AtPcBegin(e: Entry, r: Relocation) {
    r.offset == e.pos + FDE_PC_BEGIN_OFFSET
  }

  // Layout takes the last pc-begin relocation with a symbol among the first n.
  function LayoutTarget(obj: Object, e: Entry, n: nat): Result<Option<nat>>
    requires n <= |e.relocations|
  {
    if n == 0 then Ok(None)
    else
      var before := LayoutTarget(obj, e, n - 1);
      var r := e.relocations[n - 1];
      if before.Err? || !AtPcBegin(e, r) || r.symbol.None? then before
      else if r.symbol.value >= |obj.symbols| then Err("invalid symbol index")
      else Ok(obj.symbols[r.symbol.value].section)
  }

  // The section whose frame list an FDE joins.
  function Owner(obj: Object, e: Entry): Result<Option<nat>> {
    match LayoutTarget(obj, e, |e.relocations|)
    case Err(m) => Err(m)
    case Ok(None) => Ok(None)
    case Ok(Some(s)) =>
      Ok(if s < |obj.sections| && obj.sections[s].kind.Loadable? then Some(s) else None)
  }

  // Space is reserved for an FDE when its owner is loaded and not empty.
  predicate Counted(obj: Object, loaded: set<nat>, e: Entry) {
    var owner := Owner(obj, e);
    owner.Ok? && owner.value.Some? && owner.value.value in loaded
    && obj.sections[owner.value.value].size > 0
  }

  // ----- What the writer decides ---------------------------------------------------------------

  // Section addresses as resolved by layout; None for sections that were not loaded.
  type Addresses = seq<Option<nat>>

  // The writer looks at the first relocation of an FDE only.
  function WriterTarget(obj: Object, addresses: Addresses, e: Entry): Result<Option<nat>>
    requires |addresses| == |obj.sections|
  {
    if e.relocations == [] || !AtPcBegin(e, e.relocations[0]) then Ok(None)
    else
      var r := e.relocations[0];
      if r.symbol.None? then Err("unexpected absolute relocation in .eh_frame pc-begin")
      else if r.symbol.value >= |obj.symbols| then Err("invalid symbol index")
      else
        match obj.symbols[r.symbol.value].section
        case None => Err(".eh_frame pc-begin refers to symbol that's not defined in file")
        case Some(s) =>
          Ok(if s < |obj.sections| && addresses[s].Some? && obj.sections[s].size != 0 then Some(s) else None)
  }

  // Addresses agree with what was loaded. Slots that are not loadable are not constrained.
  ghost predicate Resolves(obj: Object, loaded: set<nat>, addresses: Addresses) {
    && |addresses| == |obj.sections|
    && forall s :: 0 <= s < |addresses| && obj.sections[s].kind.Loadable? ==>
                     (addresses[s].Some? <==> s in loaded)
  }

  predicate Kept(obj: Object, addresses: Addresses, e: Entry)
    requires |addresses| == |obj.sections|
  {
    var t := WriterTarget(obj, addresses, e);
    t.Ok? && t.value.Some?
  }

  // ----- When the two agree on an FDE ----------------------------------------------------------

  // The first pc-begin relocation of the entry is its first relocation, and the only one.
  ghost predicate PcBeginFirst(e: Entry) {
    forall i :: 0 < i < |e.relocations| ==> !AtPcBegin(e, e.relocations[i])
  }

  // A live pc-begin target is a slot that keeps a frame list.
  ghost predicate TargetIsLoadable(obj: Object, addresses: Addresses, e: Entry)
    requires |addresses| == |obj.sections|
  {
    Kept(obj, addresses, e) ==>
      obj.sections[WriterTarget(obj, addresses, e).value.value].kind.Loadable?
  }

  lemma {:induction false} NoPcBeginNoTarget(obj: Object, e: Entry, lo: nat, n: nat)
    requires lo <= n <= |e.relocations|
    requires forall i :: lo <= i < n ==> !AtPcBegin(e, e.relocations[i])
    ensures LayoutTarget(obj, e, n) == LayoutTarget(obj, e, lo)
  {
    if lo < n { NoPcBeginNoTarget(obj, e, lo, n - 1); }
  }

  lemma CountedIsKept(obj: Object, loaded: set<nat>, addresses: Addresses, e: Entry)
    requires obj.Valid() && Resolves(obj, loaded, addresses)
    requires PcBeginFirst(e) && TargetIsLoadable(obj, addresses, e)
    ensures Counted(obj, loaded, e) <==> Kept(obj, addresses, e)
  {
    var n := |e.relocations|;
    if n > 0 {
      NoPcBeginNoTarget(obj, e, 1, n);
      assert LayoutTarget(obj, e, 0) == Ok(None);
    }
  }

  // For an FDE with one pc-begin relocation, against a live section, the guard of the writer's peek
  // is the whole difference.
  lemma KeptExactlyWhenFirst(obj: Object, loaded: set<nat>, addresses: Addresses, e: Entry, k: nat)
    requires obj.Valid() && Resolves(obj, loaded, addresses)
    requires k < |e.relocations| && AtPcBegin(e, e.relocations[k])
    requires forall i :: 0 <= i < |e.relocations| && i != k ==> !AtPcBegin(e, e.relocations[i])
    requires var symbol := e.relocations[k].symbol;
             && symbol.Some? && symbol.value < |obj.symbols|
             && var s := obj.symbols[symbol.value].section;
                && s.Some? && obj.sections[s.value].kind.Loadable?
                && s.value in loaded && obj.sections[s.value].size > 0
    ensures Counted(obj, loaded, e)
    ensures Kept(obj, addresses, e) <==> k == 0
  {
    NoPcBeginNoTarget(obj, e, k + 1, |e.relocations|);
    NoPcBeginNoTarget(obj, e, 0, k);
    assert LayoutTarget(obj, e, k) == Ok(None);
  }

  // ----- Sizes ---------------------------------------------------------------------------------

  // Frame sizes are kept as u32.
  function FrameSize(e: Entry): nat {
    e.size % 0x1_0000_0000
  }

  // Reserved by layout for a list of entries: bytes of .eh_frame and entries of .eh_frame_hdr.
  datatype Space = Space(bytes: nat, hdrEntries: nat)

  function Plus(a: Space, b: Space): Space {
    Space(a.bytes + b.bytes, a.hdrEntries + b.hdrEntries)
  }

  function CieSpace(e: Entry): Space {
    Space(if e.IsCie() then e.size else 0, 0)
  }

  function CountedSpace(obj: Object, loaded: set<nat>, e: Entry): Space {
    if !e.IsCie() && Counted(obj, loaded, e) then Space(FrameSize(e), 1) else Space(0, 0)
  }

  function KeptSpace(obj: Object, addresses: Addresses, e: Entry): Space
    requires |addresses| == |obj.sections|
  {
    if e.IsCie() then Space(e.size, 0)
    else if Kept(obj, addresses, e) then Space(e.size, 1)
    else Space(0, 0)
  }

  function AllCieSpace(entries: seq<Entry>): Space {
    if entries == [] then Space(0, 0)
    else Plus(AllCieSpace(entries[..|entries| - 1]), CieSpace(entries[|entries| - 1]))
  }

  function AllCountedSpace(obj: Object, loaded: set<nat>, entries: seq<Entry>): Space {
    if entries == [] then Space(0, 0)
    else Plus(AllCountedSpace(obj, loaded, entries[..|entries| - 1]),
              CountedSpace(obj, loaded, entries[|entries| - 1]))
  }

  function AllKeptSpace(obj: Object, addresses: Addresses, entries: seq<Entry>): Space
    requires |addresses| == |obj.sections|
  {
    if entries == [] then Space(0, 0)
    else Plus(AllKeptSpace(obj, addresses, entries[..|entries| - 1]),
              KeptSpace(obj, addresses, entries[|entries| - 1]))
  }

  // An FDE names its section where the writer looks for it.
  ghost predicate CanonicalFde(obj: Object, addresses: Addresses, e: Entry)
    requires |addresses| == |obj.sections|
  {
    PcBeginFirst(e) && TargetIsLoadable(obj, addresses, e) && e.size < 0x1_0000_0000
  }

  ghost predicate Canonical(obj: Object, addresses: Addresses, entries: seq<Entry>)
    requires |addresses| == |obj.sections|
  {
    forall i :: 0 <= i < |entries| && !entries[i].IsCie() ==> CanonicalFde(obj, addresses, entries[i])
  }

  lemma OneEntryAgrees(obj: Object, loaded: set<nat>, addresses: Addresses, e: Entry)
    requires obj.Valid() && Resolves(obj, loaded, addresses)
    requires e.IsCie() || CanonicalFde(obj, addresses, e)
    ensures Plus(CountedSpace(obj, loaded, e), CieSpace(e)) == KeptSpace(obj, addresses, e)
  {
    if !e.IsCie() {
      CountedIsKept(obj, loaded, addresses, e);
      assert FrameSize(e) == e.size;
    }
  }

  // Layout's two sums, kept apart until the end of layout, are what the writer will emit.
  lemma {:induction false} CountedIsKeptOverall(obj: Object, loaded: set<nat>, addresses: Addresses, entries: seq<Entry>)
    requires obj.Valid() && Resolves(obj, loaded, addresses) && Canonical(obj, addresses, entries)
    ensures Plus(AllCountedSpace(obj, loaded, entries), AllCieSpace(entries))
            == AllKeptSpace(obj, addresses, entries)
  {
    hide CountedSpace, KeptSpace, CieSpace, CanonicalFde, Resolves, Plus;
    if entries == [] {
      NothingAgrees();
    } else {
      var front, e := entries[..|entries| - 1], entries[|entries| - 1];
      CountedIsKeptOverall(obj, loaded, addresses, front);
      OneEntryAgrees(obj, loaded, addresses, e);
      PlusInTurn(AllCountedSpace(obj, loaded, front), CountedSpace(obj, loaded, e), AllCieSpace(front), CieSpace(e));
    }
  }

  lemma NothingAgrees()
    ensures Plus(Space(0, 0), Space(0, 0)) == Space(0, 0)
  {}

  lemma PlusInTurn(a: Space, b: Space, c: Space, d: Space)
    ensures Plus(Plus(a, b), Plus(c, d)) == Plus(Plus(a, c), Plus(b, d))
  {}
}
