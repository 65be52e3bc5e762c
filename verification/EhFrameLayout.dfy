// Layout of .eh_frame: FDEs are threaded onto a list per section while parsing, and the list of a
// section is walked when that section is loaded.
module EhFrameLayout {
  import opened Words
  import opened EhFrame

  datatype Frame = Frame(size: nat, previous: Option<nat>, relocations: seq<Relocation>)

  // ----- The back links ------------------------------------------------------------------------

  // The latest frame of section s among the first |owners| frames.
  function LatestOf(owners: seq<nat>, s: nat): (r: Option<nat>)
    ensures r.Some? ==> r.value < |owners| && owners[r.value] == s
    ensures forall i :: 0 <= i < |owners| && owners[i] == s ==> r.Some? && i <= r.value
  {
    if owners == [] then None
    else if owners[|owners| - 1] == s then Some(|owners| - 1)
    else LatestOf(owners[..|owners| - 1], s)
  }

  // Every frame points to the latest earlier frame of its own section.
  ghost predicate Linked(frames: seq<Frame>, owners: seq<nat>) {
    && |frames| == |owners|
    && forall i {:trigger frames[i]} :: 0 <= i < |frames| ==> frames[i].previous == LatestOf(owners[..i], owners[i])
  }

  // The frames from `next` back, in the order that they are visited.
  function Walk(frames: seq<Frame>, next: Option<nat>): seq<nat>
    requires next.Some? ==> next.value < |frames|
    requires forall i {:trigger frames[i]} :: 0 <= i < |frames| && frames[i].previous.Some? ==> frames[i].previous.value < i
    decreases if next.Some? then next.value + 1 else 0
  {
    if next.None? then [] else [next.value] + Walk(frames, frames[next.value].previous)
  }

  lemma LinksGoBack(frames: seq<Frame>, owners: seq<nat>)
    requires Linked(frames, owners)
    ensures forall i {:trigger frames[i]} :: 0 <= i < |frames| && frames[i].previous.Some? ==> frames[i].previous.value < i
  {}

  // `visited` is the frames of section s among the first n, newest first.
  ghost predicate OwnFrames(visited: seq<nat>, owners: seq<nat>, n: nat, s: nat) {
    && (forall j :: 0 <= j < |visited| ==> visited[j] < n && visited[j] < |owners| && owners[visited[j]] == s)
    && (forall j, k :: 0 <= j < k < |visited| ==> visited[k] < visited[j])
    && (forall i: nat :: i < n && i < |owners| && owners[i] == s ==> i in visited)
  }

  lemma OwnFramesCons(rest: seq<nat>, owners: seq<nat>, i: nat, n: nat, s: nat)
    requires i < n <= |owners| && owners[i] == s && OwnFrames(rest, owners, i, s)
    requires forall k :: i < k < n ==> owners[k] != s
    ensures OwnFrames([i] + rest, owners, n, s)
  {
    var visited := [i] + rest;
    forall k: nat | k < n && owners[k] == s ensures k in visited {
      if k == i { assert visited[0] == k; } else { assert k in rest; }
    }
  }

  // A walk from the head of a section's list visits every frame of that section once, newest first,
  // and no other frame.
  lemma {:induction false} WalkVisitsOwnFrames(frames: seq<Frame>, owners: seq<nat>, n: nat, s: nat)
    requires Linked(frames, owners) && n <= |owners|
    ensures forall i {:trigger frames[i]} :: 0 <= i < |frames| && frames[i].previous.Some? ==> frames[i].previous.value < i
    ensures OwnFrames(Walk(frames, LatestOf(owners[..n], s)), owners, n, s)
    decreases n
  {
    hide OwnFrames;
    LinksGoBack(frames, owners);
    var latest := LatestOf(owners[..n], s);
    if latest.Some? {
      var i := latest.value;
      WalkVisitsOwnFrames(frames, owners, i, s);
      assert frames[i].previous == LatestOf(owners[..i], s);
      assert forall k :: i < k < n ==> owners[..n][k] != s;
      OwnFramesCons(Walk(frames, frames[i].previous), owners, i, n, s);
    } else {
      assert forall k :: 0 <= k < n ==> owners[..n][k] != s;
      NoOwnFrames(owners, n, s);
    }
  }

  lemma NoOwnFrames(owners: seq<nat>, n: nat, s: nat)
    requires n <= |owners| && forall k :: 0 <= k < n ==> owners[k] != s
    ensures OwnFrames([], owners, n, s)
  {}

  // ----- Space per section, and over all loaded sections ---------------------------------------

  function SpaceOf(owners: seq<nat>, sizes: seq<nat>, s: nat): Space
    requires |owners| == |sizes|
  {
    if owners == [] then Space(0, 0)
    else
      var n := |owners| - 1;
      Plus(SpaceOf(owners[..n], sizes[..n], s), if owners[n] == s then Space(sizes[n], 1) else Space(0, 0))
  }

  function SpaceIn(owners: seq<nat>, sizes: seq<nat>, live: set<nat>): Space
    requires |owners| == |sizes|
  {
    if owners == [] then Space(0, 0)
    else
      var n := |owners| - 1;
      Plus(SpaceIn(owners[..n], sizes[..n], live), if owners[n] in live then Space(sizes[n], 1) else Space(0, 0))
  }

  lemma SpaceUnfold(owners: seq<nat>, sizes: seq<nat>, live: set<nat>, s: nat)
    requires |owners| == |sizes| && owners != []
    ensures var n := |owners| - 1;
            var last := Space(sizes[n], 1);
            && SpaceIn(owners, sizes, live)
               == Plus(SpaceIn(owners[..n], sizes[..n], live), if owners[n] in live then last else Space(0, 0))
            && SpaceOf(owners, sizes, s)
               == Plus(SpaceOf(owners[..n], sizes[..n], s), if owners[n] == s then last else Space(0, 0))
  {}

  // Section lists partition the frames, so sections may be loaded in any order.
  lemma {:induction false} OneMoreSection(owners: seq<nat>, sizes: seq<nat>, live: set<nat>, s: nat)
    requires |owners| == |sizes| && s !in live
    ensures SpaceIn(owners, sizes, live + {s})
            == Plus(SpaceIn(owners, sizes, live), SpaceOf(owners, sizes, s))
  {
    if owners != [] {
      hide SpaceIn, SpaceOf;
      var n := |owners| - 1;
      OneMoreSection(owners[..n], sizes[..n], live, s);
      SpaceUnfold(owners, sizes, live, s);
      SpaceUnfold(owners, sizes, live + {s}, s);
    }
  }

  lemma {:induction false} NoSection(owners: seq<nat>, sizes: seq<nat>)
    requires |owners| == |sizes|
    ensures SpaceIn(owners, sizes, {}) == Space(0, 0)
  {
    if owners != [] {
      NoSection(owners[..|owners| - 1], sizes[..|owners| - 1]);
    }
  }

  // Going back from frame n of the list to the latest of section s skips only frames of others.
  lemma {:induction false} SpaceUpToLatest(owners: seq<nat>, sizes: seq<nat>, n: nat, s: nat)
    requires |owners| == |sizes| && n <= |owners|
    ensures var latest := LatestOf(owners[..n], s);
            match latest
            case None => SpaceOf(owners[..n], sizes[..n], s) == Space(0, 0)
            case Some(i) =>
              SpaceOf(owners[..n], sizes[..n], s)
              == Plus(SpaceOf(owners[..i], sizes[..i], s), Space(sizes[i], 1))
  {
    if n > 0 {
      assert owners[..n][..n - 1] == owners[..n - 1] && sizes[..n][..n - 1] == sizes[..n - 1];
      SpaceUpToLatest(owners, sizes, n - 1, s);
    }
  }

  // The space of section s among the first n frames.
  ghost function SpaceUpTo(frames: seq<Frame>, owners: seq<nat>, n: nat, s: nat): (r: Space)
    requires |frames| == |owners| && n <= |owners|
    ensures n == |owners| ==> r == SpaceOf(owners, Sizes(frames), s)
  {
    assert owners[..|owners|] == owners && Sizes(frames)[..|owners|] == Sizes(frames);
    SpaceOf(owners[..n], Sizes(frames)[..n], s)
  }

  lemma StepBack(frames: seq<Frame>, owners: seq<nat>, n: nat, s: nat)
    requires Linked(frames, owners) && n <= |owners|
    ensures match LatestOf(owners[..n], s)
            case None => SpaceUpTo(frames, owners, n, s) == Space(0, 0)
            case Some(i) =>
              && i < n && frames[i].previous == LatestOf(owners[..i], s)
              && SpaceUpTo(frames, owners, n, s)
                 == Plus(SpaceUpTo(frames, owners, i, s), Space(frames[i].size, 1))
  {
    hide SpaceOf;
    SpaceUpToLatest(owners, Sizes(frames), n, s);
  }

  function Sizes(frames: seq<Frame>): (r: seq<nat>)
    ensures |r| == |frames| && forall i :: 0 <= i < |r| ==> r[i] == frames[i].size
  {
    seq(|frames|, i requires 0 <= i < |frames| => frames[i].size)
  }

  // ----- What the frames of a list of entries are ----------------------------------------------

  predicate OwnersOk(obj: Object, entries: seq<Entry>) {
    forall i :: 0 <= i < |entries| && !entries[i].IsCie() ==> Owner(obj, entries[i]).Ok?
  }

  predicate HasOwner(obj: Object, e: Entry) {
    !e.IsCie() && Owner(obj, e).Ok? && Owner(obj, e).value.Some?
  }

  function Owners(obj: Object, entries: seq<Entry>): (r: seq<nat>)
    ensures forall i :: 0 <= i < |r| ==> r[i] < |obj.sections| && obj.sections[r[i]].kind.Loadable?
    ensures |r| == |FrameSizes(obj, entries)|
  {
    if entries == [] then []
    else
      var front, last := Owners(obj, entries[..|entries| - 1]), entries[|entries| - 1];
      if HasOwner(obj, last) then front + [Owner(obj, last).value.value] else front
  }

  function FrameSizes(obj: Object, entries: seq<Entry>): seq<nat> {
    if entries == [] then []
    else
      var front, last := FrameSizes(obj, entries[..|entries| - 1]), entries[|entries| - 1];
      if HasOwner(obj, last) then front + [FrameSize(last)] else front
  }

  function CieSizes(entries: seq<Entry>): seq<nat> {
    if entries == [] then []
    else
      var front, last := CieSizes(entries[..|entries| - 1]), entries[|entries| - 1];
      if last.IsCie() then front + [last.size] else front
  }

  // The loaded sections whose frames count.
  ghost function Live(obj: Object, loaded: set<nat>): set<nat> {
    set s | s in loaded && s < |obj.sections| && obj.sections[s].size > 0
  }

  lemma {:induction false} CountedIsLive(obj: Object, loaded: set<nat>, entries: seq<Entry>)
    ensures SpaceIn(Owners(obj, entries), FrameSizes(obj, entries), Live(obj, loaded))
            == AllCountedSpace(obj, loaded, entries)
  {
    if entries != [] {
      var front, last := entries[..|entries| - 1], entries[|entries| - 1];
      CountedIsLive(obj, loaded, front);
      if HasOwner(obj, last) {
        var owners, sizes := Owners(obj, entries), FrameSizes(obj, entries);
        assert owners[..|owners| - 1] == Owners(obj, front);
        assert sizes[..|sizes| - 1] == FrameSizes(obj, front);
      }
    }
  }

  // ----- The layout state of one object --------------------------------------------------------

  class ObjectLayoutState {
    const obj: Object
    const writeHdr: bool
    var frames: seq<Frame>
    var lastFrame: seq<Option<nat>>
    var loaded: seq<bool>
    var cies: seq<seq<Byte>>
    var ehFrameSize: nat
    var hdrEntries: nat
    ghost var owners: seq<nat>
    ghost var trailing: nat

    ghost function LoadedSet(): set<nat>
      reads this`loaded
    {
      set s | 0 <= s < |loaded| && loaded[s]
    }

    ghost predicate Threaded()
      reads this`frames, this`lastFrame, this`loaded, this`owners
    {
      && Linked(frames, owners) && |lastFrame| == |loaded| == |obj.sections|
      && forall s :: 0 <= s < |lastFrame| ==> lastFrame[s] == LatestOf(owners, s)
    }

    // The running totals are the trailing bytes plus the frames of the sections loaded so far.
    ghost predicate Valid()
      reads this
    {
      && Threaded()
      && var space := SpaceIn(owners, Sizes(frames), Live(obj, LoadedSet()));
         ehFrameSize == trailing + space.bytes && hdrEntries == (if writeHdr then space.hdrEntries else 0)
    }

    constructor (obj: Object, writeHdr: bool)
      ensures Valid() && this.obj == obj && this.writeHdr == writeHdr
      ensures frames == [] && owners == [] && cies == [] && trailing == 0 && LoadedSet() == {}
    {
      this.obj, this.writeHdr := obj, writeHdr;
      frames, cies, ehFrameSize, hdrEntries := [], [], 0, 0;
      lastFrame := seq(|obj.sections|, _ => None);
      loaded := seq(|obj.sections|, _ => false);
      owners, trailing := [], 0;
      new;
      assert LoadedSet() == {};
      NoSection([], []);
      assert Live(obj, {}) == {};
    }

    // The new frame points to what the section pointed to, and the section points to the new frame.
    method AddFrame(s: nat, size: nat, relocations: seq<Relocation>)
      requires Threaded() && s < |obj.sections|
      modifies this`frames, this`lastFrame, this`owners
      ensures Threaded() && owners == old(owners) + [s]
      ensures Sizes(frames) == old(Sizes(frames)) + [size]
    {
      var previous := lastFrame[s];
      lastFrame := lastFrame[s := Some(|frames|)];
      frames := frames + [Frame(size, previous, relocations)];
      LatestAfter(owners, s);
      LinkedAppend(frames, owners, s);
      owners := owners + [s];
    }

    // Consumes the relocations of the FDE and looks for the section of its function.
    method ScanFde(input: Input, pos: nat, from: nat) returns (target: Result<Option<nat>>, next: nat)
      requires pos + PREFIX_LEN <= |input.data| && from <= |input.relocations|
      ensures target.Ok? ==> next == Skip(input.relocations, from, pos + EntryAt(input, pos, from).size)
      ensures var e := EntryAt(input, pos, from);
              if target.Ok? then target == LayoutTarget(obj, e, |e.relocations|)
              else LayoutTarget(obj, e, |e.relocations|).Err?
    {
      ghost var e := EntryAt(input, pos, from);
      var limit := pos + 4 + U32(input.data, pos);
      var section := None;
      next := from;
      while next < |input.relocations| && input.relocations[next].offset < limit
        invariant from <= next <= from + |e.relocations|
        invariant Skip(input.relocations, next, limit) == from + |e.relocations|
        invariant LayoutTarget(obj, e, next - from) == Ok(section)
      {
        var r := input.relocations[next];
        assert e.relocations[next - from] == r;
        if r.offset == pos + FDE_PC_BEGIN_OFFSET && r.symbol.Some? {
          if r.symbol.value >= |obj.symbols| {
            ErrorSticks(obj, e, next - from + 1, |e.relocations|);
            return Err("invalid symbol index"), next;
          }
          section := obj.symbols[r.symbol.value].section;
        }
        next := next + 1;
      }
      target := Ok(section);
    }

    // The state is what it was before the section, plus what the entries `done` call for.
    ghost predicate Extends(o: seq<nat>, z: seq<nat>, c: seq<nat>, done: seq<Entry>)
      reads this`frames, this`lastFrame, this`loaded, this`owners, this`cies
    {
      && Threaded() && OwnersOk(obj, done)
      && owners == o + Owners(obj, done)
      && Sizes(frames) == z + FrameSizes(obj, done)
      && CieLengths(cies) == c + CieSizes(done)
    }

    lemma NothingYet()
      requires Threaded()
      ensures Extends(owners, Sizes(frames), CieLengths(cies), [])
      ensures LoadedSet() == {} ==>
                && |owners| == |Sizes(frames)|
                && SpaceIn(owners, Sizes(frames), Live(obj, LoadedSet())) == Space(0, 0)
    {
      assert owners + [] == owners && Sizes(frames) + [] == Sizes(frames);
      assert CieLengths(cies) + [] == CieLengths(cies);
      if LoadedSet() == {} {
        assert Live(obj, LoadedSet()) == {};
        NoSection(owners, Sizes(frames));
      }
    }

    lemma DoneIsInput(input: Input, done: seq<Entry>, o: seq<nat>, z: seq<nat>, c: seq<nat>)
      requires Extends(o, z, c, done)
      requires Parse(input, 0, 0).Ok? && Parse(input, 0, 0).value.entries == done
      ensures InputOk(obj, input) && Extends(o, z, c, EntriesOf(input)) && Threaded()
    {}

    // One entry that lies within the section. Returns where the relocation cursor stops.
    method ProcessEntry(input: Input, pos: nat, from: nat, ghost o: seq<nat>, ghost z: seq<nat>,
                        ghost c: seq<nat>, ghost done: seq<Entry>)
      returns (r: Result<nat>)
      requires pos + PREFIX_LEN <= |input.data| && from <= |input.relocations|
      requires pos + EntryAt(input, pos, from).size <= |input.data| && Extends(o, z, c, done)
      modifies this`frames, this`lastFrame, this`owners, this`cies
      ensures var e := EntryAt(input, pos, from);
              && (r.Ok? <==> e.IsCie() || Owner(obj, e).Ok?)
              && (r.Ok? ==> Extends(o, z, c, done + [e])
                            && r.value == Skip(input.relocations, from, pos + e.size))
    {
      hide Skip, LayoutTarget, Owners, FrameSizes, CieSizes, CieLengths, Sizes, OwnersOk, U32, LatestOf, Linked;
      ghost var e := EntryAt(input, pos, from);
      var size := 4 + U32(input.data, pos);
      OneMoreEntry(obj, done, e);
      if U32(input.data, pos + 4) == 0 {
        var next := SkipRelocations(input, from, pos + size);
        CieLengthsAppend(cies, input.data[pos..pos + size]);
        cies := cies + [input.data[pos..pos + size]];
        r := Ok(next);
      } else {
        var target, next := ScanFde(input, pos, from);
        if target.Err? { return Err(target.message); }
        var section := target.value;
        if section.Some? && section.value < |obj.sections| && obj.sections[section.value].kind.Loadable? {
          AddFrame(section.value, size % 0x1_0000_0000, input.relocations[from..next]);
        }
        r := Ok(next);
      }
    }

    method ProcessEhFrame(input: Input) returns (r: Result<()>)
      requires Valid() && LoadedSet() == {}
      modifies this`frames, this`lastFrame, this`owners, this`cies, this`ehFrameSize, this`trailing
      ensures r.Ok? <==> InputOk(obj, input)
      ensures r.Ok? ==>
                && Valid() && trailing == old(trailing) + |TrailingOf(input)|
                && Extends(old(owners), old(Sizes(frames)), old(CieLengths(cies)), EntriesOf(input))
    {
      hide Skip, Parse, Owner, Owners, FrameSizes, CieSizes, CieLengths, Sizes, OwnersOk, Extends, LatestOf, Linked, SpaceIn;
      NothingYet();
      var pos, from := 0, 0;
      ghost var o, z, c, done: seq<Entry> := owners, Sizes(frames), CieLengths(cies), [];
      AheadAtStart(input);
      while pos + PREFIX_LEN <= |input.data| && U32(input.data, pos) != 0
        invariant Ahead(input, done, pos, from) && Extends(o, z, c, done)
        invariant ehFrameSize == old(ehFrameSize) && trailing == old(trailing)
        decreases |input.data| - pos
      {
        AheadStep(input, done, pos, from);
        ghost var e := EntryAt(input, pos, from);
        var size := 4 + U32(input.data, pos);
        if pos + size > |input.data| { return Err("invalid .eh_frame data"); }
        var next := ProcessEntry(input, pos, from, o, z, c, done);
        if next.Err? {
          BadEntryIsSeen(obj, input, done, e, pos + size, Skip(input.relocations, from, pos + size));
          return Err(next.message);
        }
        done := done + [e];
        pos, from := pos + size, next.value;
      }
      AheadAtEnd(input, done, pos, from);
      DoneIsInput(input, done, o, z, c);
      NothingYet();
      if pos + PREFIX_LEN <= |input.data| { pos := |input.data|; }
      var remaining := input.data[pos..];
      if !IsTerminator(remaining) {
        ehFrameSize := ehFrameSize + |remaining|;
        trailing := trailing + |remaining|;
      }
      r := Ok(());
    }

    // Sums the frames of section s by walking its list backwards.
    method ProcessSectionExceptionFrames(s: nat) returns (space: Space)
      requires Threaded() && s < |obj.sections|
      ensures |owners| == |Sizes(frames)| && space == SpaceOf(owners, Sizes(frames), s)
    {
      hide SpaceOf, LatestOf;
      space := Space(0, 0);
      var next := lastFrame[s];
      ghost var n: nat := |owners|;
      assert owners[..n] == owners;
      while next.Some?
        invariant n <= |owners| && next == LatestOf(owners[..n], s)
        invariant Plus(SpaceUpTo(frames, owners, n, s), space) == SpaceUpTo(frames, owners, |owners|, s)
        decreases n
      {
        StepBack(frames, owners, n, s);
        var frame := frames[next.value];
        n := next.value;
        next := frame.previous;
        space := Plus(space, Space(frame.size, 1));
      }
      StepBack(frames, owners, n, s);
    }

    // A section that was discarded cannot be loaded. One that is already loaded, or of another kind, asks
    // for nothing.
    method HandleSectionLoadRequest(s: nat) returns (r: Result<()>)
      requires Valid() && s < |obj.sections|
      modifies this`loaded, this`ehFrameSize, this`hdrEntries
      ensures Valid() && (r.Ok? <==> !obj.sections[s].kind.Discarded?)
      ensures LoadedSet() == old(LoadedSet()) + if obj.sections[s].kind.Loadable? then {s} else {}
    {
      hide SpaceIn, SpaceOf, Linked, LatestOf;
      if obj.sections[s].kind.Discarded? {
        assert LoadedSet() == old(LoadedSet()) + {};
        return Err("Don't know what segment to put it in, but it's referenced");
      }
      if obj.sections[s].kind.Loadable? && !loaded[s] {
        ghost var before := LoadedSet();
        loaded := loaded[s := true];
        assert LoadedSet() == before + {s};
        if obj.sections[s].size > 0 {
          var space := ProcessSectionExceptionFrames(s);
          assert Live(obj, LoadedSet()) == Live(obj, before) + {s};
          OneMoreSection(owners, Sizes(frames), Live(obj, before), s);
          ehFrameSize := ehFrameSize + space.bytes;
          if writeHdr { hdrEntries := hdrEntries + space.hdrEntries; }
        } else {
          assert Live(obj, LoadedSet()) == Live(obj, before);
        }
      } else {
        assert LoadedSet() == old(LoadedSet()) + if obj.sections[s].kind.Loadable? then {s} else {};
      }
      r := Ok(());
    }

    // All CIEs are kept.
    method FinaliseObjectSizes()
      modifies this`ehFrameSize
      ensures ehFrameSize == old(ehFrameSize) + Sum(CieLengths(cies))
    {
      assert cies[..0] == [];
      for i := 0 to |cies|
        invariant ehFrameSize == old(ehFrameSize) + Sum(CieLengths(cies[..i]))
      {
        assert cies[..i + 1] == cies[..i] + [cies[i]];
        CieLengthsAppend(cies[..i], cies[i]);
        ehFrameSize := ehFrameSize + |cies[i]|;
      }
      assert cies[..|cies|] == cies;
    }
  }

  lemma LatestAfter(owners: seq<nat>, s: nat)
    ensures forall t: nat :: LatestOf(owners + [s], t) == if t == s then Some(|owners|) else LatestOf(owners, t)
  {
    assert (owners + [s])[..|owners|] == owners;
  }

  lemma LinkedAppend(frames: seq<Frame>, owners: seq<nat>, s: nat)
    requires |frames| == |owners| + 1 && Linked(frames[..|owners|], owners)
    requires frames[|owners|].previous == LatestOf(owners, s)
    ensures Linked(frames, owners + [s])
  {
    var more := owners + [s];
    forall i {:trigger frames[i]} | 0 <= i < |frames| ensures frames[i].previous == LatestOf(more[..i], more[i]) {
      assert more[..i] == owners[..i];
      if i < |owners| {
        assert frames[..|owners|][i] == frames[i];
      } else {
        assert owners[..i] == owners;
      }
    }
  }

  function CieLengths(cies: seq<seq<Byte>>): seq<nat> {
    if cies == [] then [] else CieLengths(cies[..|cies| - 1]) + [|cies[|cies| - 1]|]
  }

  lemma CieLengthsAppend(cies: seq<seq<Byte>>, bytes: seq<Byte>)
    ensures CieLengths(cies + [bytes]) == CieLengths(cies) + [|bytes|]
  {
    assert (cies + [bytes])[..|cies|] == cies;
  }

  predicate InputOk(obj: Object, input: Input) {
    Parse(input, 0, 0).Ok? && OwnersOk(obj, Parse(input, 0, 0).value.entries)
  }

  lemma {:induction false} ErrorSticks(obj: Object, e: Entry, n: nat, m: nat)
    requires n <= m <= |e.relocations| && LayoutTarget(obj, e, n).Err?
    ensures LayoutTarget(obj, e, m).Err?
  {
    if n < m { ErrorSticks(obj, e, n, m - 1); }
  }

  lemma OneMoreEntry(obj: Object, done: seq<Entry>, e: Entry)
    ensures Owners(obj, done + [e])
            == Owners(obj, done) + if HasOwner(obj, e) then [Owner(obj, e).value.value] else []
    ensures FrameSizes(obj, done + [e])
            == FrameSizes(obj, done) + if HasOwner(obj, e) then [FrameSize(e)] else []
    ensures CieSizes(done + [e]) == CieSizes(done) + if e.IsCie() then [e.size] else []
    ensures OwnersOk(obj, done + [e]) <==> OwnersOk(obj, done) && (e.IsCie() || Owner(obj, e).Ok?)
  {
    hide Owner;
    var more := done + [e];
    assert more[..|done|] == done && more[|done|] == e;
    assert forall i :: 0 <= i < |done| ==> more[i] == done[i];
    if OwnersOk(obj, more) {
      forall i | 0 <= i < |done| && !done[i].IsCie() ensures Owner(obj, done[i]).Ok? {
        assert more[i] == done[i];
      }
    }
  }

  lemma BadEntryIsSeen(obj: Object, input: Input, done: seq<Entry>, e: Entry, pos: nat, from: nat)
    requires Ahead(input, done + [e], pos, from) && !e.IsCie() && Owner(obj, e).Err?
    ensures !InputOk(obj, input)
  {
    hide Owner;
    var p := Parse(input, pos, from);
    if p.Ok? {
      var all := done + [e] + p.value.entries;
      assert all[|done|] == e;
    }
  }

  lemma {:induction false} CieSizesSum(entries: seq<Entry>)
    ensures Sum(CieSizes(entries)) == AllCieSpace(entries).bytes && AllCieSpace(entries).hdrEntries == 0
  {
    if entries != [] {
      var front, last := entries[..|entries| - 1], entries[|entries| - 1];
      CieSizesSum(front);
      if last.IsCie() {
        var sizes := CieSizes(entries);
        assert sizes[..|sizes| - 1] == CieSizes(front);
      }
    }
  }

  // ----- A whole object ------------------------------------------------------------------------

  function AllEntries(inputs: seq<Input>): seq<Entry> {
    if inputs == [] then [] else AllEntries(inputs[..|inputs| - 1]) + EntriesOf(inputs[|inputs| - 1])
  }

  function AllTrailing(inputs: seq<Input>): nat {
    if inputs == [] then 0 else AllTrailing(inputs[..|inputs| - 1]) + |TrailingOf(inputs[|inputs| - 1])|
  }

  ghost predicate AllInputsOk(obj: Object, inputs: seq<Input>) {
    forall i :: 0 <= i < |inputs| ==> InputOk(obj, inputs[i])
  }

  lemma {:induction false} ListsConcat(obj: Object, a: seq<Entry>, b: seq<Entry>)
    ensures Owners(obj, a + b) == Owners(obj, a) + Owners(obj, b)
    ensures FrameSizes(obj, a + b) == FrameSizes(obj, a) + FrameSizes(obj, b)
    ensures CieSizes(a + b) == CieSizes(a) + CieSizes(b)
  {
    hide Owners, FrameSizes, CieSizes, HasOwner, Owner, FrameSize;
    NoEntries(obj);
    if b == [] {
      assert a + b == a;
    } else {
      var front, last := b[..|b| - 1], b[|b| - 1];
      ListsConcat(obj, a, front);
      OneMoreEntry(obj, a + front, last);
      OneMoreEntry(obj, front, last);
      assert front + [last] == b && a + front + [last] == a + b;
    }
  }

  // The sections that a list of load requests leaves loaded.
  ghost function Requested(obj: Object, requests: seq<nat>): set<nat> {
    set s | s in requests && s < |obj.sections| && obj.sections[s].kind.Loadable?
  }

  ghost predicate NoneDiscarded(obj: Object, requests: seq<nat>) {
    forall i :: 0 <= i < |requests| && requests[i] < |obj.sections| ==> !obj.sections[requests[i]].kind.Discarded?
  }

  // Parse every .eh_frame section, serve the load requests in whatever order they come, then add the
  // CIEs.
  method LayoutObject(obj: Object, writeHdr: bool, inputs: seq<Input>, requests: seq<nat>)
    returns (r: Result<Space>)
    requires forall i :: 0 <= i < |requests| ==> requests[i] < |obj.sections|
    ensures r.Ok? <==> AllInputsOk(obj, inputs) && NoneDiscarded(obj, requests)
    ensures r.Ok? ==>
              var es := AllEntries(inputs);
              var counted := AllCountedSpace(obj, Requested(obj, requests), es);
              && r.value.bytes == counted.bytes + AllCieSpace(es).bytes + AllTrailing(inputs)
              && r.value.hdrEntries == (if writeHdr then counted.hdrEntries else 0)
  {
    hide InputOk, EntriesOf, TrailingOf, Owners, FrameSizes, CieSizes, AllCountedSpace, SpaceIn;
    var state := new ObjectLayoutState(obj, writeHdr);
    assert inputs[..0] == [];
    NoEntries(obj);
    for i := 0 to |inputs|
      invariant state.Valid() && state.obj == obj && state.writeHdr == writeHdr && state.LoadedSet() == {}
      invariant AllInputsOk(obj, inputs[..i]) && state.trailing == AllTrailing(inputs[..i])
      invariant state.owners == Owners(obj, AllEntries(inputs[..i]))
      invariant Sizes(state.frames) == FrameSizes(obj, AllEntries(inputs[..i]))
      invariant CieLengths(state.cies) == CieSizes(AllEntries(inputs[..i]))
    {
      assert inputs[..i + 1][..i] == inputs[..i];
      ListsConcat(obj, AllEntries(inputs[..i]), EntriesOf(inputs[i]));
      var done := state.ProcessEhFrame(inputs[i]);
      if done.Err? { return Err(done.message); }
    }
    assert inputs[..|inputs|] == inputs;
    ghost var es := AllEntries(inputs);
    for i := 0 to |requests|
      invariant state.Valid() && state.obj == obj && state.writeHdr == writeHdr
      invariant state.LoadedSet() == Requested(obj, requests[..i])
      invariant forall k :: 0 <= k < i ==> !obj.sections[requests[k]].kind.Discarded?
      invariant state.trailing == AllTrailing(inputs) && CieLengths(state.cies) == CieSizes(es)
      invariant state.owners == Owners(obj, es) && Sizes(state.frames) == FrameSizes(obj, es)
    {
      var served := state.HandleSectionLoadRequest(requests[i]);
      if served.Err? { return Err(served.message); }
      assert requests[..i + 1] == requests[..i] + [requests[i]];
    }
    assert requests[..|requests|] == requests;
    state.FinaliseObjectSizes();
    CieSizesSum(es);
    CountedIsLive(obj, Requested(obj, requests), es);
    r := Ok(Space(state.ehFrameSize, state.hdrEntries));
  }

  lemma NoEntries(obj: Object)
    ensures Owners(obj, []) == [] && FrameSizes(obj, []) == [] && CieSizes([]) == []
  {}
}
