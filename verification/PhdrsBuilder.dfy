// From linker scripts with PHDRS to the order of sections and segments.
module PhdrsBuilder {
  import opened Words
  import opened PhdrsEvents
  import opened PhdrsScan

  // ----- Spans of the segments -----------------------------------------------------------------

  // A LOAD segment that some section was assigned to, if any.
  ghost predicate UsedLoad(entries: seq<Entry>, last: seq<Option<nat>>, s: Option<nat>) {
    s.Some? ==> s.value < |entries| && s.value < |last| && entries[s.value].ptype == PT_LOAD && last[s.value].Some?
  }

  datatype Spans = Spans(first: seq<Option<nat>>, last: seq<Option<nat>>, firstLoad: Option<nat>,
                         firstExec: Option<nat>, firstRw: Option<nat>, firstRo: Option<nat>)

  ghost predicate PicksOk(entries: seq<Entry>, sp: Spans) {
    && UsedLoad(entries, sp.last, sp.firstLoad) && UsedLoad(entries, sp.last, sp.firstExec)
    && UsedLoad(entries, sp.last, sp.firstRw) && UsedLoad(entries, sp.last, sp.firstRo)
    && (sp.firstLoad.None? ==> forall s :: 0 <= s < |sp.last| && s < |entries| && sp.last[s].Some? ==> entries[s].ptype != PT_LOAD)
  }

  // Segment flags as in a program header: 1 is execute, 2 is write, 4 is read.
  predicate Executes(flags: bv32) {
    flags & 1 != 0
  }

  predicate Writes(flags: bv32) {
    flags & 2 != 0
  }

  predicate ExecutesOnly(flags: bv32) {
    Executes(flags) && !Writes(flags)
  }

  predicate WritesOnly(flags: bv32) {
    Writes(flags) && !Executes(flags)
  }

  predicate ReadsOnly(flags: bv32) {
    flags == 4
  }

  // Segment s is a LOAD that some section was assigned to.
  ghost predicate IsLoad(entries: seq<Entry>, sp: Spans, s: nat) {
    s < |entries| && s < |sp.last| && s < |sp.first| && entries[s].ptype == PT_LOAD && sp.last[s].Some? && sp.first[s].Some?
  }

  // The pick is a LOAD, and no LOAD that would do as well was assigned to earlier.
  ghost predicate IsFirst(entries: seq<Entry>, sp: Spans, pick: Option<nat>, s: nat) {
    pick.Some? && IsLoad(entries, sp, pick.value) && IsLoad(entries, sp, s) && sp.first[pick.value].value <= sp.first[s].value
  }

  // The flags decide which LOAD takes executable, writable and read-only sections: the first that is for
  // nothing else, if there is one, and for executable ones in any case one that executes, if there is one.
  ghost predicate PicksByFlags(entries: seq<Entry>, sp: Spans) {
    PickedKinds(entries, sp) && forall s: nat :: s < |entries| && IsLoad(entries, sp, s) ==> PickedFor(entries, sp, s)
  }

  ghost predicate PickedKinds(entries: seq<Entry>, sp: Spans) {
    && (sp.firstExec.Some? ==> IsLoad(entries, sp, sp.firstExec.value) && Executes(entries[sp.firstExec.value].flags))
    && (sp.firstRw.Some? ==> IsLoad(entries, sp, sp.firstRw.value) && Writes(entries[sp.firstRw.value].flags))
    && (sp.firstRo.Some? ==> IsLoad(entries, sp, sp.firstRo.value))
  }

  ghost predicate PickedFor(entries: seq<Entry>, sp: Spans, s: nat)
    requires IsLoad(entries, sp, s)
  {
    var flags := entries[s].flags;
    && IsFirst(entries, sp, sp.firstLoad, s)
    && (Executes(flags) ==> sp.firstExec.Some?)
    && (ExecutesOnly(flags) ==> IsFirst(entries, sp, sp.firstExec, s) && ExecutesOnly(entries[sp.firstExec.value].flags))
    && (WritesOnly(flags) ==> IsFirst(entries, sp, sp.firstRw, s) && WritesOnly(entries[sp.firstRw.value].flags))
    && (ReadsOnly(flags) ==> IsFirst(entries, sp, sp.firstRo, s) && ReadsOnly(entries[sp.firstRo.value].flags))
  }

  // Nothing was assigned from section pos on.
  ghost predicate Below(entries: seq<Entry>, sp: Spans, pos: nat) {
    |sp.first| == |sp.last| == |entries| && AssignedBelow(sp, pos)
  }

  ghost predicate AssignedBelow(sp: Spans, pos: nat)
    requires |sp.first| == |sp.last|
  {
    forall s :: 0 <= s < |sp.first| ==>
      (sp.first[s].Some? <==> sp.last[s].Some?) && (sp.first[s].Some? ==> sp.first[s].value <= pos)
  }

  ghost predicate SpansSoFar(headers: seq<Phdr>, sections: seq<Decl>, n: nat, j: nat, sp: Spans)
    requires n < |sections| && j <= |sections[n].phdrs|
  {
    && |sp.first| == |sp.last| == |headers|
    && forall s :: 0 <= s < |headers| ==>
         sp.first[s] == FirstSoFar(headers, sections, n, j, s) && sp.last[s] == LastSoFar(headers, sections, n, j, s)
  }

  ghost predicate SpansHold(headers: seq<Phdr>, sections: seq<Decl>, n: nat, sp: Spans)
    requires n <= |sections|
  {
    && |sp.first| == |sp.last| == |headers|
    && forall s :: 0 <= s < |headers| ==>
         sp.first[s] == FirstAssigned(headers, sections, n, s) && sp.last[s] == LastAssigned(headers, sections, n, s)
  }

  // Which of the three kinds of LOAD segment this one is the first of, going by flags.
  function Pick(entries: seq<Entry>, sp: Spans, s: nat): Spans
    requires s < |entries| && sp.firstExec.Some? ==> sp.firstExec.value < |entries|
    requires s < |entries| && sp.firstRw.Some? ==> sp.firstRw.value < |entries|
    requires s < |entries| && sp.firstRo.Some? ==> sp.firstRo.value < |entries|
    requires s < |entries|
  {
    var flags := entries[s].flags;
    if flags & PF_X != 0 && (sp.firstExec.None? || entries[sp.firstExec.value].flags & PF_W != 0) then
      sp.(firstExec := Some(s))
    else if flags & PF_W != 0 && (sp.firstRw.None? || entries[sp.firstRw.value].flags & PF_X != 0) then
      sp.(firstRw := Some(s))
    else if sp.firstRo.None? || entries[sp.firstRo.value].flags != PF_R then
      sp.(firstRo := Some(s))
    else sp
  }

  // Section number pos names segment s.
  function Cover(entries: seq<Entry>, sp: Spans, s: nat, pos: nat): Spans
    requires |sp.first| == |sp.last| == |entries| && s < |entries| && PicksOk(entries, sp)
  {
    var isLoad := entries[s].ptype == PT_LOAD;
    var covered := sp.(first := if sp.first[s].None? then sp.first[s := Some(pos)] else sp.first,
                       last := sp.last[s := Some(pos)],
                       firstLoad := if isLoad && sp.firstLoad.None? then Some(s) else sp.firstLoad);
    if isLoad then Pick(entries, covered, s) else covered
  }

  lemma CoverKeepsPicks(entries: seq<Entry>, sp: Spans, s: nat, pos: nat)
    requires |sp.first| == |sp.last| == |entries| && s < |entries| && PicksOk(entries, sp)
    ensures PicksOk(entries, Cover(entries, sp, s, pos))
  {}

  // ----- One more name of section pos ----------------------------------------------------------

  lemma FlagBits(flags: bv32)
    ensures Executes(flags) <==> flags & PF_X != 0
    ensures Writes(flags) <==> flags & PF_W != 0
    ensures ReadsOnly(flags) <==> flags == PF_R
    ensures ReadsOnly(flags) ==> !Executes(flags) && !Writes(flags)
  {}

  predicate TakesExec(entries: seq<Entry>, sp: Spans, s: nat)
    requires s < |entries| && PicksOk(entries, sp)
  {
    Executes(entries[s].flags) && (sp.firstExec.None? || Writes(entries[sp.firstExec.value].flags))
  }

  predicate TakesRw(entries: seq<Entry>, sp: Spans, s: nat)
    requires s < |entries| && PicksOk(entries, sp)
  {
    !TakesExec(entries, sp, s) && Writes(entries[s].flags) && (sp.firstRw.None? || Executes(entries[sp.firstRw.value].flags))
  }

  predicate TakesRo(entries: seq<Entry>, sp: Spans, s: nat)
    requires s < |entries| && PicksOk(entries, sp)
  {
    !TakesExec(entries, sp, s) && !TakesRw(entries, sp, s)
    && (sp.firstRo.None? || !ReadsOnly(entries[sp.firstRo.value].flags))
  }

  lemma CoverTakes(entries: seq<Entry>, sp: Spans, s: nat, pos: nat)
    requires |sp.first| == |sp.last| == |entries| && s < |entries| && PicksOk(entries, sp)
    ensures var c, isLoad := Cover(entries, sp, s, pos), entries[s].ptype == PT_LOAD;
            && c.firstLoad == (if isLoad && sp.firstLoad.None? then Some(s) else sp.firstLoad)
            && c.firstExec == (if isLoad && TakesExec(entries, sp, s) then Some(s) else sp.firstExec)
            && c.firstRw == (if isLoad && TakesRw(entries, sp, s) then Some(s) else sp.firstRw)
            && c.firstRo == (if isLoad && TakesRo(entries, sp, s) then Some(s) else sp.firstRo)
  {
    FlagBits(entries[s].flags);
    if sp.firstExec.Some? { FlagBits(entries[sp.firstExec.value].flags); }
    if sp.firstRw.Some? { FlagBits(entries[sp.firstRw.value].flags); }
    if sp.firstRo.Some? { FlagBits(entries[sp.firstRo.value].flags); }
    hide Executes, Writes, ReadsOnly;
  }

  // What was a LOAD that is assigned to stays one from the same place on; segment s becomes one if it is not.
  lemma CoverLoads(entries: seq<Entry>, sp: Spans, s: nat, pos: nat)
    requires Below(entries, sp, pos) && s < |entries| && PicksOk(entries, sp)
    ensures var c := Cover(entries, sp, s, pos);
            && Below(entries, c, pos)
            && (forall t: nat :: IsLoad(entries, sp, t) ==> IsLoad(entries, c, t) && c.first[t] == sp.first[t])
            && (forall t: nat :: IsLoad(entries, c, t) && !IsLoad(entries, sp, t) ==>
                 t == s && c.first[t] == Some(pos) && entries[s].ptype == PT_LOAD)
            && (entries[s].ptype == PT_LOAD ==> IsLoad(entries, c, s))
  {
    CoverSpans(entries, sp, s, pos);
    hide Cover;
  }

  // A pick that stays, or is made now, is first among those it was first of, and of segments that come now.
  lemma StaysFirst(entries: seq<Entry>, sp: Spans, s: nat, pos: nat, pick: Option<nat>, t: nat)
    requires Below(entries, sp, pos) && s < |entries| && PicksOk(entries, sp)
    requires t < |entries| && IsLoad(entries, Cover(entries, sp, s, pos), t) && pick.Some? && IsLoad(entries, sp, pick.value)
    requires IsLoad(entries, sp, t) ==> IsFirst(entries, sp, pick, t)
    ensures IsFirst(entries, Cover(entries, sp, s, pos), pick, t)
  {
    CoverLoads(entries, sp, s, pos);
    hide Cover, PicksOk;
  }

  lemma CoverExec(entries: seq<Entry>, sp: Spans, s: nat, pos: nat, t: nat)
    requires Below(entries, sp, pos) && s < |entries| && PicksOk(entries, sp) && PicksByFlags(entries, sp)
    requires t < |entries| && IsLoad(entries, Cover(entries, sp, s, pos), t)
    ensures var c, flags := Cover(entries, sp, s, pos), entries[t].flags;
            && (Executes(flags) ==> c.firstExec.Some?)
            && (ExecutesOnly(flags) ==> IsFirst(entries, c, c.firstExec, t) && ExecutesOnly(entries[c.firstExec.value].flags))
  {
    hide Cover, Executes, Writes, AssignedBelow, IsLoad;
    CoverLoads(entries, sp, s, pos);
    CoverTakes(entries, sp, s, pos);
    if IsLoad(entries, sp, t) { assert PickedFor(entries, sp, t); }
    if ExecutesOnly(entries[t].flags) && !(entries[s].ptype == PT_LOAD && TakesExec(entries, sp, s)) {
      StaysFirst(entries, sp, s, pos, sp.firstExec, t);
    }
  }

  lemma CoverRw(entries: seq<Entry>, sp: Spans, s: nat, pos: nat, t: nat)
    requires Below(entries, sp, pos) && s < |entries| && PicksOk(entries, sp) && PicksByFlags(entries, sp)
    requires t < |entries| && IsLoad(entries, Cover(entries, sp, s, pos), t) && WritesOnly(entries[t].flags)
    ensures var c := Cover(entries, sp, s, pos);
            IsFirst(entries, c, c.firstRw, t) && WritesOnly(entries[c.firstRw.value].flags)
  {
    hide Cover, Executes, Writes, AssignedBelow, IsLoad;
    CoverLoads(entries, sp, s, pos);
    CoverTakes(entries, sp, s, pos);
    if IsLoad(entries, sp, t) { assert PickedFor(entries, sp, t); }
    if !(entries[s].ptype == PT_LOAD && TakesRw(entries, sp, s)) { StaysFirst(entries, sp, s, pos, sp.firstRw, t); }
  }

  lemma CoverRo(entries: seq<Entry>, sp: Spans, s: nat, pos: nat, t: nat)
    requires Below(entries, sp, pos) && s < |entries| && PicksOk(entries, sp) && PicksByFlags(entries, sp)
    requires t < |entries| && IsLoad(entries, Cover(entries, sp, s, pos), t) && ReadsOnly(entries[t].flags)
    ensures var c := Cover(entries, sp, s, pos);
            IsFirst(entries, c, c.firstRo, t) && ReadsOnly(entries[c.firstRo.value].flags)
  {
    hide Cover, Executes, Writes, ReadsOnly, AssignedBelow, IsLoad;
    CoverLoads(entries, sp, s, pos);
    CoverTakes(entries, sp, s, pos);
    FlagBits(entries[t].flags);
    if IsLoad(entries, sp, t) { assert PickedFor(entries, sp, t); }
    if !(entries[s].ptype == PT_LOAD && TakesRo(entries, sp, s)) { StaysFirst(entries, sp, s, pos, sp.firstRo, t); }
  }

  lemma CoverFirst(entries: seq<Entry>, sp: Spans, s: nat, pos: nat, t: nat)
    requires Below(entries, sp, pos) && s < |entries| && PicksOk(entries, sp) && PicksByFlags(entries, sp)
    requires t < |entries| && IsLoad(entries, Cover(entries, sp, s, pos), t)
    ensures var c := Cover(entries, sp, s, pos); IsFirst(entries, c, c.firstLoad, t)
  {
    hide Cover, TakesExec, TakesRw, TakesRo, AssignedBelow, IsLoad;
    CoverLoads(entries, sp, s, pos);
    CoverTakes(entries, sp, s, pos);
    if IsLoad(entries, sp, t) { assert PickedFor(entries, sp, t); }
    if sp.firstLoad.Some? {
      FirstIsLoad(entries, sp, pos);
      StaysFirst(entries, sp, s, pos, sp.firstLoad, t);
    }
  }

  lemma FirstIsLoad(entries: seq<Entry>, sp: Spans, pos: nat)
    requires Below(entries, sp, pos) && PicksOk(entries, sp) && sp.firstLoad.Some?
    ensures IsLoad(entries, sp, sp.firstLoad.value)
  {}

  lemma CoverKinds(entries: seq<Entry>, sp: Spans, s: nat, pos: nat)
    requires Below(entries, sp, pos) && s < |entries| && PicksOk(entries, sp) && PicksByFlags(entries, sp)
    ensures PickedKinds(entries, Cover(entries, sp, s, pos))
  {
    hide Cover, Executes, Writes, AssignedBelow, IsLoad, PickedFor;
    CoverLoads(entries, sp, s, pos);
    CoverTakes(entries, sp, s, pos);
  }

  lemma CoverKeepsFlags(entries: seq<Entry>, sp: Spans, s: nat, pos: nat)
    requires Below(entries, sp, pos) && s < |entries| && PicksOk(entries, sp) && PicksByFlags(entries, sp)
    ensures var c := Cover(entries, sp, s, pos); Below(entries, c, pos) && PicksByFlags(entries, c)
  {
    hide IsFirst, AssignedBelow, IsLoad, Cover, PickedKinds, Executes, Writes, ReadsOnly, PicksOk;
    var c := Cover(entries, sp, s, pos);
    CoverKinds(entries, sp, s, pos);
    CoverLoads(entries, sp, s, pos);
    forall t: nat | t < |entries| && IsLoad(entries, c, t) ensures PickedFor(entries, c, t) {
      CoverFirst(entries, sp, s, pos, t);
      CoverExec(entries, sp, s, pos, t);
      if WritesOnly(entries[t].flags) { CoverRw(entries, sp, s, pos, t); }
      if ReadsOnly(entries[t].flags) { CoverRo(entries, sp, s, pos, t); }
    }
  }

  lemma SoFarStarts(headers: seq<Phdr>, sections: seq<Decl>, n: nat, sp: Spans)
    requires n < |sections| && SpansHold(headers, sections, n, sp)
    ensures SpansSoFar(headers, sections, n, 0, sp)
  {
    hide FirstSoFar, LastSoFar, FirstAssigned, LastAssigned;
    forall s: nat { SoFarEnds(headers, sections, n, s); }
  }

  lemma SoFarDone(headers: seq<Phdr>, sections: seq<Decl>, n: nat, sp: Spans)
    requires n < |sections| && SpansSoFar(headers, sections, n, |sections[n].phdrs|, sp)
    ensures SpansHold(headers, sections, n + 1, sp)
  {
    hide FirstSoFar, LastSoFar, FirstAssigned, LastAssigned;
    forall s: nat { SoFarEnds(headers, sections, n, s); }
  }

  lemma SoFarCover(entries: seq<Entry>, headers: seq<Phdr>, sections: seq<Decl>, n: nat, j: nat, sp: Spans)
    requires |entries| == |headers| && n < |sections| && j < |sections[n].phdrs|
    requires SpansSoFar(headers, sections, n, j, sp) && PicksOk(entries, sp)
    ensures var t := Named(headers, sections[n].phdrs[j]);
            SpansSoFar(headers, sections, n, j + 1, if t.Some? then Cover(entries, sp, t.value, n) else sp)
  {
    hide FirstSoFar, LastSoFar, PicksOk, Cover;
    forall s: nat { SoFarStep(headers, sections, n, j, s); }
    var t := Named(headers, sections[n].phdrs[j]);
    if t.Some? { CoverSpans(entries, sp, t.value, n); }
  }

  method CoverSection(entries: seq<Entry>, names: map<string, nat>, sections: seq<Decl>, pos: nat, sp: Spans,
                      ghost headers: seq<Phdr>) returns (sp': Spans)
    requires |entries| == |headers| && NamesMatch(names, headers) && pos < |sections|
    requires SpansHold(headers, sections, pos, sp) && PicksOk(entries, sp)
    requires Below(entries, sp, pos) && PicksByFlags(entries, sp)
    ensures SpansHold(headers, sections, pos + 1, sp') && PicksOk(entries, sp')
    ensures Below(entries, sp', pos + 1) && PicksByFlags(entries, sp')
  {
    hide Cover, SpansHold, FirstSoFar, LastSoFar, PicksOk, NamesMatch, Named, Below, PicksByFlags;
    sp' := sp;
    SoFarStarts(headers, sections, pos, sp);
    for j := 0 to |sections[pos].phdrs|
      invariant SpansSoFar(headers, sections, pos, j, sp') && PicksOk(entries, sp')
      invariant Below(entries, sp', pos) && PicksByFlags(entries, sp')
    {
      var name := sections[pos].phdrs[j];
      NamesLookup(names, headers, name);
      SoFarCover(entries, headers, sections, pos, j, sp');
      if name in names {
        CoverKeepsPicks(entries, sp', names[name], pos);
        CoverKeepsFlags(entries, sp', names[name], pos);
        sp' := Cover(entries, sp', names[name], pos);
      }
    }
    SoFarDone(headers, sections, pos, sp');
    BelowNext(entries, sp', pos);
  }

  method FindSpans(entries: seq<Entry>, names: map<string, nat>, sections: seq<Decl>, ghost headers: seq<Phdr>)
    returns (sp: Spans)
    requires |entries| == |headers| && NamesMatch(names, headers)
    ensures SpansHold(headers, sections, |sections|, sp) && PicksOk(entries, sp)
    ensures PicksByFlags(entries, sp)
  {
    hide NamesMatch, SpansHold, PicksOk, Below, PicksByFlags;
    var none := seq(|entries|, _ => None);
    sp := Spans(none, none, None, None, None, None);
    NothingSpanned(entries, headers, sections, sp);
    for pos := 0 to |sections|
      invariant SpansHold(headers, sections, pos, sp) && PicksOk(entries, sp)
      invariant Below(entries, sp, pos) && PicksByFlags(entries, sp)
    {
      sp := CoverSection(entries, names, sections, pos, sp, headers);
    }
  }

  lemma NothingSpanned(entries: seq<Entry>, headers: seq<Phdr>, sections: seq<Decl>, sp: Spans)
    requires |entries| == |headers|
    requires var none := seq(|entries|, _ => None); sp == Spans(none, none, None, None, None, None)
    ensures SpansHold(headers, sections, 0, sp) && PicksOk(entries, sp) && Below(entries, sp, 0) && PicksByFlags(entries, sp)
  {
    NothingAssigned(headers, sections);
    hide PickedFor;
  }

  lemma BelowNext(entries: seq<Entry>, sp: Spans, pos: nat)
    requires Below(entries, sp, pos)
    ensures Below(entries, sp, pos + 1)
  {}

  lemma CoverSpans(entries: seq<Entry>, sp: Spans, s: nat, pos: nat)
    requires |sp.first| == |sp.last| == |entries| && s < |entries| && PicksOk(entries, sp)
    ensures var c := Cover(entries, sp, s, pos);
            && c.first == (if sp.first[s].None? then sp.first[s := Some(pos)] else sp.first)
            && c.last == sp.last[s := Some(pos)]
  {}

  lemma NothingAssigned(headers: seq<Phdr>, sections: seq<Decl>)
    ensures forall s: nat :: FirstAssigned(headers, sections, 0, s) == None && LastAssigned(headers, sections, 0, s) == None
  {}

  // ----- Emission ------------------------------------------------------------------------------

  // Header events as collected: a category and a segment.
  datatype Tagged = Tagged(category: nat, segment: nat)

  function RuleOf(category: nat): Rule {
    if category == 0 then OpensAtFileHeader
    else if category == 1 then ClosesAfterFileHeader
    else if category == 2 then OpensAtProgramHeaders
    else if category == 3 then ClosesAfterProgramHeaders
    else OpensAt(0)
  }

  function OfCategory(v: seq<Tagged>, category: nat): seq<nat> {
    if v == [] then []
    else
      var front, last := OfCategory(v[..|v| - 1], category), v[|v| - 1];
      if last.category == category then front + [last.segment] else front
  }

  function Tag(category: nat, segments: seq<nat>): (r: seq<Tagged>)
    ensures |r| == |segments| && forall i :: 0 <= i < |r| ==> r[i] == Tagged(category, segments[i])
  {
    seq(|segments|, i requires 0 <= i < |segments| => Tagged(category, segments[i]))
  }

  // A stable sort by category, of categories 0 to 4.
  function SortedByCategory(v: seq<Tagged>): seq<Tagged> {
    Tag(0, OfCategory(v, 0)) + (Tag(1, OfCategory(v, 1)) + (Tag(2, OfCategory(v, 2))
      + (Tag(3, OfCategory(v, 3)) + Tag(4, OfCategory(v, 4)))))
  }

  function Push(v: seq<Tagged>, category: nat, s: nat): (r: seq<Tagged>)
    ensures forall c: nat :: OfCategory(r, c) == if category == c then OfCategory(v, c) + [s] else OfCategory(v, c)
  {
    assert (v + [Tagged(category, s)])[..|v|] == v;
    v + [Tagged(category, s)]
  }

  ghost predicate Collected(p: Plan, v: seq<Tagged>, n: nat)
    requires n <= |p.segments|
  {
    forall c: nat :: c < 5 ==> OfCategory(v, c) == Where(p, RuleOf(c), n)
  }

  // The segments of one category from the front of what is left of the sorted list.
  method NextOfCategory(v: seq<Tagged>, category: nat, ghost segments: seq<nat>, ghost rest: seq<Tagged>)
    returns (r: seq<nat>, v': seq<Tagged>)
    requires v == Tag(category, segments) + rest
    requires forall i :: 0 <= i < |rest| ==> rest[i].category > category
    ensures r == segments && v' == rest
  {
    r, v' := [], v;
    while |v'| > 0 && v'[0].category == category
      invariant |r| <= |segments| && r == segments[..|r|] && v' == v[|r|..]
      invariant |r| < |segments| ==> |v'| > 0 && v'[0] == Tag(category, segments)[|r|]
      decreases |v'|
    {
      r := r + [v'[0].segment];
      v' := v'[1..];
    }
  }

  method CollectHeaderEvents(p: Plan) returns (v: seq<Tagged>)
    ensures Collected(p, v, |p.segments|)
  {
    hide OfCategory, Where;
    v := [];
    NothingCollected(p);
    for s := 0 to |p.segments|
      invariant Collected(p, v, s)
    {
      ghost var v0 := v;
      var g := p.segments[s];
      if g.hasFilehdr {
        v := Push(v, 0, s);
        if g.last.None? && !g.hasPhdrs { v := Push(v, 1, s); }
      } else if g.hasPhdrs {
        v := Push(v, 2, s);
      } else if g.first == Some(0) {
        v := Push(v, 4, s);
      }
      if g.last.None? && g.hasPhdrs { v := Push(v, 3, s); }
      CollectedStep(p, v0, v, s);
    }
  }

  lemma NothingCollected(p: Plan)
    ensures Collected(p, [], 0)
  {}

  lemma CollectedStep(p: Plan, v: seq<Tagged>, v': seq<Tagged>, s: nat)
    requires s < |p.segments| && Collected(p, v, s)
    requires forall c: nat :: c < 5 ==>
               OfCategory(v', c) == if Applies(p, RuleOf(c), s) then OfCategory(v, c) + [s] else OfCategory(v, c)
    ensures Collected(p, v', s + 1)
  {
    hide OfCategory, RuleOf, Applies;
  }

  lemma CollectedAll(p: Plan, v: seq<Tagged>)
    requires Collected(p, v, |p.segments|)
    ensures OfCategory(v, 0) == All(p, OpensAtFileHeader) && OfCategory(v, 1) == All(p, ClosesAfterFileHeader)
    ensures OfCategory(v, 2) == All(p, OpensAtProgramHeaders) && OfCategory(v, 3) == All(p, ClosesAfterProgramHeaders)
    ensures OfCategory(v, 4) == All(p, OpensAt(0))
  {
    hide OfCategory, Where;
    assert OfCategory(v, 0) == Where(p, RuleOf(0), |p.segments|);
  }

  method EmitHeaderEvents(p: Plan) returns (events: seq<Event>)
    ensures events == HeaderEvents(p)
  {
    hide OfCategory, All, Starts, Ends, Collected;
    var v := CollectHeaderEvents(p);
    CollectedAll(p, v);
    ghost var l0, l1, l2, l3, l4 := OfCategory(v, 0), OfCategory(v, 1), OfCategory(v, 2), OfCategory(v, 3), OfCategory(v, 4);
    ghost var t3 := Tag(3, l3) + Tag(4, l4);
    ghost var t2 := Tag(2, l2) + t3;
    ghost var t1 := Tag(1, l1) + t2;
    var rest := SortedByCategory(v);
    var segments;
    segments, rest := NextOfCategory(rest, 0, l0, t1);
    events := Starts(segments) + [Section(FileHeader)];
    segments, rest := NextOfCategory(rest, 1, l1, t2);
    events := events + Ends(segments);
    segments, rest := NextOfCategory(rest, 2, l2, t3);
    events := events + Starts(segments) + [Section(ProgramHeaders)];
    segments, rest := NextOfCategory(rest, 3, l3, Tag(4, l4));
    events := events + Ends(segments) + [Section(SectionHeaders)];
    assert rest == Tag(4, l4) + [];
    segments, rest := NextOfCategory(rest, 4, l4, []);
    events := events + Starts(segments);
  }

  lemma StartsAppend(segments: seq<nat>, t: nat)
    ensures Starts(segments + [t]) == Starts(segments) + [SegmentStart(t)]
  {}

  lemma SectionsAppend(a: seq<SectionId>, b: seq<SectionId>)
    ensures Sections(a + b) == Sections(a) + Sections(b)
  {}

  // Segments without headers that start with section number pos.
  method OpenSegments(p: Plan, pos: nat) returns (events: seq<Event>)
    ensures events == Starts(All(p, OpensAt(pos)))
  {
    events := [];
    for s := 0 to |p.segments|
      invariant events == Starts(Where(p, OpensAt(pos), s))
    {
      var g := p.segments[s];
      if g.first == Some(pos) && !g.hasFilehdr && !g.hasPhdrs {
        StartsAppend(Where(p, OpensAt(pos), s), s);
        events := events + [SegmentStart(s)];
      }
    }
  }

  lemma ThreeLists(a: seq<SectionId>, b: seq<SectionId>, c: seq<SectionId>)
    ensures Sections(a + b + c) == Sections(a) + Sections(b) + Sections(c)
  {
    SectionsAppend(a, b);
    SectionsAppend(a + b, c);
  }

  // The sections that segment s takes, one list after another.
  method TakeSections(p: Plan, s: nat) returns (events: seq<Event>)
    ensures events == Sections(Taken(p, s))
  {
    hide Sections;
    var c := p.custom;
    var exec, rw, ro := [], [], [];
    if s == p.execTaker { exec := Sections(c.exec); }
    if s == p.rwTaker {
      rw := Sections(c.tdata) + Sections(c.tbss) + Sections(c.data) + Sections(c.bss);
      ThreeLists(c.tdata, c.tbss, c.data);
      SectionsAppend(c.tdata + c.tbss + c.data, c.bss);
    }
    if s == p.roTaker { ro := Sections(c.ro); }
    events := exec + rw + ro;
    ThreeLists(if s == p.execTaker then c.exec else [],
               if s == p.rwTaker then c.tdata + c.tbss + c.data + c.bss else [],
               if s == p.roTaker then c.ro else []);
  }

  method CloseSegments(p: Plan, pos: nat) returns (events: seq<Event>)
    ensures events == ClosingEvents(p, pos, |p.segments|)
  {
    hide Taken;
    events := [];
    for s := 0 to |p.segments|
      invariant events == ClosingEvents(p, pos, s)
    {
      if p.segments[s].last == Some(pos) {
        var taken := TakeSections(p, s);
        events := events + (taken + [SegmentEnd(s)]);
      }
    }
  }

  method EmitTail(p: Plan) returns (events: seq<Event>)
    ensures events == TailEvents(p)
  {
    events := [];
    var nonalloc := p.custom.nonalloc;
    for i := 0 to |nonalloc|
      invariant events == Sections(IsNotRiscvAttributes(nonalloc[..i]))
    {
      assert nonalloc[..i + 1][..i] == nonalloc[..i];
      SectionsAppend(IsNotRiscvAttributes(nonalloc[..i]), [nonalloc[i]]);
      if nonalloc[i] != RiscvAttributes { events := events + [Section(nonalloc[i])]; }
    }
    assert nonalloc[..|nonalloc|] == nonalloc;
    for s := 0 to |p.segments|
      invariant events == Sections(IsNotRiscvAttributes(nonalloc)) + EmptySegments(p, s)
    {
      if !p.segments[s].isEmitted { events := events + [SegmentStart(s), SegmentEnd(s)]; }
    }
    var riscv := |p.segments|;
    events := events + [SegmentStart(riscv), Section(RiscvAttributes), SegmentEnd(riscv)];
  }

  method EmitEvents(p: Plan) returns (events: seq<Event>)
    ensures events == AllEvents(p)
  {
    hide ClosingEvents, HeaderEvents, TailEvents;
    events := [];
    for pos := 0 to |p.sections|
      invariant events == SectionEvents(p, pos)
    {
      var opening, closing;
      if pos == 0 {
        opening := EmitHeaderEvents(p);
      } else {
        opening := OpenSegments(p, pos);
      }
      closing := CloseSegments(p, pos);
      events := events + opening + [Section(p.sections[pos])] + closing;
    }
    var tail := EmitTail(p);
    events := events + tail;
  }

  // ----- The whole construction ----------------------------------------------------------------

  function Ids(sections: seq<Decl>): (r: seq<SectionId>)
    ensures |r| == |sections| && forall i :: 0 <= i < |r| ==> r[i] == sections[i].id
  {
    seq(|sections|, i requires 0 <= i < |sections| => sections[i].id)
  }

  // Some section was assigned to segment s, a LOAD.
  predicate IsUsedLoad(headers: seq<Phdr>, sections: seq<Decl>, s: nat) {
    s < |headers| && headers[s].ptype == 1 && LastAssigned(headers, sections, |sections|, s).Some?
  }

  ghost predicate Accepted(scripts: seq<Script>) {
    && LoadsInOrder(Headers(scripts)) && ScriptsOk(scripts, |scripts|)
    && exists s: nat :: IsUsedLoad(Headers(scripts), Decls(scripts), s)
  }

  ghost predicate SegmentOf(scripts: seq<Script>, s: nat, g: Segment)
    requires s < |Headers(scripts)|
  {
    var headers, sections := Headers(scripts), Decls(scripts);
    && g.hasFilehdr == headers[s].hasFilehdr && g.hasPhdrs == headers[s].hasPhdrs
    && (g.isEmitted <==> g.HasHeader() || s in AllMarks(scripts))
    && g.first == FirstAssigned(headers, sections, |sections|, s)
    && g.last == LastAssigned(headers, sections, |sections|, s)
  }

  // The plan that the scripts call for. TakersByFlags says which of the used LOAD segments take the
  // unnamed sections.
  ghost predicate PlanOf(scripts: seq<Script>, custom: Custom, p: Plan) {
    var headers, sections := Headers(scripts), Decls(scripts);
    && p.custom == custom && p.sections == Ids(sections) && |p.segments| == |headers|
    && (forall s :: 0 <= s < |headers| ==> SegmentOf(scripts, s, p.segments[s]))
    && IsUsedLoad(headers, sections, p.execTaker) && IsUsedLoad(headers, sections, p.rwTaker)
    && IsUsedLoad(headers, sections, p.roTaker)
  }

  // The flags of segment s once all scripts are read.
  function SegmentFlags(scripts: seq<Script>, s: nat): bv32
    requires s < |Headers(scripts)|
  {
    FlagsOf(Headers(scripts)[s], Called(AllCalls(scripts), s))
  }

  // No section comes earlier in segment s than the first one in segment t.
  ghost predicate NotAfter(scripts: seq<Script>, t: nat, s: nat) {
    var headers, sections := Headers(scripts), Decls(scripts);
    && IsUsedLoad(headers, sections, t) && IsUsedLoad(headers, sections, s)
    && var first, other := FirstAssigned(headers, sections, |sections|, t), FirstAssigned(headers, sections, |sections|, s);
       first.Some? && other.Some? && first.value <= other.value
  }

  // What the takers are as far as segment s is concerned.
  ghost predicate TakersFor(scripts: seq<Script>, p: Plan, s: nat)
    requires IsUsedLoad(Headers(scripts), Decls(scripts), s) && TakersUsed(scripts, p)
  {
    var flags := SegmentFlags(scripts, s);
    var exec, rw, ro := SegmentFlags(scripts, p.execTaker), SegmentFlags(scripts, p.rwTaker), SegmentFlags(scripts, p.roTaker);
    && (Executes(flags) ==> Executes(exec))
    && (ExecutesOnly(flags) ==> ExecutesOnly(exec) && NotAfter(scripts, p.execTaker, s))
    && (WritesOnly(flags) ==> WritesOnly(rw) && NotAfter(scripts, p.rwTaker, s))
    && (ReadsOnly(flags) ==> ReadsOnly(ro) && NotAfter(scripts, p.roTaker, s))
    && (Executes(exec) || NotAfter(scripts, p.execTaker, s))
    && (Writes(rw) || NotAfter(scripts, p.rwTaker, s))
  }

  ghost predicate TakersUsed(scripts: seq<Script>, p: Plan) {
    var headers, sections := Headers(scripts), Decls(scripts);
    && IsUsedLoad(headers, sections, p.execTaker) && IsUsedLoad(headers, sections, p.rwTaker)
    && IsUsedLoad(headers, sections, p.roTaker)
  }

  // Unnamed executable sections go to the first used LOAD segment that executes and cannot be written, if
  // there is one, else to one that executes, if there is one, else to the first used LOAD segment. In the
  // same way writable ones go to the first that cannot execute, and read-only ones to the first that can
  // only be read.
  ghost predicate TakersByFlags(scripts: seq<Script>, p: Plan) {
    && TakersUsed(scripts, p)
    && forall s: nat :: IsUsedLoad(Headers(scripts), Decls(scripts), s) ==> TakersFor(scripts, p, s)
  }

  function Or(a: Option<nat>, b: nat): nat {
    if a.Some? then a.value else b
  }

  function MakePlan(entries: seq<Entry>, sections: seq<Decl>, sp: Spans, custom: Custom): Plan
    requires |sp.first| == |sp.last| == |entries| && sp.firstLoad.Some?
  {
    var load := sp.firstLoad.value;
    Plan(Ids(sections),
         seq(|entries|, s requires 0 <= s < |entries| =>
           Segment(entries[s].hasFilehdr, entries[s].hasPhdrs, entries[s].isEmitted, sp.first[s], sp.last[s])),
         custom, Or(sp.firstExec, load), Or(sp.firstRw, load), Or(sp.firstRo, load))
  }

  lemma MakePlanHolds(scripts: seq<Script>, entries: seq<Entry>, sp: Spans, custom: Custom)
    requires var headers, sections := Headers(scripts), Decls(scripts);
             EntriesMatch(entries, headers, AllMarks(scripts), AllCalls(scripts)) && SpansHold(headers, sections, |sections|, sp)
    requires |entries| == |Headers(scripts)| && PicksOk(entries, sp) && sp.firstLoad.Some?
    ensures PlanOf(scripts, custom, MakePlan(entries, Decls(scripts), sp, custom))
    ensures exists s: nat :: IsUsedLoad(Headers(scripts), Decls(scripts), s)
  {
    hide FirstAssigned, LastAssigned, Headers, Decls, AllMarks;
    UsedIsUsedLoad(scripts, entries, sp, sp.firstLoad);
    UsedIsUsedLoad(scripts, entries, sp, sp.firstExec);
    UsedIsUsedLoad(scripts, entries, sp, sp.firstRw);
    UsedIsUsedLoad(scripts, entries, sp, sp.firstRo);
  }

  lemma MakePlanTakes(scripts: seq<Script>, entries: seq<Entry>, sp: Spans, custom: Custom)
    requires var headers, sections := Headers(scripts), Decls(scripts);
             EntriesMatch(entries, headers, AllMarks(scripts), AllCalls(scripts)) && SpansHold(headers, sections, |sections|, sp)
    requires |entries| == |Headers(scripts)| && PicksOk(entries, sp) && PicksByFlags(entries, sp) && sp.firstLoad.Some?
    ensures TakersByFlags(scripts, MakePlan(entries, Decls(scripts), sp, custom))
  {
    hide FirstAssigned, LastAssigned, Headers, Decls, AllMarks, AllCalls, Called, FlagsOf, Ids, PlanOf;
    hide Executes, Writes, ReadsOnly, IsLoad, IsUsedLoad, SegmentFlags, PickedFor, PicksOk, EntriesMatch, SpansHold;
    SpansLength(Headers(scripts), Decls(scripts), |Decls(scripts)|, sp);
    MakePlanHolds(scripts, entries, sp, custom);
    var p := MakePlan(entries, Decls(scripts), sp, custom);
    PlanUses(scripts, custom, p);
    forall s: nat | IsUsedLoad(Headers(scripts), Decls(scripts), s) ensures TakersFor(scripts, p, s) {
      LoadIsUsed(scripts, entries, sp, s);
      assert PickedFor(entries, sp, s);
      PickedTakes(scripts, entries, sp, p, s);
    }
  }

  lemma PickedTakes(scripts: seq<Script>, entries: seq<Entry>, sp: Spans, p: Plan, s: nat)
    requires var headers, sections := Headers(scripts), Decls(scripts);
             EntriesMatch(entries, headers, AllMarks(scripts), AllCalls(scripts)) && SpansHold(headers, sections, |sections|, sp)
    requires IsUsedLoad(Headers(scripts), Decls(scripts), s) && TakersUsed(scripts, p)
    requires IsLoad(entries, sp, s) && PickedFor(entries, sp, s) && PickedKinds(entries, sp) && sp.firstLoad.Some?
    requires p.execTaker == Or(sp.firstExec, sp.firstLoad.value) && p.rwTaker == Or(sp.firstRw, sp.firstLoad.value)
    requires p.roTaker == Or(sp.firstRo, sp.firstLoad.value)
    ensures TakersFor(scripts, p, s)
  {
    hide FirstAssigned, Headers, Decls, AllMarks, AllCalls, IsUsedLoad, SegmentFlags, EntriesMatch, SpansHold;
    hide Executes, Writes, ReadsOnly, IsLoad, IsFirst, NotAfter;
    LoadIsUsed(scripts, entries, sp, s);
    LoadIsUsed(scripts, entries, sp, p.execTaker);
    LoadIsUsed(scripts, entries, sp, p.rwTaker);
    LoadIsUsed(scripts, entries, sp, p.roTaker);
    FirstIsNotAfter(scripts, entries, sp, sp.firstLoad, s);
    var flags := entries[s].flags;
    if ExecutesOnly(flags) { FirstIsNotAfter(scripts, entries, sp, sp.firstExec, s); }
    if WritesOnly(flags) { FirstIsNotAfter(scripts, entries, sp, sp.firstRw, s); }
    if ReadsOnly(flags) { FirstIsNotAfter(scripts, entries, sp, sp.firstRo, s); }
  }

  lemma PlanUses(scripts: seq<Script>, custom: Custom, p: Plan)
    requires PlanOf(scripts, custom, p)
    ensures TakersUsed(scripts, p)
  {
    hide SegmentOf, Headers, Decls, IsUsedLoad;
  }

  lemma LoadIsUsed(scripts: seq<Script>, entries: seq<Entry>, sp: Spans, s: nat)
    requires var headers, sections := Headers(scripts), Decls(scripts);
             EntriesMatch(entries, headers, AllMarks(scripts), AllCalls(scripts)) && SpansHold(headers, sections, |sections|, sp)
    ensures IsUsedLoad(Headers(scripts), Decls(scripts), s) <==> IsLoad(entries, sp, s)
    ensures IsLoad(entries, sp, s) ==>
      && s < |entries| && s < |Headers(scripts)| && s < |sp.first| && entries[s].flags == SegmentFlags(scripts, s)
      && FirstAssigned(Headers(scripts), Decls(scripts), |Decls(scripts)|, s) == sp.first[s] && sp.first[s].Some?
  {
    hide Headers, Decls, AllMarks, AllCalls, Called, FlagsOf, Assigned;
    var headers, sections := Headers(scripts), Decls(scripts);
    if s < |headers| { EntriesAt(entries, headers, AllMarks(scripts), AllCalls(scripts), s); }
    EntriesLength(entries, headers, AllMarks(scripts), AllCalls(scripts));
    BothAssigned(headers, sections, |sections|, s);
  }

  lemma BothAssigned(headers: seq<Phdr>, sections: seq<Decl>, n: nat, s: nat)
    requires n <= |sections|
    ensures FirstAssigned(headers, sections, n, s).Some? <==> LastAssigned(headers, sections, n, s).Some?
  {
    hide Assigned;
  }

  lemma FirstIsNotAfter(scripts: seq<Script>, entries: seq<Entry>, sp: Spans, pick: Option<nat>, s: nat)
    requires var headers, sections := Headers(scripts), Decls(scripts);
             EntriesMatch(entries, headers, AllMarks(scripts), AllCalls(scripts)) && SpansHold(headers, sections, |sections|, sp)
    requires IsFirst(entries, sp, pick, s)
    ensures pick.Some? && NotAfter(scripts, pick.value, s)
  {
    hide FirstAssigned, Headers, Decls, AllMarks, AllCalls, IsUsedLoad, SegmentFlags, EntriesMatch, SpansHold;
    LoadIsUsed(scripts, entries, sp, pick.value);
    LoadIsUsed(scripts, entries, sp, s);
  }

  lemma UsedIsUsedLoad(scripts: seq<Script>, entries: seq<Entry>, sp: Spans, s: Option<nat>)
    requires var headers, sections := Headers(scripts), Decls(scripts);
             EntriesMatch(entries, headers, AllMarks(scripts), AllCalls(scripts)) && SpansHold(headers, sections, |sections|, sp)
    requires UsedLoad(entries, sp.last, s)
    ensures s.Some? ==> IsUsedLoad(Headers(scripts), Decls(scripts), s.value)
  {
    hide FirstAssigned, LastAssigned, Headers, Decls, AllMarks;
    if s.Some? { EntriesAt(entries, Headers(scripts), AllMarks(scripts), AllCalls(scripts), s.value); }
  }

  lemma NoLoadNoUse(scripts: seq<Script>, entries: seq<Entry>, sp: Spans)
    requires var headers, sections := Headers(scripts), Decls(scripts);
             EntriesMatch(entries, headers, AllMarks(scripts), AllCalls(scripts)) && SpansHold(headers, sections, |sections|, sp)
    requires PicksOk(entries, sp) && sp.firstLoad.None?
    ensures !exists s: nat :: IsUsedLoad(Headers(scripts), Decls(scripts), s)
  {
    hide FirstAssigned, LastAssigned, Headers, Decls, AllMarks;
    forall s: nat | IsUsedLoad(Headers(scripts), Decls(scripts), s) ensures false {
      EntriesAt(entries, Headers(scripts), AllMarks(scripts), AllCalls(scripts), s);
    }
  }

  method BuildCustomOutputOrder(scripts: seq<Script>, custom: Custom) returns (r: Result<seq<Event>>, ghost p: Plan)
    ensures r.Ok? <==> Accepted(scripts)
    ensures r.Ok? ==> PlanOf(scripts, custom, p) && TakersByFlags(scripts, p) && r.value == AllEvents(p)
  {
    hide LoadsInOrder, ScriptsOk, SpansHold, PicksOk, PicksByFlags, PlanOf, TakersByFlags, EntriesMatch, NamesMatch, IsUsedLoad;
    p := Plan([], [], custom, 0, 0, 0);
    var scan := new Scan();
    var added := scan.AddScripts(scripts);
    if added.Err? { return Err(added.message), p; }
    EntriesLength(scan.entries, scan.headers, scan.marked, scan.calls);
    var sp := FindSpans(scan.entries, scan.names, scan.ordered, scan.headers);
    SpansLength(scan.headers, scan.ordered, |scan.ordered|, sp);
    if sp.firstLoad.None? {
      NoLoadNoUse(scripts, scan.entries, sp);
      return Err("Missing LOAD PHDR in linker script"), p;
    }
    MakePlanHolds(scripts, scan.entries, sp, custom);
    MakePlanTakes(scripts, scan.entries, sp, custom);
    var plan := MakePlan(scan.entries, scan.ordered, sp, custom);
    p := plan;
    var events := EmitEvents(plan);
    r := Ok(events);
  }

  lemma SpansLength(headers: seq<Phdr>, sections: seq<Decl>, n: nat, sp: Spans)
    requires n <= |sections| && SpansHold(headers, sections, n, sp)
    ensures |sp.first| == |sp.last| == |headers|
  {}
}
