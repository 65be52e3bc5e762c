// The order of sections and segments for a linker script with PHDRS: the events that are emitted, and
// what they say about each segment.
module PhdrsEvents {
  import opened Words

  datatype SectionId = FileHeader | ProgramHeaders | SectionHeaders | RiscvAttributes | Other(id: nat)

  datatype Event = SegmentStart(segment: nat) | SegmentEnd(segment: nat) | Section(section: SectionId)

  // ----- One segment seen along the events -----------------------------------------------------

  // Bad: started twice, or ended while not open.
  datatype Phase = Before | Inside | After | Bad

  function OnEvent(phase: Phase, s: nat, e: Event): Phase {
    match e
    case SegmentStart(t) => if t != s then phase else if phase == Before then Inside else Bad
    case SegmentEnd(t) => if t != s then phase else if phase == Inside then After else Bad
    case Section(_) => phase
  }

  function Run(phase: Phase, s: nat, events: seq<Event>): Phase {
    if events == [] then phase
    else OnEvent(Run(phase, s, events[..|events| - 1]), s, events[|events| - 1])
  }

  lemma {:induction false} RunConcat(phase: Phase, s: nat, a: seq<Event>, b: seq<Event>)
    ensures Run(phase, s, a + b) == Run(Run(phase, s, a), s, b)
  {
    if b == [] {
      assert a + b == a;
    } else {
      assert (a + b)[..|a + b| - 1] == a + b[..|b| - 1];
      RunConcat(phase, s, a, b[..|b| - 1]);
    }
  }

  lemma RunOne(phase: Phase, s: nat, e: Event)
    ensures Run(phase, s, [e]) == OnEvent(phase, s, e)
  {
    assert [e][..0] == [];
  }

  function Sections(ids: seq<SectionId>): (r: seq<Event>)
    ensures |r| == |ids| && forall i :: 0 <= i < |r| ==> r[i] == Section(ids[i])
  {
    seq(|ids|, i requires 0 <= i < |ids| => Section(ids[i]))
  }

  lemma {:induction false} RunSections(phase: Phase, s: nat, events: seq<Event>)
    requires forall i :: 0 <= i < |events| ==> events[i].Section?
    ensures Run(phase, s, events) == phase
  {
    if events != [] { RunSections(phase, s, events[..|events| - 1]); }
  }

  // ----- What the scan of the script leaves ----------------------------------------------------

  datatype Segment = Segment(hasFilehdr: bool, hasPhdrs: bool, isEmitted: bool, first: Option<nat>, last: Option<nat>) {
    predicate HasHeader() { hasFilehdr || hasPhdrs }
  }

  datatype Custom = Custom(exec: seq<SectionId>, tdata: seq<SectionId>, tbss: seq<SectionId>, data: seq<SectionId>,
                           bss: seq<SectionId>, ro: seq<SectionId>, nonalloc: seq<SectionId>)

  // The sections in order, what each segment covers, and the segments that take the sections that the
  // script does not name.
  datatype Plan = Plan(sections: seq<SectionId>, segments: seq<Segment>, custom: Custom,
                       execTaker: nat, rwTaker: nat, roTaker: nat) {
    ghost predicate Valid() {
      forall s :: 0 <= s < |segments| ==>
        && (segments[s].first.Some? <==> segments[s].last.Some?)
        && (segments[s].last.Some? ==> segments[s].first.value <= segments[s].last.value < |sections|)
    }
  }

  // ----- The events ----------------------------------------------------------------------------

  // Which segments an event list is about. The first four are the categories of header events.
  datatype Rule = OpensAtFileHeader | ClosesAfterFileHeader | OpensAtProgramHeaders | ClosesAfterProgramHeaders
                | OpensAt(pos: nat)

  predicate Applies(p: Plan, rule: Rule, s: nat)
    requires s < |p.segments|
  {
    var g := p.segments[s];
    match rule
    case OpensAtFileHeader => g.hasFilehdr
    case ClosesAfterFileHeader => g.hasFilehdr && g.last.None? && !g.hasPhdrs
    case OpensAtProgramHeaders => !g.hasFilehdr && g.hasPhdrs
    case ClosesAfterProgramHeaders => g.last.None? && g.hasPhdrs
    case OpensAt(pos) => !g.HasHeader() && g.first == Some(pos)
  }

  // The segments among the first n that the rule applies to, in order.
  function Where(p: Plan, rule: Rule, n: nat): (r: seq<nat>)
    requires n <= |p.segments|
  {
    if n == 0 then []
    else if Applies(p, rule, n - 1) then Where(p, rule, n - 1) + [n - 1]
    else Where(p, rule, n - 1)
  }

  function All(p: Plan, rule: Rule): seq<nat> {
    Where(p, rule, |p.segments|)
  }

  function Starts(segments: seq<nat>): (r: seq<Event>)
    ensures |r| == |segments| && forall i :: 0 <= i < |r| ==> r[i] == SegmentStart(segments[i])
  {
    seq(|segments|, i requires 0 <= i < |segments| => SegmentStart(segments[i]))
  }

  function Ends(segments: seq<nat>): (r: seq<Event>)
    ensures |r| == |segments| && forall i :: 0 <= i < |r| ==> r[i] == SegmentEnd(segments[i])
  {
    seq(|segments|, i requires 0 <= i < |segments| => SegmentEnd(segments[i]))
  }

  lemma RunOneMore(phase: Phase, s: nat, segments: seq<nat>, t: nat)
    ensures Run(phase, s, Starts(segments + [t])) == OnEvent(Run(phase, s, Starts(segments)), s, SegmentStart(t))
    ensures Run(phase, s, Ends(segments + [t])) == OnEvent(Run(phase, s, Ends(segments)), s, SegmentEnd(t))
  {
    hide OnEvent;
    assert Starts(segments + [t])[..|segments|] == Starts(segments);
    assert Ends(segments + [t])[..|segments|] == Ends(segments);
  }

  lemma {:induction false} RunWhere(phase: Phase, s: nat, p: Plan, rule: Rule, n: nat)
    requires n <= |p.segments|
    ensures Run(phase, s, Starts(Where(p, rule, n)))
            == if s < n && Applies(p, rule, s) then OnEvent(phase, s, SegmentStart(s)) else phase
    ensures Run(phase, s, Ends(Where(p, rule, n)))
            == if s < n && Applies(p, rule, s) then OnEvent(phase, s, SegmentEnd(s)) else phase
  {
    hide Applies, Run, Starts, Ends;
    if n > 0 {
      RunWhere(phase, s, p, rule, n - 1);
      RunOneMore(phase, s, Where(p, rule, n - 1), n - 1);
    } else {
      RunNothing(phase, s);
    }
  }

  lemma RunNothing(phase: Phase, s: nat)
    ensures Run(phase, s, Starts([])) == phase && Run(phase, s, Ends([])) == phase
  {}

  predicate ClosesAt(p: Plan, pos: nat, s: nat) {
    s < |p.segments| && p.segments[s].last == Some(pos)
  }

  // Up to and including the file header, up to and including the program headers, and up to the first
  // section.
  function ToFileHeader(p: Plan): seq<Event> {
    Starts(All(p, OpensAtFileHeader))
  }

  function ToProgramHeaders(p: Plan): seq<Event> {
    [Section(FileHeader)]
    + Ends(All(p, ClosesAfterFileHeader))
    + Starts(All(p, OpensAtProgramHeaders))
  }

  function ToFirstSection(p: Plan): seq<Event> {
    [Section(ProgramHeaders)]
    + Ends(All(p, ClosesAfterProgramHeaders))
    + [Section(SectionHeaders)]
    + Starts(All(p, OpensAt(0)))
  }

  function HeaderEvents(p: Plan): seq<Event> {
    ToFileHeader(p) + ToProgramHeaders(p) + ToFirstSection(p)
  }

  // Sections that the script does not name go to the end of the segment that takes them.
  function Taken(p: Plan, s: nat): seq<SectionId> {
    (if s == p.execTaker then p.custom.exec else [])
    + (if s == p.rwTaker then p.custom.tdata + p.custom.tbss + p.custom.data + p.custom.bss else [])
    + (if s == p.roTaker then p.custom.ro else [])
  }

  function ClosingEvents(p: Plan, pos: nat, n: nat): seq<Event> {
    if n == 0 then []
    else
      ClosingEvents(p, pos, n - 1)
      + if ClosesAt(p, pos, n - 1) then Sections(Taken(p, n - 1)) + [SegmentEnd(n - 1)] else []
  }

  function OpeningEvents(p: Plan, pos: nat): seq<Event> {
    if pos == 0 then HeaderEvents(p) else Starts(All(p, OpensAt(pos)))
  }

  // The first n sections with everything before and after each.
  function SectionEvents(p: Plan, n: nat): seq<Event>
    requires n <= |p.sections|
  {
    if n == 0 then []
    else
      SectionEvents(p, n - 1) + OpeningEvents(p, n - 1) + [Section(p.sections[n - 1])]
      + ClosingEvents(p, n - 1, |p.segments|)
  }

  // Segments that nothing was put in, at the very end.
  function EmptySegments(p: Plan, n: nat): seq<Event>
    requires n <= |p.segments|
  {
    if n == 0 then []
    else
      EmptySegments(p, n - 1)
      + if !p.segments[n - 1].isEmitted then [SegmentStart(n - 1), SegmentEnd(n - 1)] else []
  }

  function IsNotRiscvAttributes(ids: seq<SectionId>): seq<SectionId> {
    if ids == [] then []
    else
      IsNotRiscvAttributes(ids[..|ids| - 1])
      + if ids[|ids| - 1] != RiscvAttributes then [ids[|ids| - 1]] else []
  }

  // The segment for RISC-V attributes is added last, so it has the next id.
  function TailEvents(p: Plan): seq<Event> {
    var riscv := |p.segments|;
    Sections(IsNotRiscvAttributes(p.custom.nonalloc)) + EmptySegments(p, |p.segments|)
    + [SegmentStart(riscv), Section(RiscvAttributes), SegmentEnd(riscv)]
  }

  function AllEvents(p: Plan): seq<Event> {
    SectionEvents(p, |p.sections|) + TailEvents(p)
  }

  // ----- Where a segment stands ----------------------------------------------------------------

  // After a marker section, a list of ends and a list of starts.
  lemma RunBlock(phase: Phase, s: nat, p: Plan, marker: Event, closes: Rule, opens: Rule)
    requires marker.Section? && s < |p.segments|
    ensures Run(phase, s, [marker] + Ends(All(p, closes)) + Starts(All(p, opens)))
            == var closed := if Applies(p, closes, s) then OnEvent(phase, s, SegmentEnd(s)) else phase;
               if Applies(p, opens, s) then OnEvent(closed, s, SegmentStart(s)) else closed
  {
    hide Applies;
    var n := |p.segments|;
    var ends, starts := Ends(All(p, closes)), Starts(All(p, opens));
    RunOne(phase, s, marker);
    RunConcat(phase, s, [marker], ends);
    RunWhere(phase, s, p, closes, n);
    var closed := Run(phase, s, [marker] + ends);
    RunConcat(phase, s, [marker] + ends, starts);
    RunWhere(closed, s, p, opens, n);
  }

  lemma RunHeaders(p: Plan, s: nat)
    requires s < |p.segments|
    ensures var g := p.segments[s];
            && Run(Before, s, ToFileHeader(p)) == (if g.hasFilehdr then Inside else Before)
            && Run(Before, s, ToFileHeader(p) + ToProgramHeaders(p))
               == (if g.hasFilehdr && !g.hasPhdrs && g.last.None? then After
                   else if g.HasHeader() then Inside else Before)
            && Run(Before, s, HeaderEvents(p))
               == (if g.HasHeader() && g.last.None? then After
                   else if g.HasHeader() || g.first == Some(0) then Inside else Before)
  {
    var a, b, c := ToFileHeader(p), ToProgramHeaders(p), ToFirstSection(p);
    RunWhere(Before, s, p, OpensAtFileHeader, |p.segments|);
    RunConcat(Before, s, a, b);
    RunBlock(Run(Before, s, a), s, p, Section(FileHeader), ClosesAfterFileHeader, OpensAtProgramHeaders);
    RunConcat(Before, s, a + b, c);
    RunToFirstSection(Run(Before, s, a + b), s, p);
  }

  lemma RunToFirstSection(phase: Phase, s: nat, p: Plan)
    requires s < |p.segments|
    ensures Run(phase, s, ToFirstSection(p))
            == var closed := if Applies(p, ClosesAfterProgramHeaders, s) then OnEvent(phase, s, SegmentEnd(s)) else phase;
               if Applies(p, OpensAt(0), s) then OnEvent(closed, s, SegmentStart(s)) else closed
  {
    hide Applies;
    var head, tail := [Section(ProgramHeaders)] + Ends(All(p, ClosesAfterProgramHeaders)),
        [Section(SectionHeaders)] + Starts(All(p, OpensAt(0)));
    assert ToFirstSection(p) == head + tail;
    RunConcat(phase, s, head, tail);
    RunOne(phase, s, Section(ProgramHeaders));
    RunConcat(phase, s, [Section(ProgramHeaders)], Ends(All(p, ClosesAfterProgramHeaders)));
    RunWhere(phase, s, p, ClosesAfterProgramHeaders, |p.segments|);
    var closed := Run(phase, s, head);
    RunOne(closed, s, Section(SectionHeaders));
    RunConcat(closed, s, [Section(SectionHeaders)], Starts(All(p, OpensAt(0))));
    RunWhere(closed, s, p, OpensAt(0), |p.segments|);
  }

  // ----- Along the sections --------------------------------------------------------------------

  // Where segment s stands before section number n and everything that opens there.
  function PhaseBefore(g: Segment, n: nat): Phase {
    if g.HasHeader() then
      if n == 0 then Before
      else if g.last.None? || g.last.value < n then After
      else Inside
    else if g.first.None? || g.last.None? || n <= g.first.value then Before
    else if n <= g.last.value then Inside
    else After
  }

  lemma {:induction false} RunClosing(phase: Phase, s: nat, p: Plan, pos: nat, n: nat)
    requires n <= |p.segments|
    ensures Run(phase, s, ClosingEvents(p, pos, n))
            == if s < n && ClosesAt(p, pos, s) then OnEvent(phase, s, SegmentEnd(s)) else phase
  {
    hide Taken;
    if n > 0 {
      RunClosing(phase, s, p, pos, n - 1);
      if ClosesAt(p, pos, n - 1) {
        var front, taken := ClosingEvents(p, pos, n - 1), Sections(Taken(p, n - 1));
        var phase' := Run(phase, s, front);
        assert front + (taken + [SegmentEnd(n - 1)]) == front + taken + [SegmentEnd(n - 1)];
        RunConcat(phase, s, front, taken);
        RunSections(phase', s, taken);
        RunConcat(phase, s, front + taken, [SegmentEnd(n - 1)]);
        RunOne(phase', s, SegmentEnd(n - 1));
      } else {
        assert ClosingEvents(p, pos, n) == ClosingEvents(p, pos, n - 1);
      }
    }
  }

  lemma RunOpening(s: nat, p: Plan, pos: nat)
    requires p.Valid() && s < |p.segments| && pos < |p.sections|
    ensures var g := p.segments[s];
            Run(PhaseBefore(g, pos), s, OpeningEvents(p, pos))
            == if g.first.Some? && g.first.value == pos && !g.HasHeader() then Inside
               else if g.HasHeader() && pos == 0 && g.last.Some? then Inside
               else if g.HasHeader() && pos == 0 then After
               else PhaseBefore(g, pos)
  {
    if pos == 0 {
      RunHeaders(p, s);
    } else {
      RunWhere(PhaseBefore(p.segments[s], pos), s, p, OpensAt(pos), |p.segments|);
    }
  }

  // Segment s is where PhaseBefore says, at every section.
  lemma {:induction false} RunSectionEvents(s: nat, p: Plan, n: nat)
    requires p.Valid() && s < |p.segments| && n <= |p.sections|
    ensures Run(Before, s, SectionEvents(p, n)) == PhaseBefore(p.segments[s], n)
  {
    hide OpeningEvents, ClosingEvents;
    if n > 0 {
      var g := p.segments[s];
      var front, opening := SectionEvents(p, n - 1), OpeningEvents(p, n - 1);
      var here, closing := [Section(p.sections[n - 1])], ClosingEvents(p, n - 1, |p.segments|);
      RunSectionEvents(s, p, n - 1);
      RunConcat(Before, s, front, opening);
      RunOpening(s, p, n - 1);
      RunConcat(Before, s, front + opening, here);
      var phase := Run(Before, s, front + opening);
      RunOne(phase, s, here[0]);
      RunConcat(Before, s, front + opening + here, closing);
      RunClosing(phase, s, p, n - 1, |p.segments|);
    }
  }

  lemma RunPair(phase: Phase, s: nat, a: Event, b: Event)
    ensures Run(phase, s, [a, b]) == OnEvent(OnEvent(phase, s, a), s, b)
  {
    hide OnEvent;
    assert [a, b] == [a] + [b];
    RunConcat(phase, s, [a], [b]);
    RunOne(phase, s, a);
    RunOne(OnEvent(phase, s, a), s, b);
  }

  lemma {:induction false} RunEmpty(phase: Phase, s: nat, p: Plan, n: nat)
    requires n <= |p.segments|
    ensures Run(phase, s, EmptySegments(p, n))
            == if s < n && !p.segments[s].isEmitted then OnEvent(OnEvent(phase, s, SegmentStart(s)), s, SegmentEnd(s)) else phase
  {
    if n == 0 {
      RunNothing(phase, s);
    } else {
      hide Run;
      RunEmpty(phase, s, p, n - 1);
      if !p.segments[n - 1].isEmitted {
        var front := EmptySegments(p, n - 1);
        RunConcat(phase, s, front, [SegmentStart(n - 1), SegmentEnd(n - 1)]);
        RunPair(Run(phase, s, front), s, SegmentStart(n - 1), SegmentEnd(n - 1));
      } else {
        assert EmptySegments(p, n) == EmptySegments(p, n - 1);
      }
    }
  }

  lemma RunTail(phase: Phase, s: nat, p: Plan)
    requires s < |p.segments|
    ensures Run(phase, s, TailEvents(p)) == Run(phase, s, EmptySegments(p, |p.segments|))
  {
    var riscv := |p.segments|;
    var a, b := Sections(IsNotRiscvAttributes(p.custom.nonalloc)), EmptySegments(p, riscv);
    var c := [SegmentStart(riscv), Section(RiscvAttributes), SegmentEnd(riscv)];
    RunSections(phase, s, a);
    RunConcat(phase, s, a, b);
    RunConcat(phase, s, a + b, c);
    var phase' := Run(phase, s, a + b);
    assert c[..2] == [SegmentStart(riscv), Section(RiscvAttributes)] && c[..2][..1] == [SegmentStart(riscv)];
    RunOne(phase', s, SegmentStart(riscv));
    assert Run(phase', s, c[..2]) == phase';
  }

  // ----- The results ---------------------------------------------------------------------------

  // A segment is started once and later ended once exactly when the scan marked it as emitted just in
  // case it has headers or sections.
  lemma OneStartOneEnd(s: nat, p: Plan)
    requires p.Valid() && s < |p.segments| && p.sections != []
    ensures var g := p.segments[s];
            Run(Before, s, AllEvents(p)) == After <==> (g.isEmitted <==> g.HasHeader() || g.last.Some?)
  {
    hide SectionEvents, TailEvents, EmptySegments;
    var g, n := p.segments[s], |p.sections|;
    RunConcat(Before, s, SectionEvents(p, n), TailEvents(p));
    RunSectionEvents(s, p, n);
    RunTail(PhaseBefore(g, n), s, p);
    RunEmpty(PhaseBefore(g, n), s, p, |p.segments|);
  }

  // Section x is emitted at some point where segment s is open.
  ghost predicate LiesInside(events: seq<Event>, s: nat, x: SectionId) {
    exists k: nat :: k < |events| && events[k] == Section(x) && Run(Before, s, events[..k]) == Inside
  }

  lemma InsideAfter(a: seq<Event>, x: SectionId, b: seq<Event>, s: nat)
    requires Run(Before, s, a) == Inside
    ensures LiesInside(a + [Section(x)] + b, s, x)
  {
    var events := a + [Section(x)] + b;
    assert events[|a|] == Section(x) && events[..|a|] == a;
  }

  lemma InsidePrefix(a: seq<Event>, b: seq<Event>, s: nat, x: SectionId)
    requires LiesInside(a, s, x)
    ensures LiesInside(a + b, s, x)
  {
    var k: nat :| k < |a| && a[k] == Section(x) && Run(Before, s, a[..k]) == Inside;
    assert (a + b)[k] == Section(x) && (a + b)[..k] == a[..k];
  }

  // Later sections only add events at the end.
  lemma {:induction false} InsideLater(p: Plan, n: nat, m: nat, s: nat, x: SectionId)
    requires n <= m <= |p.sections| && LiesInside(SectionEvents(p, n), s, x)
    ensures LiesInside(SectionEvents(p, m), s, x)
  {
    hide LiesInside, OpeningEvents, ClosingEvents;
    if n < m {
      InsideLater(p, n, m - 1, s, x);
      var front := SectionEvents(p, m - 1);
      var opening, here := OpeningEvents(p, m - 1), [Section(p.sections[m - 1])];
      InsidePrefix(front, opening, s, x);
      InsidePrefix(front + opening, here, s, x);
      InsidePrefix(front + opening + here, ClosingEvents(p, m - 1, |p.segments|), s, x);
    }
  }

  lemma InsideAll(p: Plan, n: nat, s: nat, x: SectionId)
    requires n <= |p.sections| && LiesInside(SectionEvents(p, n), s, x)
    ensures LiesInside(AllEvents(p), s, x)
  {
    hide LiesInside, SectionEvents, TailEvents;
    InsideLater(p, n, |p.sections|, s, x);
    InsidePrefix(SectionEvents(p, |p.sections|), TailEvents(p), s, x);
  }

  // Every section from the first to the last that was assigned to a segment lies inside it.
  lemma AssignedLiesInside(p: Plan, s: nat, pos: nat)
    requires p.Valid() && s < |p.segments| && pos < |p.sections| && p.segments[s].last.Some?
    requires p.segments[s].first.value <= pos <= p.segments[s].last.value
    ensures LiesInside(AllEvents(p), s, p.sections[pos])
  {
    hide LiesInside, OpeningEvents, ClosingEvents;
    var front, opening := SectionEvents(p, pos), OpeningEvents(p, pos);
    RunSectionEvents(s, p, pos);
    RunConcat(Before, s, front, opening);
    RunOpening(s, p, pos);
    InsideAfter(front + opening, p.sections[pos], ClosingEvents(p, pos, |p.segments|), s);
    InsideAll(p, pos + 1, s, p.sections[pos]);
  }

  // Sections that a used segment takes lie inside it.
  lemma TakenLiesInside(p: Plan, s: nat, x: SectionId)
    requires p.Valid() && s < |p.segments| && p.segments[s].last.Some? && x in Taken(p, s)
    ensures LiesInside(AllEvents(p), s, x)
  {
    hide LiesInside, OpeningEvents, Taken;
    var pos := p.segments[s].last.value;
    var front, opening, here := SectionEvents(p, pos), OpeningEvents(p, pos), [Section(p.sections[pos])];
    RunSectionEvents(s, p, pos);
    RunConcat(Before, s, front, opening);
    RunOpening(s, p, pos);
    RunConcat(Before, s, front + opening, here);
    RunOne(Inside, s, here[0]);
    TakenInClosing(p, s, pos, front + opening + here, |p.segments|, x);
    InsideAll(p, pos + 1, s, x);
  }

  lemma {:induction false} TakenInClosing(p: Plan, s: nat, pos: nat, before: seq<Event>, n: nat, x: SectionId)
    requires s < n <= |p.segments| && ClosesAt(p, pos, s) && x in Taken(p, s)
    requires Run(Before, s, before) == Inside
    ensures LiesInside(before + ClosingEvents(p, pos, n), s, x)
  {
    hide LiesInside, Taken, Run;
    var front := ClosingEvents(p, pos, n - 1);
    if s < n - 1 {
      TakenInClosing(p, s, pos, before, n - 1, x);
      var last := if ClosesAt(p, pos, n - 1) then Sections(Taken(p, n - 1)) + [SegmentEnd(n - 1)] else [];
      InsidePrefix(before + front, last, s, x);
      assert before + front + last == before + ClosingEvents(p, pos, n);
    } else {
      RunConcat(Before, s, before, front);
      RunClosing(Inside, s, p, pos, n - 1);
      TakenHere(before + front, Taken(p, s), s, x);
      assert before + front + (Sections(Taken(p, s)) + [SegmentEnd(s)]) == before + ClosingEvents(p, pos, n);
    }
  }

  lemma TakenHere(before: seq<Event>, taken: seq<SectionId>, s: nat, x: SectionId)
    requires x in taken && Run(Before, s, before) == Inside
    ensures LiesInside(before + (Sections(taken) + [SegmentEnd(s)]), s, x)
  {
    hide LiesInside, Run;
    var i :| 0 <= i < |taken| && taken[i] == x;
    var a, b := Sections(taken[..i]), Sections(taken[i + 1..]) + [SegmentEnd(s)];
    RunConcat(Before, s, before, a);
    RunSections(Inside, s, a);
    InsideAfter(before + a, x, b, s);
    assert before + a + [Section(x)] + b == before + (Sections(taken) + [SegmentEnd(s)]);
  }

  // The file header comes first of all sections, and a segment is open there exactly when it has
  // FILEHDR.
  lemma FileHeaderInside(p: Plan, s: nat)
    requires p.Valid() && s < |p.segments| && p.sections != []
    ensures var k := |ToFileHeader(p)|;
            && k < |AllEvents(p)| && AllEvents(p)[k] == Section(FileHeader)
            && (Run(Before, s, AllEvents(p)[..k]) == Inside <==> p.segments[s].hasFilehdr)
  {
    HeadersFirst(p);
    RunHeaders(p, s);
    var a := ToFileHeader(p);
    assert ToProgramHeaders(p)[0] == Section(FileHeader);
    assert AllEvents(p)[..|a|] == a;
  }

  // At the program headers a segment is open exactly when it has PHDRS, or has FILEHDR and goes on to
  // sections.
  lemma ProgramHeadersInside(p: Plan, s: nat)
    requires p.Valid() && s < |p.segments| && p.sections != []
    ensures var k, g := |ToFileHeader(p) + ToProgramHeaders(p)|, p.segments[s];
            && k < |AllEvents(p)| && AllEvents(p)[k] == Section(ProgramHeaders)
            && (Run(Before, s, AllEvents(p)[..k]) == Inside <==> g.hasPhdrs || (g.hasFilehdr && g.last.Some?))
  {
    HeadersFirst(p);
    RunHeaders(p, s);
    var a := ToFileHeader(p) + ToProgramHeaders(p);
    assert ToFirstSection(p)[0] == Section(ProgramHeaders);
    assert AllEvents(p)[..|a|] == a;
  }

  lemma HeadersFirst(p: Plan)
    requires p.sections != []
    ensures ToFileHeader(p) + ToProgramHeaders(p) + ToFirstSection(p) <= AllEvents(p)
  {
    SectionEventsPrefix(p, 1, |p.sections|);
    assert SectionEvents(p, 0) + OpeningEvents(p, 0) == HeaderEvents(p);
    assert HeaderEvents(p) <= SectionEvents(p, 1);
  }

  lemma {:induction false} SectionEventsPrefix(p: Plan, n: nat, m: nat)
    requires n <= m <= |p.sections|
    ensures SectionEvents(p, n) <= SectionEvents(p, m)
  {
    hide OpeningEvents, ClosingEvents;
    if n < m { SectionEventsPrefix(p, n, m - 1); }
  }
}
