// What an accepted linker script with PHDRS gives: every segment once, every section once.
module PhdrsResults {
  import opened Words
  import opened PhdrsEvents
  import opened PhdrsScan
  import opened PhdrsBuilder

  // ----- Every segment once --------------------------------------------------------------------

  ghost predicate DistinctNames(headers: seq<Phdr>) {
    forall i, j :: 0 <= i < j < |headers| ==> headers[i].name != headers[j].name
  }

  // NONE is what a section is assigned to when it goes into no segment.
  ghost predicate NoneIsFree(headers: seq<Phdr>) {
    forall i :: 0 <= i < |headers| ==> headers[i].name != "NONE"
  }

  // With names that are never taken over, a name means the same to every script that knows it.
  lemma NamedPrefix(headers: seq<Phdr>, all: seq<Phdr>, name: string)
    requires headers <= all && DistinctNames(all) && Named(headers, name).Some?
    ensures Named(all, name) == Named(headers, name)
  {
    assert all[Named(headers, name).value].name == name;
  }

  lemma NoneMeansNone(headers: seq<Phdr>)
    requires NoneIsFree(headers)
    ensures Named(headers, "NONE").None?
  {}

  lemma MarkIsName(headers: seq<Phdr>, all: seq<Phdr>, name: string, s: nat)
    requires headers <= all && DistinctNames(all) && NoneIsFree(all) && NameOk(headers, name)
    ensures s in MarkOf(headers, name) <==> Named(all, name) == Some(s)
  {
    hide Named;
    NoneMeansNone(all);
    if Named(headers, name).Some? { NamedPrefix(headers, all, name); }
  }

  lemma {:induction false} MarksAreNames(headers: seq<Phdr>, all: seq<Phdr>, phdrs: seq<string>, n: nat, s: nat)
    requires headers <= all && DistinctNames(all) && NoneIsFree(all) && n <= |phdrs|
    requires forall j :: 0 <= j < n ==> NameOk(headers, phdrs[j])
    ensures s in Marks(headers, phdrs, n) <==> exists j :: 0 <= j < n && Named(all, phdrs[j]) == Some(s)
  {
    hide MarkOf, Named, NameOk, DistinctNames, NoneIsFree;
    if n > 0 {
      MarksAreNames(headers, all, phdrs, n - 1, s);
      MarkIsName(headers, all, phdrs[n - 1], s);
    }
  }

  lemma {:induction false} SectionMarksAreNames(headers: seq<Phdr>, all: seq<Phdr>, sections: seq<Decl>, n: nat, s: nat)
    requires headers <= all && DistinctNames(all) && NoneIsFree(all) && n <= |sections| && NamesOk(headers, sections)
    ensures s in SectionMarks(headers, sections, n) <==> exists i :: 0 <= i < n && Assigned(all, sections[i], s)
  {
    hide Marks, Named, NameOk, DistinctNames, NoneIsFree;
    if n > 0 {
      SectionMarksAreNames(headers, all, sections, n - 1, s);
      var phdrs := sections[n - 1].phdrs;
      MarksAreNames(headers, all, phdrs, |phdrs|, s);
      assert s in Marks(headers, phdrs, |phdrs|) <==> Assigned(all, sections[n - 1], s);
    }
  }

  ghost predicate AnyAssigned(all: seq<Phdr>, sections: seq<Decl>, s: nat) {
    exists i :: 0 <= i < |sections| && Assigned(all, sections[i], s)
  }

  lemma AnyAssignedConcat(all: seq<Phdr>, a: seq<Decl>, b: seq<Decl>, s: nat)
    ensures AnyAssigned(all, a + b, s) <==> AnyAssigned(all, a, s) || AnyAssigned(all, b, s)
  {
    hide Assigned;
    if i :| 0 <= i < |a| && Assigned(all, a[i], s) {
      assert Assigned(all, (a + b)[i], s);
    }
    if i :| 0 <= i < |b| && Assigned(all, b[i], s) {
      assert Assigned(all, (a + b)[|a| + i], s);
    }
  }

  // The scan, which looks a name up as soon as it meets it, marks the segments that sections are
  // assigned to once all scripts are read.
  lemma {:induction false} AllMarksAreNames(scripts: seq<Script>, k: nat, s: nat)
    requires k <= |scripts| && ScriptsOk(scripts, |scripts|)
    requires DistinctNames(Headers(scripts)) && NoneIsFree(Headers(scripts))
    ensures s in AllMarks(scripts[..k]) <==> AnyAssigned(Headers(scripts), Decls(scripts[..k]), s)
  {
    hide Assigned, SectionMarks, DistinctNames, NoneIsFree, NamesOk;
    if k > 0 {
      var here := scripts[..k];
      assert here[..k - 1] == scripts[..k - 1];
      AllMarksAreNames(scripts, k - 1, s);
      HeadersPrefix(scripts, k);
      var last := scripts[k - 1];
      assert NamesOk(Headers(scripts[..k - 1 + 1]), scripts[k - 1].sections);
      SectionMarksAreNames(Headers(here), Headers(scripts), last.sections, |last.sections|, s);
      AnyAssignedConcat(Headers(scripts), Decls(scripts[..k - 1]), last.sections, s);
    }
  }

  // Accepted scripts whose PHDRS names are distinct, and none of them NONE, start every segment once
  // and later end it once.
  lemma EverySegmentOnce(scripts: seq<Script>, custom: Custom, p: Plan, s: nat)
    requires Accepted(scripts) && PlanOf(scripts, custom, p) && s < |Headers(scripts)|
    requires DistinctNames(Headers(scripts)) && NoneIsFree(Headers(scripts))
    ensures Run(Before, s, AllEvents(p)) == After
  {
    hide AllEvents, AllMarks, Assigned, DistinctNames, NoneIsFree, LoadsInOrder, ScriptsOk;
    PlanIsValid(scripts, custom, p);
    assert scripts[..|scripts|] == scripts;
    AllMarksAreNames(scripts, |scripts|, s);
    assert SegmentOf(scripts, s, p.segments[s]);
    OneStartOneEnd(s, p);
  }

  // Without any condition on names: the exact condition is on what the scan marked.
  lemma SegmentOnceExactly(scripts: seq<Script>, custom: Custom, p: Plan, s: nat)
    requires PlanOf(scripts, custom, p) && s < |Headers(scripts)|
    ensures Run(Before, s, AllEvents(p)) == After
       <==> Headers(scripts)[s].HasHeader()
            || (s in AllMarks(scripts) <==> AnyAssigned(Headers(scripts), Decls(scripts), s))
  {
    hide AllEvents, AllMarks, Assigned, LoadsInOrder, ScriptsOk;
    PlanIsValid(scripts, custom, p);
    assert SegmentOf(scripts, s, p.segments[s]);
    OneStartOneEnd(s, p);
  }

  lemma PlanIsValid(scripts: seq<Script>, custom: Custom, p: Plan)
    requires PlanOf(scripts, custom, p)
    ensures p.Valid() && p.sections != []
  {
    hide AllMarks, Assigned;
    forall s | 0 <= s < |p.segments| ensures SegmentOf(scripts, s, p.segments[s]) {}
  }

  // A section that was assigned to a PHDR lies inside its segment.
  lemma AssignedSectionInside(scripts: seq<Script>, custom: Custom, p: Plan, s: nat, i: nat)
    requires PlanOf(scripts, custom, p) && s < |Headers(scripts)| && i < |Decls(scripts)|
    requires Assigned(Headers(scripts), Decls(scripts)[i], s)
    ensures LiesInside(AllEvents(p), s, Decls(scripts)[i].id)
  {
    hide AllEvents, LiesInside, AllMarks, Assigned;
    PlanIsValid(scripts, custom, p);
    assert SegmentOf(scripts, s, p.segments[s]);
    AssignedLiesInside(p, s, i);
  }

  // The file header lies inside every FILEHDR segment and the program headers inside every PHDRS one.
  lemma HeadersInside(scripts: seq<Script>, custom: Custom, p: Plan, s: nat)
    requires PlanOf(scripts, custom, p) && s < |Headers(scripts)|
    ensures Headers(scripts)[s].hasFilehdr ==> LiesInside(AllEvents(p), s, FileHeader)
    ensures Headers(scripts)[s].hasPhdrs ==> LiesInside(AllEvents(p), s, ProgramHeaders)
  {
    hide AllEvents, AllMarks, Assigned, ToFileHeader, ToProgramHeaders;
    PlanIsValid(scripts, custom, p);
    assert SegmentOf(scripts, s, p.segments[s]);
    FileHeaderInside(p, s);
    ProgramHeadersInside(p, s);
  }

  // ----- When it fails -------------------------------------------------------------------------

  const PT_NOTE: nat := 4

  lemma OneScript(a: Script)
    ensures Headers([a]) == a.headers && Decls([a]) == a.sections
    ensures AllMarks([a]) == SectionMarks(a.headers, a.sections, |a.sections|)
  {
    hide SectionMarks;
    assert [a][..0] == [];
  }

  lemma TwoScripts(a: Script, b: Script)
    ensures Headers([a, b]) == a.headers + b.headers && Decls([a, b]) == a.sections + b.sections
    ensures AllMarks([a, b]) == AllMarks([a]) + SectionMarks(a.headers + b.headers, b.sections, |b.sections|)
  {
    hide SectionMarks;
    OneScript(a);
    assert [a, b][..1] == [a];
  }

  lemma OneSection(headers: seq<Phdr>, d: Decl)
    ensures SectionMarks(headers, [d], 1) == Marks(headers, d.phdrs, |d.phdrs|)
  {
    hide Marks;
    assert SectionMarks(headers, [d], 0) == {};
  }

  lemma NamedLast(headers: seq<Phdr>, h: Phdr, name: string)
    ensures Named(headers + [h], name) == if h.name == name then Some(|headers|) else Named(headers, name)
  {
    NamedAppend(headers, h);
  }

  const TEXT: Phdr := Phdr("text", PT_LOAD, None, false, false)
  const NONE: Phdr := Phdr("NONE", PT_NOTE, None, false, false)

  function InText(id: nat): Decl {
    Decl(Other(id), ["text"], 0)
  }

  function TakingOver(): seq<Script> {
    [Script([TEXT], [InText(0)]), Script([TEXT], [InText(1)])]
  }

  // A second script that takes a name over leaves the first segment of that name, marked as used,
  // without its start and end.
  lemma NameTakenOver(custom: Custom, p: Plan)
    requires PlanOf(TakingOver(), custom, p)
    ensures Run(Before, 0, AllEvents(p)) != After
  {
    hide PlanOf, AllEvents, Accepted, Headers, Decls, AllMarks, SectionMarks, Named;
    var scripts := TakingOver();
    OneScript(scripts[0]);
    TwoScripts(scripts[0], scripts[1]);
    OneSection([TEXT], InText(0));
    TakingOverNames();
    assert Marks([TEXT], ["text"], 1) == Marks([TEXT], ["text"], 0) + MarkOf([TEXT], "text");
    assert 0 in AllMarks(scripts);
    var decls := Decls(scripts);
    assert [TEXT] + [TEXT] == [TEXT, TEXT] && decls == [InText(0), InText(1)];
    assert forall i :: 0 <= i < |decls| ==> decls[i].phdrs == ["text"];
    assert !AnyAssigned(Headers(scripts), decls, 0);
    SegmentOnceExactly(scripts, custom, p, 0);
  }

  lemma TakingOverIsAccepted()
    ensures Accepted(TakingOver())
  {
    hide Named, Headers, Decls, AllMarks, LastAssigned;
    var scripts := TakingOver();
    OneScript(scripts[0]);
    TwoScripts(scripts[0], scripts[1]);
    TakingOverNames();
    assert [TEXT] + [TEXT] == [TEXT, TEXT];
    assert scripts[..1] == [scripts[0]] && scripts[..2] == scripts;
    assert InText(1).phdrs[0] == "text";
    var decls := Decls(scripts);
    assert decls[1] == InText(1) && Assigned(Headers(scripts), decls[1], 1);
    assert IsUsedLoad(Headers(scripts), decls, 1);
  }

  lemma TakingOverNames()
    ensures Named([TEXT], "text") == Some(0) && Named([TEXT, TEXT], "text") == Some(1)
  {
    hide Named;
    NamedLast([], TEXT, "text");
    assert [] + [TEXT] == [TEXT] && [TEXT] + [TEXT] == [TEXT, TEXT];
    NamedLast([TEXT], TEXT, "text");
  }

  function NamedNone(): seq<Script> {
    [Script([TEXT, NONE], [Decl(Other(0), ["text", "NONE"], 0)])]
  }

  // A segment called NONE is never marked as used, so one that sections are assigned to is started and
  // ended among the sections and once more at the end.
  lemma NoneAsAName(custom: Custom, p: Plan)
    requires PlanOf(NamedNone(), custom, p)
    ensures Run(Before, 1, AllEvents(p)) != After
  {
    hide PlanOf, AllEvents, Accepted, Headers, Decls, AllMarks, SectionMarks, Named;
    var scripts := NamedNone();
    var headers, names := [TEXT, NONE], ["text", "NONE"];
    OneScript(scripts[0]);
    OneSection(headers, scripts[0].sections[0]);
    NamedNoneNames();
    assert Marks(headers, names, 2) == Marks(headers, names, 1) + MarkOf(headers, "NONE");
    assert Marks(headers, names, 1) == Marks(headers, names, 0) + MarkOf(headers, "text");
    assert 1 !in AllMarks(scripts);
    assert scripts[0].sections[0].phdrs[1] == "NONE";
    assert Assigned(headers, scripts[0].sections[0], 1);
    assert AnyAssigned(headers, scripts[0].sections, 1);
    SegmentOnceExactly(scripts, custom, p, 1);
  }

  lemma NamedNoneNames()
    ensures Named([TEXT, NONE], "text") == Some(0) && Named([TEXT, NONE], "NONE") == Some(1)
  {
    hide Named;
    NamedLast([TEXT], NONE, "NONE");
    NamedLast([TEXT], NONE, "text");
    NamedLast([], TEXT, "text");
    assert [] + [TEXT] == [TEXT] && [TEXT] + [NONE] == [TEXT, NONE];
  }

  lemma NamedNoneIsAccepted()
    ensures Accepted(NamedNone())
  {
    hide Named, Headers, Decls, AllMarks;
    var scripts := NamedNone();
    OneScript(scripts[0]);
    NamedNoneNames();
    assert scripts[..1] == scripts;
    var d := scripts[0].sections[0];
    assert d.phdrs[0] == "text" && Assigned([TEXT, NONE], d, 0);
    assert IsUsedLoad(Headers(scripts), Decls(scripts), 0);
  }

  // ----- Every section once --------------------------------------------------------------------

  // How often section x is emitted.
  function Emitted(events: seq<Event>, x: SectionId): nat {
    if events == [] then 0
    else Emitted(events[..|events| - 1], x) + if events[|events| - 1] == Section(x) then 1 else 0
  }

  function Occurrences(ids: seq<SectionId>, x: SectionId): nat {
    if ids == [] then 0
    else Occurrences(ids[..|ids| - 1], x) + if ids[|ids| - 1] == x then 1 else 0
  }

  lemma NothingOccurs(x: SectionId)
    ensures Occurrences([], x) == 0
  {}

  lemma {:induction false} OccurrencesConcat(a: seq<SectionId>, b: seq<SectionId>, x: SectionId)
    ensures Occurrences(a + b, x) == Occurrences(a, x) + Occurrences(b, x)
  {
    if b == [] {
      assert a + b == a;
    } else {
      assert (a + b)[..|a + b| - 1] == a + b[..|b| - 1];
      OccurrencesConcat(a, b[..|b| - 1], x);
    }
  }

  lemma {:induction false} EmittedConcat(a: seq<Event>, b: seq<Event>, x: SectionId)
    ensures Emitted(a + b, x) == Emitted(a, x) + Emitted(b, x)
  {
    if b == [] {
      assert a + b == a;
    } else {
      assert (a + b)[..|a + b| - 1] == a + b[..|b| - 1];
      EmittedConcat(a, b[..|b| - 1], x);
    }
  }

  lemma EmittedOne(e: Event, x: SectionId)
    ensures Emitted([e], x) == if e == Section(x) then 1 else 0
  {
    assert [e][..0] == [];
  }

  lemma {:induction false} EmittedNone(events: seq<Event>, x: SectionId)
    requires forall i :: 0 <= i < |events| ==> !events[i].Section?
    ensures Emitted(events, x) == 0
  {
    if events != [] { EmittedNone(events[..|events| - 1], x); }
  }

  lemma {:induction false} EmittedSections(ids: seq<SectionId>, x: SectionId)
    ensures Emitted(Sections(ids), x) == Occurrences(ids, x)
  {
    if ids != [] {
      EmittedSections(ids[..|ids| - 1], x);
      assert Sections(ids)[..|ids| - 1] == Sections(ids[..|ids| - 1]);
    }
  }

  function IsHeader(x: SectionId): nat {
    if x == FileHeader || x == ProgramHeaders || x == SectionHeaders then 1 else 0
  }

  lemma EmittedMarked(marker: Event, ends: seq<Event>, tail: seq<Event>, x: SectionId)
    requires forall i :: 0 <= i < |ends| ==> ends[i].SegmentEnd?
    ensures Emitted([marker] + ends + tail, x) == Emitted(tail, x) + if marker == Section(x) then 1 else 0
  {
    hide Emitted;
    EmittedConcat([marker] + ends, tail, x);
    EmittedConcat([marker], ends, x);
    EmittedOne(marker, x);
    EmittedNone(ends, x);
  }

  lemma EmittedHeaders(p: Plan, x: SectionId)
    ensures Emitted(HeaderEvents(p), x) == IsHeader(x)
  {
    hide Emitted;
    var a, b := ToFileHeader(p), ToProgramHeaders(p);
    EmittedConcat(a + b, ToFirstSection(p), x);
    EmittedConcat(a, b, x);
    EmittedNone(a, x);
    var starts := Starts(All(p, OpensAtProgramHeaders));
    EmittedMarked(Section(FileHeader), Ends(All(p, ClosesAfterFileHeader)), starts, x);
    EmittedNone(starts, x);
    var closes, first := Ends(All(p, ClosesAfterProgramHeaders)), Starts(All(p, OpensAt(0)));
    EmittedMarked(Section(ProgramHeaders), closes, [Section(SectionHeaders)], x);
    EmittedOne(Section(SectionHeaders), x);
    EmittedConcat([Section(ProgramHeaders)] + closes + [Section(SectionHeaders)], first, x);
    EmittedNone(first, x);
  }

  lemma EmittedOpening(p: Plan, pos: nat, x: SectionId)
    ensures Emitted(OpeningEvents(p, pos), x) == if pos == 0 then IsHeader(x) else 0
  {
    hide Emitted, HeaderEvents;
    if pos == 0 {
      EmittedHeaders(p, x);
    } else {
      EmittedNone(Starts(All(p, OpensAt(pos))), x);
    }
  }

  function ReadWrite(c: Custom): seq<SectionId> {
    c.tdata + c.tbss + c.data + c.bss
  }

  function If(c: bool, ids: seq<SectionId>, x: SectionId): nat {
    if c then Occurrences(ids, x) else 0
  }

  lemma TakenParts(p: Plan, s: nat, x: SectionId)
    ensures Occurrences(Taken(p, s), x)
            == If(s == p.execTaker, p.custom.exec, x) + If(s == p.rwTaker, ReadWrite(p.custom), x)
               + If(s == p.roTaker, p.custom.ro, x)
  {
    hide Occurrences;
    var exec := if s == p.execTaker then p.custom.exec else [];
    var rw := if s == p.rwTaker then ReadWrite(p.custom) else [];
    var ro := if s == p.roTaker then p.custom.ro else [];
    OccurrencesConcat(exec + rw, ro, x);
    OccurrencesConcat(exec, rw, x);
    NothingOccurs(x);
  }

  predicate ClosesBelow(p: Plan, pos: nat, n: nat, s: nat) {
    s < n && ClosesAt(p, pos, s)
  }

  lemma {:induction false} EmittedClosing(p: Plan, pos: nat, n: nat, x: SectionId)
    requires n <= |p.segments|
    ensures Emitted(ClosingEvents(p, pos, n), x)
            == If(ClosesBelow(p, pos, n, p.execTaker), p.custom.exec, x)
               + If(ClosesBelow(p, pos, n, p.rwTaker), ReadWrite(p.custom), x)
               + If(ClosesBelow(p, pos, n, p.roTaker), p.custom.ro, x)
  {
    hide Emitted, ClosesAt, Taken, ReadWrite, Occurrences;
    if n > 0 {
      EmittedClosing(p, pos, n - 1, x);
      if ClosesAt(p, pos, n - 1) {
        var taken := Sections(Taken(p, n - 1));
        EmittedConcat(ClosingEvents(p, pos, n - 1), taken + [SegmentEnd(n - 1)], x);
        EmittedConcat(taken, [SegmentEnd(n - 1)], x);
        EmittedOne(SegmentEnd(n - 1), x);
        EmittedSections(Taken(p, n - 1), x);
        TakenParts(p, n - 1, x);
      } else {
        assert ClosingEvents(p, pos, n) == ClosingEvents(p, pos, n - 1);
      }
    } else {
      EmittedNone([], x);
    }
  }

  predicate ClosedBefore(p: Plan, n: nat, s: nat) {
    s < |p.segments| && p.segments[s].last.Some? && p.segments[s].last.value < n
  }

  lemma EmittedStep(p: Plan, n: nat, x: SectionId)
    requires 0 < n <= |p.sections|
    ensures Emitted(SectionEvents(p, n), x)
            == Emitted(SectionEvents(p, n - 1), x) + Emitted(OpeningEvents(p, n - 1), x)
               + (if p.sections[n - 1] == x then 1 else 0) + Emitted(ClosingEvents(p, n - 1, |p.segments|), x)
  {
    hide Emitted, OpeningEvents, ClosingEvents;
    var front, opening := SectionEvents(p, n - 1), OpeningEvents(p, n - 1);
    var here, closing := [Section(p.sections[n - 1])], ClosingEvents(p, n - 1, |p.segments|);
    EmittedConcat(front + opening + here, closing, x);
    EmittedConcat(front + opening, here, x);
    EmittedConcat(front, opening, x);
    EmittedOne(here[0], x);
  }

  lemma ClosesNow(p: Plan, n: nat, s: nat, ids: seq<SectionId>, x: SectionId)
    requires n > 0
    ensures If(ClosedBefore(p, n, s), ids, x)
            == If(ClosedBefore(p, n - 1, s), ids, x) + If(ClosesBelow(p, n - 1, |p.segments|, s), ids, x)
  {}

  lemma {:induction false} EmittedSectionEvents(p: Plan, n: nat, x: SectionId)
    requires n <= |p.sections|
    ensures Emitted(SectionEvents(p, n), x)
            == Occurrences(p.sections[..n], x) + (if n > 0 then IsHeader(x) else 0)
               + If(ClosedBefore(p, n, p.execTaker), p.custom.exec, x)
               + If(ClosedBefore(p, n, p.rwTaker), ReadWrite(p.custom), x)
               + If(ClosedBefore(p, n, p.roTaker), p.custom.ro, x)
  {
    hide Emitted, Occurrences, ReadWrite, OpeningEvents, ClosingEvents, IsHeader, SectionEvents, ClosedBefore, If;
    if n > 0 {
      EmittedSectionEvents(p, n - 1, x);
      EmittedStep(p, n, x);
      EmittedOpening(p, n - 1, x);
      EmittedClosing(p, n - 1, |p.segments|, x);
      OneMoreOccurrence(p.sections, n, x);
      ClosesNow(p, n, p.execTaker, p.custom.exec, x);
      ClosesNow(p, n, p.rwTaker, ReadWrite(p.custom), x);
      ClosesNow(p, n, p.roTaker, p.custom.ro, x);
    } else {
      NothingYet(p, x);
    }
  }

  lemma NothingYet(p: Plan, x: SectionId)
    ensures Emitted(SectionEvents(p, 0), x) == 0 && Occurrences(p.sections[..0], x) == 0
    ensures forall s: nat, ids: seq<SectionId> :: If(ClosedBefore(p, 0, s), ids, x) == 0
  {}

  lemma OneMoreOccurrence(ids: seq<SectionId>, n: nat, x: SectionId)
    requires 0 < n <= |ids|
    ensures Occurrences(ids[..n], x) == Occurrences(ids[..n - 1], x) + if ids[n - 1] == x then 1 else 0
  {
    assert ids[..n][..n - 1] == ids[..n - 1];
  }

  lemma {:induction false} EmittedEmpty(p: Plan, n: nat, x: SectionId)
    requires n <= |p.segments|
    ensures Emitted(EmptySegments(p, n), x) == 0
  {
    hide Emitted;
    if n > 0 {
      EmittedEmpty(p, n - 1, x);
      var pair := if p.segments[n - 1].isEmitted then [] else [SegmentStart(n - 1), SegmentEnd(n - 1)];
      EmittedConcat(EmptySegments(p, n - 1), pair, x);
      EmittedNone(pair, x);
    } else {
      EmittedNone([], x);
    }
  }

  lemma EmittedTail(p: Plan, x: SectionId)
    ensures Emitted(TailEvents(p), x)
            == Occurrences(IsNotRiscvAttributes(p.custom.nonalloc), x) + if x == RiscvAttributes then 1 else 0
  {
    hide Emitted, Occurrences, IsNotRiscvAttributes, EmptySegments;
    var riscv := |p.segments|;
    var a, b := Sections(IsNotRiscvAttributes(p.custom.nonalloc)), EmptySegments(p, riscv);
    var c, e := [SegmentStart(riscv)], [SegmentEnd(riscv)];
    assert c + ([Section(RiscvAttributes)] + e) == [SegmentStart(riscv), Section(RiscvAttributes), SegmentEnd(riscv)];
    EmittedConcat(a + b, c + ([Section(RiscvAttributes)] + e), x);
    EmittedConcat(a, b, x);
    EmittedSections(IsNotRiscvAttributes(p.custom.nonalloc), x);
    EmittedEmpty(p, riscv, x);
    EmittedConcat(c, [Section(RiscvAttributes)] + e, x);
    EmittedConcat([Section(RiscvAttributes)], e, x);
    EmittedNone(c, x);
    EmittedNone(e, x);
    EmittedOne(Section(RiscvAttributes), x);
  }

  // Every section is emitted as often as the scripts order it, every section that they do not name as
  // often as it is listed, and the headers and the RISC-V attributes once each.
  lemma EverySectionOnce(scripts: seq<Script>, custom: Custom, p: Plan, x: SectionId)
    requires PlanOf(scripts, custom, p)
    ensures Emitted(AllEvents(p), x)
            == Occurrences(Ids(Decls(scripts)), x) + IsHeader(x)
               + Occurrences(custom.exec, x) + Occurrences(ReadWrite(custom), x) + Occurrences(custom.ro, x)
               + Occurrences(IsNotRiscvAttributes(custom.nonalloc), x) + if x == RiscvAttributes then 1 else 0
  {
    hide Emitted, Occurrences, SectionEvents, TailEvents, IsNotRiscvAttributes, ReadWrite, AllMarks, Assigned, Ids;
    PlanIsValid(scripts, custom, p);
    var n := |p.sections|;
    EmittedConcat(SectionEvents(p, n), TailEvents(p), x);
    EmittedSectionEvents(p, n, x);
    EmittedTail(p, x);
    TakerCloses(scripts, custom, p, p.execTaker);
    TakerCloses(scripts, custom, p, p.rwTaker);
    TakerCloses(scripts, custom, p, p.roTaker);
    assert p.sections[..n] == p.sections;
  }

  lemma TakerCloses(scripts: seq<Script>, custom: Custom, p: Plan, s: nat)
    requires PlanOf(scripts, custom, p) && IsUsedLoad(Headers(scripts), Decls(scripts), s)
    ensures ClosedBefore(p, |p.sections|, s)
  {
    hide AllMarks, Assigned;
    assert SegmentOf(scripts, s, p.segments[s]);
  }

  // Executable sections that no script names lie inside a segment that executes, if sections were assigned
  // to one, and that cannot be written, if there is such a one. In the same way writable ones lie inside
  // one that can be written but not executed, and read-only ones inside one that can only be read.
  lemma UnnamedSectionsByFlags(scripts: seq<Script>, custom: Custom, p: Plan, x: SectionId, s: nat)
    requires PlanOf(scripts, custom, p) && TakersByFlags(scripts, p) && IsUsedLoad(Headers(scripts), Decls(scripts), s)
    ensures x in custom.exec && Executes(SegmentFlags(scripts, s)) ==>
      exists t: nat :: InLoad(scripts, p, t, x) && Executes(SegmentFlags(scripts, t))
        && (Writes(SegmentFlags(scripts, t)) ==> Writes(SegmentFlags(scripts, s)))
    ensures x in custom.tdata + custom.tbss + custom.data + custom.bss && WritesOnly(SegmentFlags(scripts, s)) ==>
      exists t: nat :: InLoad(scripts, p, t, x) && WritesOnly(SegmentFlags(scripts, t))
    ensures x in custom.ro && SegmentFlags(scripts, s) == 4 ==>
      exists t: nat :: InLoad(scripts, p, t, x) && SegmentFlags(scripts, t) == 4
  {
    hide LiesInside, AllEvents, IsUsedLoad, SegmentFlags, PlanOf, Executes, Writes, NotAfter, InLoad;
    assert TakersFor(scripts, p, s);
    if x in custom.exec { TakerHolds(scripts, custom, p, p.execTaker, x); }
    if x in ReadWrite(custom) { TakerHolds(scripts, custom, p, p.rwTaker, x); }
    if x in custom.ro { TakerHolds(scripts, custom, p, p.roTaker, x); }
  }

  ghost predicate InLoad(scripts: seq<Script>, p: Plan, s: nat, x: SectionId) {
    IsUsedLoad(Headers(scripts), Decls(scripts), s) && LiesInside(AllEvents(p), s, x)
  }

  lemma TakerHolds(scripts: seq<Script>, custom: Custom, p: Plan, s: nat, x: SectionId)
    requires PlanOf(scripts, custom, p) && IsUsedLoad(Headers(scripts), Decls(scripts), s)
    requires (s == p.execTaker && x in custom.exec) || (s == p.rwTaker && x in ReadWrite(custom))
             || (s == p.roTaker && x in custom.ro)
    ensures InLoad(scripts, p, s, x)
  {
    hide LiesInside, AllEvents, IsUsedLoad;
    PlanIsValid(scripts, custom, p);
    TakerCloses(scripts, custom, p, s);
    assert x in Taken(p, s);
    TakenLiesInside(p, s, x);
  }

  // The unnamed sections lie inside a LOAD segment.
  lemma UnnamedSectionsInside(scripts: seq<Script>, custom: Custom, p: Plan, x: SectionId)
    requires PlanOf(scripts, custom, p) && x in custom.exec + ReadWrite(custom) + custom.ro
    ensures exists s: nat :: IsUsedLoad(Headers(scripts), Decls(scripts), s) && LiesInside(AllEvents(p), s, x)
  {
    hide LiesInside, AllEvents, IsUsedLoad;
    PlanIsValid(scripts, custom, p);
    var s := if x in custom.exec then p.execTaker else if x in ReadWrite(custom) then p.rwTaker else p.roTaker;
    TakerCloses(scripts, custom, p, s);
    assert x in Taken(p, s);
    TakenLiesInside(p, s, x);
  }
}
