// Reading the PHDRS of linker scripts: which segments there are, which sections each one covers, and
// which scripts are refused.
module PhdrsScan {
  import opened Words
  import opened PhdrsEvents

  const PT_LOAD: nat := 1
  const PT_PHDR: nat := 6
  const PF_X: bv32 := 1
  const PF_W: bv32 := 2
  const PF_R: bv32 := 4

  // A line of PHDRS, its expressions already evaluated.
  datatype Phdr = Phdr(name: string, ptype: nat, flags: Option<bv32>, hasFilehdr: bool, hasPhdrs: bool) {
    predicate HasHeader() { hasFilehdr || hasPhdrs }
  }

  // An output section, the PHDRS names it was assigned to, and the segment flags it calls for.
  datatype Decl = Decl(id: SectionId, phdrs: seq<string>, flags: bv32)

  datatype Script = Script(headers: seq<Phdr>, sections: seq<Decl>)

  datatype Entry = Entry(ptype: nat, flags: bv32, explicitFlags: bool, isEmitted: bool, hasFilehdr: bool, hasPhdrs: bool) {
    predicate HasHeader() { hasFilehdr || hasPhdrs }

    // A section of these flags names the segment.
    function Use(called: bv32): Entry {
      if explicitFlags then this.(isEmitted := true) else this.(isEmitted := true, flags := Union(flags, called))
    }
  }

  function Headers(scripts: seq<Script>): seq<Phdr> {
    if scripts == [] then [] else Headers(scripts[..|scripts| - 1]) + scripts[|scripts| - 1].headers
  }

  function Decls(scripts: seq<Script>): seq<Decl> {
    if scripts == [] then [] else Decls(scripts[..|scripts| - 1]) + scripts[|scripts| - 1].sections
  }

  // A later header of the same name takes the name over.
  function Named(headers: seq<Phdr>, name: string): (r: Option<nat>)
    ensures r.Some? ==> r.value < |headers| && headers[r.value].name == name
    ensures forall i :: 0 <= i < |headers| && headers[i].name == name ==> r.Some? && i <= r.value
  {
    if headers == [] then None
    else if headers[|headers| - 1].name == name then Some(|headers| - 1)
    else Named(headers[..|headers| - 1], name)
  }

  // ----- Scripts that are accepted -------------------------------------------------------------

  predicate BareLoad(h: Phdr) {
    h.ptype == PT_LOAD && !h.HasHeader()
  }

  predicate HasBareLoad(headers: seq<Phdr>) {
    exists i :: 0 <= i < |headers| && BareLoad(headers[i])
  }

  // No LOAD with headers after a LOAD without.
  ghost predicate LoadsInOrder(headers: seq<Phdr>) {
    forall i, j :: 0 <= i < j < |headers| && headers[i].ptype == 1 && headers[j].ptype == 1 ==>
      headers[i].hasFilehdr || headers[i].hasPhdrs || (!headers[j].hasFilehdr && !headers[j].hasPhdrs)
  }

  predicate NameOk(headers: seq<Phdr>, name: string) {
    name == "NONE"
    || (Named(headers, name).Some?
        && var h := headers[Named(headers, name).value];
           h.ptype == 1 || h.ptype == 6 || !(h.hasFilehdr || h.hasPhdrs))
  }

  // Names are looked up among the headers of this and earlier scripts.
  ghost predicate NamesOk(headers: seq<Phdr>, sections: seq<Decl>) {
    forall i, j :: 0 <= i < |sections| && 0 <= j < |sections[i].phdrs| ==> NameOk(headers, sections[i].phdrs[j])
  }

  ghost predicate ScriptsOk(scripts: seq<Script>, n: nat)
    requires n <= |scripts|
  {
    forall k :: 0 <= k < n ==> NamesOk(Headers(scripts[..k + 1]), scripts[k].sections)
  }

  // ----- Which segments are marked as emitted --------------------------------------------------

  function MarkOf(headers: seq<Phdr>, name: string): set<nat> {
    if name != "NONE" && Named(headers, name).Some? then {Named(headers, name).value} else {}
  }

  // The segments that the first n names of a section mark.
  function Marks(headers: seq<Phdr>, phdrs: seq<string>, n: nat): set<nat>
    requires n <= |phdrs|
  {
    if n == 0 then {}
    else
      Marks(headers, phdrs, n - 1) + MarkOf(headers, phdrs[n - 1])
  }

  function SectionMarks(headers: seq<Phdr>, sections: seq<Decl>, n: nat): set<nat>
    requires n <= |sections|
  {
    if n == 0 then {}
    else SectionMarks(headers, sections, n - 1) + Marks(headers, sections[n - 1].phdrs, |sections[n - 1].phdrs|)
  }

  function AllMarks(scripts: seq<Script>): set<nat> {
    if scripts == [] then {}
    else
      var last := scripts[|scripts| - 1];
      AllMarks(scripts[..|scripts| - 1]) + SectionMarks(Headers(scripts), last.sections, |last.sections|)
  }

  // ----- Which flags the sections call for -----------------------------------------------------

  // Section flags called for of a segment.
  datatype Call = Call(segment: nat, flags: bv32)

  function CallOf(headers: seq<Phdr>, name: string, flags: bv32): seq<Call> {
    if name != "NONE" && Named(headers, name).Some? then [Call(Named(headers, name).value, flags)] else []
  }

  // The calls of the first n names of a section.
  function Calls(headers: seq<Phdr>, d: Decl, n: nat): seq<Call>
    requires n <= |d.phdrs|
  {
    if n == 0 then [] else Calls(headers, d, n - 1) + CallOf(headers, d.phdrs[n - 1], d.flags)
  }

  function SectionCalls(headers: seq<Phdr>, sections: seq<Decl>, n: nat): seq<Call>
    requires n <= |sections|
  {
    if n == 0 then []
    else SectionCalls(headers, sections, n - 1) + Calls(headers, sections[n - 1], |sections[n - 1].phdrs|)
  }

  function AllCalls(scripts: seq<Script>): seq<Call> {
    if scripts == [] then []
    else
      var last := scripts[|scripts| - 1];
      AllCalls(scripts[..|scripts| - 1]) + SectionCalls(Headers(scripts), last.sections, |last.sections|)
  }

  function Called(calls: seq<Call>, s: nat): bv32 {
    if calls == [] then 0
    else
      var last := calls[|calls| - 1];
      var before := Called(calls[..|calls| - 1], s);
      if last.segment == s then Union(before, last.flags) else before
  }

  // The flags of a segment: its own, or what it starts with and what its sections call for.
  function FlagsOf(h: Phdr, called: bv32): bv32 {
    if h.flags.Some? then h.flags.value else Union(if h.HasHeader() then PF_R else 0, called)
  }

  // All flags of both.
  function Union(a: bv32, b: bv32): bv32 {
    a | b
  }

  lemma FlagsStart(h: Phdr)
    ensures FlagsOf(h, 0) == if h.flags.Some? then h.flags.value else if h.HasHeader() then PF_R else 0
  {}

  lemma FlagsStep(h: Phdr, called: bv32, flags: bv32)
    ensures FlagsOf(h, Union(called, flags)) == if h.flags.Some? then FlagsOf(h, called) else Union(FlagsOf(h, called), flags)
  {
    hide Union;
    OrInTurn(if h.HasHeader() then PF_R else 0, called, flags);
  }

  lemma OrInTurn(a: bv32, b: bv32, c: bv32)
    ensures Union(a, Union(b, c)) == Union(Union(a, b), c)
  {}

  class Scan {
    var entries: seq<Entry>
    var names: map<string, nat>
    var ordered: seq<Decl>
    var loadWithoutHeaders: bool
    ghost var headers: seq<Phdr>
    ghost var marked: set<nat>
    ghost var calls: seq<Call>

    ghost predicate Valid()
      reads this
    {
      && EntriesMatch(entries, headers, marked, calls) && NamesMatch(names, headers) && LoadsInOrder(headers)
      && (loadWithoutHeaders <==> HasBareLoad(headers))
    }

    constructor ()
      ensures Valid() && headers == [] && marked == {} && calls == [] && ordered == []
    {
      entries, names, ordered, loadWithoutHeaders := [], map[], [], false;
      headers, marked, calls := [], {}, [];
    }

    // One line of PHDRS.
    method AddHeader(h: Phdr) returns (r: Result<()>)
      requires Valid()
      modifies this
      ensures marked == old(marked) && calls == old(calls) && ordered == old(ordered)
      ensures r.Ok? <==> LoadsInOrder(old(headers) + [h])
      ensures r.Ok? ==> Valid() && headers == old(headers) + [h]
    {
      hide EntriesMatch, NamesMatch, LoadsInOrder, HasBareLoad, FlagsOf;
      LoadsAppend(headers, h);
      BareLoadAppend(headers, h);
      if h.ptype == PT_LOAD {
        if h.HasHeader() {
          if loadWithoutHeaders { return Err("PHDRS and FILEHDR are not supported when prior PT_LOAD headers lack them"); }
        } else {
          loadWithoutHeaders := true;
        }
      }
      FlagsStart(h);
      var flags := if h.flags.Some? then h.flags.value else if h.HasHeader() then PF_R else 0;
      var entry := Entry(h.ptype, flags, h.flags.Some?, h.HasHeader(), h.hasFilehdr, h.hasPhdrs);
      NamesAppend(names, headers, h, |entries|) by { EntriesLength(entries, headers, marked, calls); }
      EntriesAppend(entries, headers, marked, calls, h, entry);
      names := names[h.name := |entries|];
      entries := entries + [entry];
      headers := headers + [h];
      r := Ok(());
    }

    // One PHDRS name of a section.
    method AddName(d: Decl, name: string) returns (r: Result<()>)
      requires Valid()
      modifies this`entries, this`marked, this`calls
      ensures r.Ok? <==> NameOk(headers, name)
      ensures r.Ok? ==> Valid() && marked == old(marked) + MarkOf(headers, name)
                        && calls == old(calls) + CallOf(headers, name, d.flags)
    {
      hide EntriesMatch, NamesMatch, LoadsInOrder, FlagsOf, Called, Union, Entry.Use;
      NamesLookup(names, headers, name);
      if name == "NONE" { return Ok(()); }
      if name !in names { return Err("assigned to non-existent phdr"); }
      var s := names[name];
      EntriesAt(entries, headers, marked, calls, s);
      var entry := entries[s];
      if !(entry.ptype == PT_LOAD || entry.ptype == PT_PHDR) && entry.HasHeader() {
        return Err("non-load segment includes file header and/or program header");
      }
      EntryUsed(entry, headers[s], s in marked, Called(calls, s), d.flags);
      entry := entry.Use(d.flags);
      EntriesMark(entries, headers, marked, calls, s, d.flags, entry);
      entries := entries[s := entry];
      marked, calls := marked + {s}, calls + [Call(s, d.flags)];
      r := Ok(());
    }

    // The names of one section.
    method AddSection(d: Decl) returns (r: Result<()>)
      requires Valid()
      modifies this`entries, this`marked, this`calls, this`ordered
      ensures r.Ok? <==> forall j :: 0 <= j < |d.phdrs| ==> NameOk(headers, d.phdrs[j])
      ensures r.Ok? ==> Valid() && marked == old(marked) + Marks(headers, d.phdrs, |d.phdrs|)
                        && calls == old(calls) + Calls(headers, d, |d.phdrs|) && ordered == old(ordered) + [d]
    {
      hide NameOk, MarkOf, CallOf, EntriesMatch, NamesMatch, LoadsInOrder;
      for j := 0 to |d.phdrs|
        invariant Valid() && ordered == old(ordered) && marked == old(marked) + Marks(headers, d.phdrs, j)
        invariant calls == old(calls) + Calls(headers, d, j)
        invariant forall i :: 0 <= i < j ==> NameOk(headers, d.phdrs[i])
      {
        var named := AddName(d, d.phdrs[j]);
        if named.Err? { return Err(named.message); }
      }
      ordered := ordered + [d];
      r := Ok(());
    }

    method AddScript(script: Script) returns (r: Result<()>)
      requires Valid()
      modifies this
      ensures var all := old(headers) + script.headers;
              && (r.Ok? <==> LoadsInOrder(all) && NamesOk(all, script.sections))
              && (r.Ok? ==> Valid() && headers == all && ordered == old(ordered) + script.sections
                            && marked == old(marked) + SectionMarks(all, script.sections, |script.sections|)
                            && calls == old(calls) + SectionCalls(all, script.sections, |script.sections|))
    {
      hide NameOk, Marks, Calls, EntriesMatch, NamesMatch, LoadsInOrder;
      ghost var all := headers + script.headers;
      for i := 0 to |script.headers|
        invariant Valid() && headers == old(headers) + script.headers[..i]
        invariant marked == old(marked) && calls == old(calls) && ordered == old(ordered)
      {
        assert old(headers) + script.headers[..i + 1] == old(headers) + script.headers[..i] + [script.headers[i]];
        LoadsPrefix(old(headers) + script.headers[..i + 1], script.headers[i + 1..]);
        assert old(headers) + script.headers[..i + 1] + script.headers[i + 1..] == all;
        var added := AddHeader(script.headers[i]);
        if added.Err? { return Err(added.message); }
      }
      assert headers == all;
      for i := 0 to |script.sections|
        invariant Valid() && headers == all && ordered == old(ordered) + script.sections[..i]
        invariant marked == old(marked) + SectionMarks(all, script.sections, i)
        invariant calls == old(calls) + SectionCalls(all, script.sections, i)
        invariant NamesOk(all, script.sections[..i])
      {
        var added := AddSection(script.sections[i]);
        if added.Err? { return Err(added.message); }
        assert script.sections[..i + 1] == script.sections[..i] + [script.sections[i]];
      }
      assert script.sections[..|script.sections|] == script.sections;
      r := Ok(());
    }

    method AddScripts(scripts: seq<Script>) returns (r: Result<()>)
      requires Valid() && headers == [] && marked == {} && calls == [] && ordered == []
      modifies this
      ensures r.Ok? <==> LoadsInOrder(Headers(scripts)) && ScriptsOk(scripts, |scripts|)
      ensures r.Ok? ==> Valid() && headers == Headers(scripts) && ordered == Decls(scripts)
                        && marked == AllMarks(scripts) && calls == AllCalls(scripts)
    {
      hide EntriesMatch, NamesMatch, LoadsInOrder, NamesOk, SectionMarks, SectionCalls;
      assert scripts[..0] == [];
      for k := 0 to |scripts|
        invariant Valid() && headers == Headers(scripts[..k]) && ordered == Decls(scripts[..k])
        invariant marked == AllMarks(scripts[..k]) && calls == AllCalls(scripts[..k]) && ScriptsOk(scripts, k)
      {
        assert scripts[..k + 1][..k] == scripts[..k];
        HeadersPrefix(scripts, k + 1);
        var added := AddScript(scripts[k]);
        if added.Err? { return Err(added.message); }
      }
      assert scripts[..|scripts|] == scripts;
      r := Ok(());
    }
  }

  lemma LoadsPrefix(a: seq<Phdr>, b: seq<Phdr>)
    ensures LoadsInOrder(a + b) ==> LoadsInOrder(a)
  {
    assert forall i :: 0 <= i < |a| ==> (a + b)[i] == a[i];
  }

  // An early refusal stands whatever scripts follow.
  lemma {:induction false} HeadersPrefix(scripts: seq<Script>, n: nat)
    requires n <= |scripts|
    ensures Headers(scripts[..n]) <= Headers(scripts)
    ensures LoadsInOrder(Headers(scripts)) ==> LoadsInOrder(Headers(scripts[..n]))
    decreases |scripts| - n
  {
    hide LoadsInOrder;
    if n == |scripts| {
      assert scripts[..n] == scripts;
    } else {
      assert scripts[..n + 1][..n] == scripts[..n];
      HeadersPrefix(scripts, n + 1);
      LoadsPrefix(Headers(scripts[..n]), scripts[n].headers);
    }
  }

  // An entry is what its header says, whether its name was used, and what was called for there.
  ghost predicate EntryMatches(e: Entry, h: Phdr, isMarked: bool, called: bv32) {
    && e.flags == FlagsOf(h, called) && e.explicitFlags == h.flags.Some?
    && e.ptype == h.ptype && e.hasFilehdr == h.hasFilehdr && e.hasPhdrs == h.hasPhdrs
    && (e.isEmitted <==> h.HasHeader() || isMarked)
  }

  lemma EntryUsed(e: Entry, h: Phdr, isMarked: bool, called: bv32, flags: bv32)
    requires EntryMatches(e, h, isMarked, called)
    ensures EntryMatches(e.Use(flags), h, true, Union(called, flags))
  {
    FlagsStep(h, called, flags);
    hide FlagsOf, Union;
  }

  ghost predicate EntriesMatch(entries: seq<Entry>, headers: seq<Phdr>, marked: set<nat>, calls: seq<Call>) {
    && |entries| == |headers|
    && (forall i :: i in marked ==> i < |headers|) && CallsBelow(calls, |headers|)
    && forall i :: 0 <= i < |entries| ==> EntryMatches(entries[i], headers[i], i in marked, Called(calls, i))
  }

  ghost predicate CallsBelow(calls: seq<Call>, n: nat) {
    forall k :: 0 <= k < |calls| ==> calls[k].segment < n
  }

  lemma {:induction false} NotCalled(calls: seq<Call>, n: nat)
    requires CallsBelow(calls, n)
    ensures Called(calls, n) == 0
  {
    if calls != [] { NotCalled(calls[..|calls| - 1], n); }
  }

  lemma CalledStep(calls: seq<Call>, s: nat, flags: bv32)
    ensures forall i: nat :: Called(calls + [Call(s, flags)], i) == if i == s then Union(Called(calls, i), flags) else Called(calls, i)
  {
    hide Union;
    assert (calls + [Call(s, flags)])[..|calls|] == calls;
  }

  ghost predicate NamesMatch(names: map<string, nat>, headers: seq<Phdr>) {
    && (forall name: string :: name in names <==> Named(headers, name).Some?)
    && (forall name: string :: name in names ==> names[name] == Named(headers, name).value)
  }

  lemma EntriesLength(entries: seq<Entry>, headers: seq<Phdr>, marked: set<nat>, calls: seq<Call>)
    requires EntriesMatch(entries, headers, marked, calls)
    ensures |entries| == |headers|
  {}

  lemma EntriesAt(entries: seq<Entry>, headers: seq<Phdr>, marked: set<nat>, calls: seq<Call>, i: nat)
    requires EntriesMatch(entries, headers, marked, calls) && i < |headers|
    ensures i < |entries| && EntryMatches(entries[i], headers[i], i in marked, Called(calls, i))
  {}

  lemma EntriesAppend(entries: seq<Entry>, headers: seq<Phdr>, marked: set<nat>, calls: seq<Call>, h: Phdr, e: Entry)
    requires EntriesMatch(entries, headers, marked, calls) && EntryMatches(e, h, false, 0)
    ensures EntriesMatch(entries + [e], headers + [h], marked, calls)
  {
    NotCalled(calls, |headers|);
    hide EntryMatches, Called;
  }

  lemma EntriesMark(entries: seq<Entry>, headers: seq<Phdr>, marked: set<nat>, calls: seq<Call>, i: nat, flags: bv32, e: Entry)
    requires EntriesMatch(entries, headers, marked, calls) && i < |entries|
    requires EntryMatches(e, headers[i], true, Union(Called(calls, i), flags))
    ensures EntriesMatch(entries[i := e], headers, marked + {i}, calls + [Call(i, flags)])
  {
    CalledStep(calls, i, flags);
    hide EntryMatches, Called, Union;
  }

  lemma NamesAppend(names: map<string, nat>, headers: seq<Phdr>, h: Phdr, id: nat)
    requires NamesMatch(names, headers) && id == |headers|
    ensures NamesMatch(names[h.name := id], headers + [h])
  {
    hide Named;
    NamedAppend(headers, h);
  }

  lemma NamesLookup(names: map<string, nat>, headers: seq<Phdr>, name: string)
    requires NamesMatch(names, headers)
    ensures name in names <==> Named(headers, name).Some?
    ensures name in names ==> names[name] == Named(headers, name).value
  {}

  lemma BareLoadAppend(headers: seq<Phdr>, h: Phdr)
    ensures HasBareLoad(headers + [h]) <==> BareLoad(h) || HasBareLoad(headers)
  {
    var all := headers + [h];
    assert all[|headers|] == h;
    if exists i :: 0 <= i < |headers| && BareLoad(headers[i]) {
      var i :| 0 <= i < |headers| && BareLoad(headers[i]);
      assert BareLoad(all[i]);
    }
  }

  lemma NamedAppend(headers: seq<Phdr>, h: Phdr)
    ensures forall name: string :: Named(headers + [h], name) == if h.name == name then Some(|headers|) else Named(headers, name)
  {
    assert (headers + [h])[..|headers|] == headers;
  }

  lemma LoadsAppend(headers: seq<Phdr>, h: Phdr)
    requires LoadsInOrder(headers)
    ensures LoadsInOrder(headers + [h])
       <==> !(h.ptype == PT_LOAD && h.HasHeader() && HasBareLoad(headers))
  {
    var all := headers + [h];
    assert all[|headers|] == h;
    assert forall i :: 0 <= i < |headers| ==> all[i] == headers[i];
  }

  // ----- Where flags come from -----------------------------------------------------------------

  // Some flag of the mask is set.
  predicate Has(flags: bv32, mask: bv32) {
    flags & mask != 0
  }

  lemma HasUnion(a: bv32, b: bv32, mask: bv32)
    ensures Has(Union(a, b), mask) <==> Has(a, mask) || Has(b, mask)
    ensures !Has(0, mask)
  {
    AndUnion(a, b, mask);
    NoFlags(a & mask, b & mask);
  }

  lemma AndUnion(a: bv32, b: bv32, mask: bv32)
    ensures (a | b) & mask == (a & mask) | (b & mask)
  {}

  lemma NoFlags(a: bv32, b: bv32)
    ensures a | b == 0 <==> a == 0 && b == 0
  {}

  ghost predicate SomeCalls(calls: seq<Call>, s: nat, mask: bv32) {
    exists k :: 0 <= k < |calls| && calls[k].segment == s && Has(calls[k].flags, mask)
  }

  lemma SomeCallsConcat(a: seq<Call>, b: seq<Call>, s: nat, mask: bv32)
    ensures SomeCalls(a + b, s, mask) <==> SomeCalls(a, s, mask) || SomeCalls(b, s, mask)
  {
    hide Has;
    if k :| 0 <= k < |a| && a[k].segment == s && Has(a[k].flags, mask) { assert (a + b)[k] == a[k]; }
    if k :| 0 <= k < |b| && b[k].segment == s && Has(b[k].flags, mask) { assert (a + b)[|a| + k] == b[k]; }
  }

  lemma {:induction false} CalledBits(calls: seq<Call>, s: nat, mask: bv32)
    ensures Has(Called(calls, s), mask) <==> SomeCalls(calls, s, mask)
  {
    HasUnion(0, 0, mask);
    hide Has, Union;
    if calls != [] {
      var front, last := calls[..|calls| - 1], calls[|calls| - 1];
      CalledBits(front, s, mask);
      HasUnion(Called(front, s), last.flags, mask);
      assert calls == front + [last] && [last][0] == last;
      SomeCallsConcat(front, [last], s, mask);
    }
  }

  // Name number j of the section is one of segment s, and the section has such a flag.
  predicate NameCalls(headers: seq<Phdr>, d: Decl, j: nat, s: nat, mask: bv32)
    requires j < |d.phdrs|
  {
    d.phdrs[j] != "NONE" && Named(headers, d.phdrs[j]) == Some(s) && Has(d.flags, mask)
  }

  lemma {:induction false} CallsBits(headers: seq<Phdr>, d: Decl, n: nat, s: nat, mask: bv32)
    requires n <= |d.phdrs|
    ensures SomeCalls(Calls(headers, d, n), s, mask) <==> exists j :: 0 <= j < n && NameCalls(headers, d, j, s, mask)
  {
    hide Has, Named;
    if n > 0 {
      CallsBits(headers, d, n - 1, s, mask);
      var last := CallOf(headers, d.phdrs[n - 1], d.flags);
      SomeCallsConcat(Calls(headers, d, n - 1), last, s, mask);
      assert NameCalls(headers, d, n - 1, s, mask) ==> last[0].segment == s;
    }
  }

  predicate DeclCalls(headers: seq<Phdr>, d: Decl, s: nat, mask: bv32) {
    exists j :: 0 <= j < |d.phdrs| && NameCalls(headers, d, j, s, mask)
  }

  lemma {:induction false} SectionCallsBits(headers: seq<Phdr>, sections: seq<Decl>, n: nat, s: nat, mask: bv32)
    requires n <= |sections|
    ensures SomeCalls(SectionCalls(headers, sections, n), s, mask)
       <==> exists i :: 0 <= i < n && DeclCalls(headers, sections[i], s, mask)
  {
    hide SomeCalls, NameCalls, Calls;
    if n > 0 {
      SectionCallsBits(headers, sections, n - 1, s, mask);
      var last := sections[n - 1];
      CallsBits(headers, last, |last.phdrs|, s, mask);
      SomeCallsConcat(SectionCalls(headers, sections, n - 1), Calls(headers, last, |last.phdrs|), s, mask);
    } else {
      assert !SomeCalls([], s, mask) by { NoCalls(s, mask); }
    }
  }

  lemma NoCalls(s: nat, mask: bv32)
    ensures !SomeCalls([], s, mask)
  {}

  // A section of script number k is assigned to segment s, by the names known by then, and has such a flag.
  predicate ScriptCalls(scripts: seq<Script>, k: nat, s: nat, mask: bv32)
    requires k < |scripts|
  {
    exists i :: 0 <= i < |scripts[k].sections| && DeclCalls(Headers(scripts[..k + 1]), scripts[k].sections[i], s, mask)
  }

  lemma {:induction false} AllCallsBits(scripts: seq<Script>, n: nat, s: nat, mask: bv32)
    requires n <= |scripts|
    ensures SomeCalls(AllCalls(scripts[..n]), s, mask) <==> exists k :: 0 <= k < n && ScriptCalls(scripts, k, s, mask)
  {
    hide SomeCalls, DeclCalls, Headers, SectionCalls;
    if n > 0 {
      AllCallsBits(scripts, n - 1, s, mask);
      var here, last := scripts[..n], scripts[n - 1];
      assert here[..n - 1] == scripts[..n - 1];
      SectionCallsBits(Headers(here), last.sections, |last.sections|, s, mask);
      SomeCallsConcat(AllCalls(here[..n - 1]), SectionCalls(Headers(here), last.sections, |last.sections|), s, mask);
      assert ScriptCalls(scripts, n - 1, s, mask) <==> SomeCalls(SectionCalls(Headers(here), last.sections, |last.sections|), s, mask);
    } else {
      NoCalls(s, mask);
    }
  }

  // A segment without flags of its own has a flag if and only if it has headers and the flag is PF_R, or
  // some section that was assigned to it has the flag.
  lemma FlagsCalledFor(scripts: seq<Script>, h: Phdr, s: nat, mask: bv32)
    requires h.flags.None?
    ensures Has(FlagsOf(h, Called(AllCalls(scripts), s)), mask)
       <==> (h.HasHeader() && Has(4, mask)) || exists k :: 0 <= k < |scripts| && ScriptCalls(scripts, k, s, mask)
  {
    assert scripts[..|scripts|] == scripts;
    AllCallsBits(scripts, |scripts|, s, mask);
    CalledBits(AllCalls(scripts), s, mask);
    HeaderBits(h, mask);
    HasUnion(if h.HasHeader() then PF_R else 0, Called(AllCalls(scripts), s), mask);
    hide Has, Union, ScriptCalls, Called, AllCalls;
  }

  lemma HeaderBits(h: Phdr, mask: bv32)
    ensures Has(if h.HasHeader() then PF_R else 0, mask) <==> h.HasHeader() && Has(4, mask)
  {}

  // ----- What each segment covers --------------------------------------------------------------

  // Section number pos was assigned to segment s, going by the names of all scripts.
  predicate Assigned(headers: seq<Phdr>, d: Decl, s: nat) {
    exists j :: 0 <= j < |d.phdrs| && Named(headers, d.phdrs[j]) == Some(s)
  }

  // The first and the last of the first n sections that were assigned to segment s.
  function FirstAssigned(headers: seq<Phdr>, sections: seq<Decl>, n: nat, s: nat): (r: Option<nat>)
    requires n <= |sections|
    ensures r.Some? ==> r.value < n && Assigned(headers, sections[r.value], s)
    ensures forall i :: 0 <= i < n && Assigned(headers, sections[i], s) ==> r.Some? && r.value <= i
  {
    if n == 0 then None
    else if FirstAssigned(headers, sections, n - 1, s).Some? then FirstAssigned(headers, sections, n - 1, s)
    else if Assigned(headers, sections[n - 1], s) then Some(n - 1)
    else None
  }

  function LastAssigned(headers: seq<Phdr>, sections: seq<Decl>, n: nat, s: nat): (r: Option<nat>)
    requires n <= |sections|
    ensures r.Some? ==> r.value < n && Assigned(headers, sections[r.value], s)
    ensures forall i :: 0 <= i < n && Assigned(headers, sections[i], s) ==> r.Some? && i <= r.value
  {
    if n == 0 then None
    else if Assigned(headers, sections[n - 1], s) then Some(n - 1)
    else LastAssigned(headers, sections, n - 1, s)
  }

  // The same while section number n is in progress, with j of its names done.
  predicate AssignedUpTo(headers: seq<Phdr>, d: Decl, j: nat, s: nat)
    requires j <= |d.phdrs|
  {
    exists k :: 0 <= k < j && Named(headers, d.phdrs[k]) == Some(s)
  }

  function FirstSoFar(headers: seq<Phdr>, sections: seq<Decl>, n: nat, j: nat, s: nat): Option<nat>
    requires n < |sections| && j <= |sections[n].phdrs|
  {
    var before := FirstAssigned(headers, sections, n, s);
    if before.Some? then before else if AssignedUpTo(headers, sections[n], j, s) then Some(n) else None
  }

  function LastSoFar(headers: seq<Phdr>, sections: seq<Decl>, n: nat, j: nat, s: nat): Option<nat>
    requires n < |sections| && j <= |sections[n].phdrs|
  {
    if AssignedUpTo(headers, sections[n], j, s) then Some(n) else LastAssigned(headers, sections, n, s)
  }

  lemma SoFarEnds(headers: seq<Phdr>, sections: seq<Decl>, n: nat, s: nat)
    requires n < |sections|
    ensures FirstSoFar(headers, sections, n, 0, s) == FirstAssigned(headers, sections, n, s)
    ensures LastSoFar(headers, sections, n, 0, s) == LastAssigned(headers, sections, n, s)
    ensures FirstSoFar(headers, sections, n, |sections[n].phdrs|, s) == FirstAssigned(headers, sections, n + 1, s)
    ensures LastSoFar(headers, sections, n, |sections[n].phdrs|, s) == LastAssigned(headers, sections, n + 1, s)
  {
    hide Named;
  }

  lemma SoFarStep(headers: seq<Phdr>, sections: seq<Decl>, n: nat, j: nat, s: nat)
    requires n < |sections| && j < |sections[n].phdrs|
    ensures var here := Named(headers, sections[n].phdrs[j]) == Some(s);
            var first, last := FirstSoFar(headers, sections, n, j, s), LastSoFar(headers, sections, n, j, s);
            && FirstSoFar(headers, sections, n, j + 1, s) == (if here && first.None? then Some(n) else first)
            && LastSoFar(headers, sections, n, j + 1, s) == (if here then Some(n) else last)
  {
    hide Named, FirstAssigned, LastAssigned;
    var phdrs := sections[n].phdrs;
    assert AssignedUpTo(headers, sections[n], j + 1, s)
      <==> AssignedUpTo(headers, sections[n], j, s) || Named(headers, phdrs[j]) == Some(s);
  }
}
