// Merging the GNU property notes of all input files.
module GnuProperties {
  import opened Words

  datatype Class = Or | And | AndOr

  // A word of property data, as the set of its bits.
  type Bits = set<nat>

  datatype Property = Property(ptype: nat, data: Bits)

  // How each type of property is merged. Types that are not there are refused.
  type Classes = map<nat, Class>

  type File = seq<Property>

  const X86_ISA_1_NEEDED: nat := 0xc000_8002

  // ----- One file ------------------------------------------------------------------------------

  predicate Has(file: File, t: nat) {
    exists i :: 0 <= i < |file| && file[i].ptype == t
  }

  predicate Sets(file: File, t: nat, bit: nat) {
    exists i :: 0 <= i < |file| && file[i].ptype == t && bit in file[i].data
  }

  // Everything that the file sets.
  function FileBits(file: File, t: nat): Bits {
    if file == [] then {}
    else
      var last := file[|file| - 1];
      FileBits(file[..|file| - 1], t) + if last.ptype == t then last.data else {}
  }

  lemma {:induction false} FileBitsSet(file: File, t: nat, bit: nat)
    ensures bit in FileBits(file, t) <==> Sets(file, t, bit)
  {
    if file != [] {
      var front := file[..|file| - 1];
      FileBitsSet(front, t, bit);
      if Sets(front, t, bit) {
        var i :| 0 <= i < |front| && front[i].ptype == t && bit in front[i].data;
        assert file[i] == front[i];
      }
    }
  }

  // ----- All files -----------------------------------------------------------------------------

  predicate AnyHas(files: seq<File>, t: nat) {
    exists i :: 0 <= i < |files| && Has(files[i], t)
  }

  predicate AllHave(files: seq<File>, t: nat) {
    forall i :: 0 <= i < |files| ==> Has(files[i], t)
  }

  function Join(c: Class, a: Bits, b: Bits): Bits {
    if c == And then a * b else a + b
  }

  // The bits of a type over all files that have it.
  function AllBits(files: seq<File>, t: nat, c: Class): Bits {
    if files == [] then {}
    else
      var front, last := files[..|files| - 1], files[|files| - 1];
      if !Has(last, t) then AllBits(front, t, c)
      else if !AnyHas(front, t) then FileBits(last, t)
      else Join(c, AllBits(front, t, c), FileBits(last, t))
  }

  lemma AnyHasMore(files: seq<File>, file: File, t: nat)
    ensures AnyHas(files + [file], t) <==> AnyHas(files, t) || Has(file, t)
  {
    hide Has;
    assert (files + [file])[|files|] == file;
    if AnyHas(files, t) {
      var i :| 0 <= i < |files| && Has(files[i], t);
      assert (files + [file])[i] == files[i];
    }
  }

  ghost predicate SomeSets(files: seq<File>, t: nat, bit: nat) {
    exists i :: 0 <= i < |files| && Sets(files[i], t, bit)
  }

  ghost predicate AllThatHaveSet(files: seq<File>, t: nat, bit: nat) {
    forall i :: 0 <= i < |files| && Has(files[i], t) ==> Sets(files[i], t, bit)
  }

  lemma SetsHas(file: File, t: nat, bit: nat)
    requires Sets(file, t, bit)
    ensures Has(file, t)
  {}

  // For And a bit stays when every file that has the type sets it, otherwise when some file does.
  lemma {:induction false} AllBitsSet(files: seq<File>, t: nat, c: Class, bit: nat)
    ensures bit in AllBits(files, t, c)
       <==> if c == And then AnyHas(files, t) && AllThatHaveSet(files, t, bit) else SomeSets(files, t, bit)
  {
    hide Has, Sets, FileBits;
    if files != [] {
      var front, last := files[..|files| - 1], files[|files| - 1];
      assert files == front + [last];
      AllBitsSet(front, t, c, bit);
      FileBitsSet(last, t, bit);
      AnyHasMore(front, last, t);
      if Sets(last, t, bit) { SetsHas(last, t, bit); }
      SomeSetsMore(front, last, t, bit);
      AllSetMore(front, last, t, bit);
      hide SomeSets, AllThatHaveSet, AnyHas;
      if !AnyHas(front, t) { NoneHas(front, t, bit); }
    }
  }

  lemma SomeSetsMore(files: seq<File>, file: File, t: nat, bit: nat)
    ensures SomeSets(files + [file], t, bit) <==> SomeSets(files, t, bit) || Sets(file, t, bit)
  {
    hide Sets;
    assert (files + [file])[|files|] == file;
    if SomeSets(files, t, bit) {
      var i :| 0 <= i < |files| && Sets(files[i], t, bit);
      assert (files + [file])[i] == files[i];
    }
  }

  lemma AllSetMore(files: seq<File>, file: File, t: nat, bit: nat)
    ensures AllThatHaveSet(files + [file], t, bit)
       <==> AllThatHaveSet(files, t, bit) && (Has(file, t) ==> Sets(file, t, bit))
  {
    hide Sets, Has;
    var all := files + [file];
    assert all[|files|] == file && forall i :: 0 <= i < |files| ==> all[i] == files[i];
  }

  lemma NoneHas(files: seq<File>, t: nat, bit: nat)
    requires !AnyHas(files, t)
    ensures !SomeSets(files, t, bit) && AllThatHaveSet(files, t, bit)
  {
    hide Has, Sets;
    if i :| 0 <= i < |files| && Sets(files[i], t, bit) {
      SetsHas(files[i], t, bit);
    }
  }

  // ----- What the output should hold -----------------------------------------------------------

  // The class and the bits of a type before it is decided whether to keep it. ISA needs from the
  // command line are added last.
  function Merged(classes: Classes, files: seq<File>, isa: Option<Bits>, t: nat): Option<(Bits, Class)>
    requires AnyHas(files, t) ==> t in classes
  {
    var fromFiles := if AnyHas(files, t) then Some((AllBits(files, t, classes[t]), classes[t])) else None;
    if t != X86_ISA_1_NEEDED || isa.None? then fromFiles
    else if fromFiles.Some? then Some((fromFiles.value.0 + isa.value, fromFiles.value.1))
    else Some((isa.value, Or))
  }

  predicate Keeps(files: seq<File>, t: nat, m: (Bits, Class)) {
    match m.1
    case Or => m.0 != {}
    case And => AllHave(files, t) && m.0 != {}
    case AndOr => AllHave(files, t)
  }

  function Expected(classes: Classes, files: seq<File>, isa: Option<Bits>, t: nat): Option<Bits>
    requires AnyHas(files, t) ==> t in classes
  {
    var m := Merged(classes, files, isa, t);
    if m.Some? && Keeps(files, t, m.value) then Some(m.value.0) else None
  }

  // A bit that the output should have: one from the command line, one that every file sets, for And, or
  // one that some file sets, otherwise.
  ghost predicate Wanted(c: Class, files: seq<File>, extra: Bits, t: nat, bit: nat) {
    bit in extra || if c.And? then forall i :: 0 <= i < |files| ==> Sets(files[i], t, bit) else SomeSets(files, t, bit)
  }

  // In the output are, with exactly the bits wanted: of class And the types that all files have, of class
  // Or and And those with some bit, of class AndOr those that all files have even without one. A type that
  // only the command line asks for counts as Or.
  lemma InOutputExactly(classes: Classes, files: seq<File>, isa: Option<Bits>, t: nat)
    requires AnyHas(files, t) ==> t in classes
    ensures var asked := t == 0xc000_8002 && isa.Some?;
            var c, extra := if AnyHas(files, t) then classes[t] else Or, if asked then isa.value else {};
            var e := Expected(classes, files, isa, t);
            && (e.Some? <==>
                  && (asked || AnyHas(files, t))
                  && (c.And? || c.AndOr? ==> forall i :: 0 <= i < |files| ==> Has(files[i], t))
                  && (c.And? || c.Or? ==> exists bit :: Wanted(c, files, extra, t, bit)))
            && (e.Some? ==> forall bit :: bit in e.value <==> Wanted(c, files, extra, t, bit))
  {
    hide Has, Sets, AllBits, SomeSets;
    var asked := t == 0xc000_8002 && isa.Some?;
    var c, extra := if AnyHas(files, t) then classes[t] else Or, if asked then isa.value else {};
    var m := Merged(classes, files, isa, t);
    assert m.Some? ==> m.value.1 == c && m.value.0 == (if AnyHas(files, t) then AllBits(files, t, c) else {}) + extra;
    if m.Some? {
      forall bit: nat | c.And? ==> AllHave(files, t) ensures bit in m.value.0 <==> Wanted(c, files, extra, t, bit) {
        AllBitsSet(files, t, c, bit);
        EveryFile(files, t, bit);
        if !AnyHas(files, t) { NoneHas(files, t, bit); }
      }
    }
  }

  lemma EveryFile(files: seq<File>, t: nat, bit: nat)
    ensures AllHave(files, t) ==> (AllThatHaveSet(files, t, bit) <==> forall i :: 0 <= i < |files| ==> Sets(files[i], t, bit))
  {
    hide Has, Sets;
  }

  // The order of the files plays no part.
  lemma OrderPlaysNoPart(classes: Classes, a: seq<File>, b: seq<File>, isa: Option<Bits>, t: nat)
    requires multiset(a) == multiset(b) && (AnyHas(a, t) ==> t in classes)
    ensures AnyHas(b, t) ==> t in classes
    ensures Expected(classes, a, isa, t) == Expected(classes, b, isa, t)
  {
    hide Has, Sets, AllBits;
    assert forall x :: x in a <==> x in multiset(a);
    assert forall x :: x in b <==> x in multiset(b);
    assert AnyHas(a, t) <==> AnyHas(b, t) by { AnyByMembers(a, t); AnyByMembers(b, t); }
    assert AllHave(a, t) <==> AllHave(b, t) by { AllByMembers(a, t); AllByMembers(b, t); }
    if AnyHas(a, t) {
      forall bit: nat ensures bit in AllBits(a, t, classes[t]) <==> bit in AllBits(b, t, classes[t]) {
        AllBitsSet(a, t, classes[t], bit);
        AllBitsSet(b, t, classes[t], bit);
        SetByMembers(a, t, bit);
        SetByMembers(b, t, bit);
      }
      assert AllBits(a, t, classes[t]) == AllBits(b, t, classes[t]);
    }
  }

  lemma AnyByMembers(files: seq<File>, t: nat)
    ensures AnyHas(files, t) <==> exists file :: file in files && Has(file, t)
  {
    hide Has;
  }

  lemma AllByMembers(files: seq<File>, t: nat)
    ensures AllHave(files, t) <==> forall file :: file in files ==> Has(file, t)
  {
    hide Has;
  }

  lemma SetByMembers(files: seq<File>, t: nat, bit: nat)
    ensures SomeSets(files, t, bit) <==> exists file :: file in files && Sets(file, t, bit)
    ensures AllThatHaveSet(files, t, bit) <==> forall file :: file in files && Has(file, t) ==> Sets(file, t, bit)
  {
    hide Has, Sets;
  }

  // ----- Merging -------------------------------------------------------------------------------

  type PropertyMap = map<nat, (Bits, Class)>

  ghost predicate IsFileMap(classes: Classes, file: File, m: PropertyMap) {
    forall t: nat :: (t in m <==> Has(file, t)) && (t in m ==> t in classes && m[t] == (FileBits(file, t), classes[t]))
  }

  lemma FileMore(classes: Classes, file: File, p: Property, m: PropertyMap)
    requires IsFileMap(classes, file, m) && p.ptype in classes
    ensures IsFileMap(classes, file + [p],
                      m[p.ptype := if p.ptype in m then (m[p.ptype].0 + p.data, m[p.ptype].1) else (p.data, classes[p.ptype])])
  {
    var all := file + [p];
    assert all[..|file|] == file;
    forall t: nat
      ensures Has(all, t) <==> Has(file, t) || t == p.ptype
      ensures FileBits(all, t) == if t == p.ptype then FileBits(file, t) + p.data else FileBits(file, t)
    {
      HasMore(file, p, t);
    }
    if !Has(file, p.ptype) {
      NothingFromFile(file, p.ptype);
      assert {} + p.data == p.data;
    }
  }

  lemma HasMore(file: File, p: Property, t: nat)
    ensures Has(file + [p], t) <==> Has(file, t) || p.ptype == t
  {
    var all := file + [p];
    assert all[|file|] == p;
    if Has(file, t) {
      var i :| 0 <= i < |file| && file[i].ptype == t;
      assert all[i] == file[i];
    }
  }

  lemma {:induction false} NothingFromFile(file: File, t: nat)
    requires !Has(file, t)
    ensures FileBits(file, t) == {}
  {
    if file != [] {
      var front, last := file[..|file| - 1], file[|file| - 1];
      assert file == front + [last];
      HasMore(front, last, t);
      NothingFromFile(front, t);
    }
  }

  predicate Classified(classes: Classes, file: File) {
    forall i :: 0 <= i < |file| ==> file[i].ptype in classes
  }

  // What one file sets, by type.
  method MergeFile(classes: Classes, file: File) returns (r: Result<PropertyMap>)
    ensures r.Ok? <==> Classified(classes, file)
    ensures r.Ok? ==> IsFileMap(classes, file, r.value)
  {
    hide IsFileMap;
    var m: PropertyMap := map[];
    assert IsFileMap(classes, file[..0], m) by { EmptyFile(classes); }
    for i := 0 to |file|
      invariant Classified(classes, file[..i]) && IsFileMap(classes, file[..i], m)
    {
      var p := file[i];
      if p.ptype !in classes { return Err("unclassified property type"); }
      FileMore(classes, file[..i], p, m);
      assert file[..i + 1] == file[..i] + [p];
      m := m[p.ptype := if p.ptype in m then (m[p.ptype].0 + p.data, m[p.ptype].1) else (p.data, classes[p.ptype])];
    }
    assert file[..|file|] == file;
    r := Ok(m);
  }

  lemma EmptyFile(classes: Classes)
    ensures IsFileMap(classes, [], map[])
  {}

  // One type of a file joined to what there is.
  function JoinEntry(m: PropertyMap, t: nat, entry: (Bits, Class)): (Bits, Class) {
    if t in m then (Join(entry.1, m[t].0, entry.0), m[t].1) else entry
  }

  // The types of a file come in no particular order.
  method MergeInto(m: PropertyMap, file: PropertyMap) returns (r: PropertyMap)
    ensures r.Keys == m.Keys + file.Keys
    ensures forall t :: t in r ==> r[t] == if t in file then JoinEntry(m, t, file[t]) else m[t]
  {
    hide JoinEntry;
    r := m;
    var todo := file.Keys;
    while todo != {}
      invariant todo <= file.Keys && r.Keys == m.Keys + (file.Keys - todo)
      invariant forall t :: t in r ==> r[t] == if t in file && t !in todo then JoinEntry(m, t, file[t]) else m[t]
      decreases todo
    {
      var t :| t in todo;
      assert JoinEntry(r, t, file[t]) == JoinEntry(m, t, file[t]) by { SameEntry(m, r, t, file[t]); }
      r := r[t := JoinEntry(r, t, file[t])];
      todo := todo - {t};
    }
  }

  lemma SameEntry(m: PropertyMap, r: PropertyMap, t: nat, entry: (Bits, Class))
    requires (t in r <==> t in m) && (t in m ==> r[t] == m[t])
    ensures JoinEntry(r, t, entry) == JoinEntry(m, t, entry)
  {}

  ghost predicate IsMerged(classes: Classes, files: seq<File>, m: PropertyMap) {
    forall t: nat :: (t in m <==> AnyHas(files, t))
                     && (t in m ==> t in classes && m[t] == (AllBits(files, t, classes[t]), classes[t]))
  }

  lemma MergedMore(classes: Classes, files: seq<File>, file: File, m: PropertyMap, f: PropertyMap, r: PropertyMap)
    requires IsMerged(classes, files, m) && IsFileMap(classes, file, f) && r.Keys == m.Keys + f.Keys
    requires forall t :: t in r ==> r[t] == if t in f then JoinEntry(m, t, f[t]) else m[t]
    ensures IsMerged(classes, files + [file], r)
  {
    hide Has, FileBits, AnyHas, Join;
    var all := files + [file];
    assert all[..|files|] == files;
    forall t: nat
      ensures t in r <==> AnyHas(all, t)
      ensures t in r ==> t in classes && r[t] == (AllBits(all, t, classes[t]), classes[t])
    {
      AnyHasMore(files, file, t);
      assert t in r <==> t in m || t in f;
    }
  }

  method MergeFiles(classes: Classes, files: seq<File>) returns (r: Result<PropertyMap>)
    ensures r.Ok? <==> forall i :: 0 <= i < |files| ==> Classified(classes, files[i])
    ensures r.Ok? ==> IsMerged(classes, files, r.value)
  {
    hide IsMerged, IsFileMap, Classified, JoinEntry;
    var m: PropertyMap := map[];
    assert IsMerged(classes, files[..0], m) by { NoFiles(classes); }
    for i := 0 to |files|
      invariant IsMerged(classes, files[..i], m) && forall k :: 0 <= k < i ==> Classified(classes, files[k])
    {
      var file := MergeFile(classes, files[i]);
      if file.Err? { return Err(file.message); }
      var m' := MergeInto(m, file.value);
      MergedMore(classes, files[..i], files[i], m, file.value, m');
      assert files[..i + 1] == files[..i] + [files[i]];
      m := m';
    }
    assert files[..|files|] == files;
    r := Ok(m);
  }

  lemma NoFiles(classes: Classes)
    ensures IsMerged(classes, [], map[])
  {}

  // ----- The output ----------------------------------------------------------------------------

  ghost predicate Ascending(out: seq<Property>) {
    forall i, j :: 0 <= i < j < |out| ==> out[i].ptype < out[j].ptype
  }

  ghost predicate Holds(out: seq<Property>, t: nat, data: Option<Bits>) {
    && (data.Some? ==> Property(t, data.value) in out)
    && forall p :: p in out && p.ptype == t ==> data == Some(p.data)
  }

  lemma {:induction false} LeastExists(keys: set<nat>) returns (t: nat)
    requires keys != {}
    ensures t in keys && forall u :: u in keys ==> t <= u
    decreases |keys|
  {
    t :| t in keys;
    if keys != {t} {
      var u := LeastExists(keys - {t});
      assert forall v :: v in keys ==> v == t || v in keys - {t};
      if u < t { t := u; }
    }
  }

  // The types in ascending order, without those that are not kept.
  method OutputProperties(files: seq<File>, m: PropertyMap) returns (out: seq<Property>)
    ensures Ascending(out)
    ensures forall t: nat :: Holds(out, t, if t in m && Keeps(files, t, m[t]) then Some(m[t].0) else None)
  {
    hide Keeps, Holds, Ascending;
    out := [];
    NothingHeld();
    var todo := m.Keys;
    while todo != {}
      invariant todo <= m.Keys && Ascending(out)
      invariant forall p, t :: p in out && t in todo ==> p.ptype < t
      invariant forall t: nat :: Holds(out, t, if t in m && t !in todo && Keeps(files, t, m[t]) then Some(m[t].0) else None)
      decreases todo
    {
      ghost var least := LeastExists(todo);
      var t :| t in todo && forall u :: u in todo ==> t <= u;
      if Keeps(files, t, m[t]) {
        AppendHolds(out, Property(t, m[t].0));
        AppendedTypes(out, Property(t, m[t].0));
        out := out + [Property(t, m[t].0)];
      }
      todo := todo - {t};
    }
  }

  lemma NothingHeld()
    ensures Ascending([]) && forall t: nat :: Holds([], t, None)
  {}

  lemma AppendedTypes(out: seq<Property>, p: Property)
    ensures forall q :: q in out + [p] <==> q in out || q == p
  {}

  lemma AppendHolds(out: seq<Property>, p: Property)
    requires Ascending(out) && forall q :: q in out ==> q.ptype < p.ptype
    ensures Ascending(out + [p]) && Holds(out + [p], p.ptype, Some(p.data))
    ensures forall t: nat, data: Option<Bits> :: t != p.ptype && Holds(out, t, data) ==> Holds(out + [p], t, data)
  {
    var all := out + [p];
    forall i | 0 <= i < |out| ensures out[i].ptype < p.ptype { assert out[i] in out; }
    assert all[|out|] == p;
    forall t: nat, data: Option<Bits> | t != p.ptype && Holds(out, t, data) ensures Holds(all, t, data) {
      if data.Some? { assert Property(t, data.value) in all; }
    }
  }

  // Each type once, in ascending order, with the bits that its class calls for.
  method MergeGnuPropertyNotes(classes: Classes, files: seq<File>, isaNeeded: Option<Bits>) returns (r: Result<seq<Property>>)
    ensures r.Ok? <==> forall i :: 0 <= i < |files| ==> Classified(classes, files[i])
    ensures r.Ok? ==> Ascending(r.value) && forall t: nat ::
              (AnyHas(files, t) ==> t in classes) && Holds(r.value, t, Expected(classes, files, isaNeeded, t))
  {
    hide IsMerged, Classified, Ascending, Holds, Keeps, AnyHas;
    var merged := MergeFiles(classes, files);
    if merged.Err? { return Err(merged.message); }
    var m := merged.value;
    if isaNeeded.Some? {
      m := m[X86_ISA_1_NEEDED := if X86_ISA_1_NEEDED in m
                                 then (m[X86_ISA_1_NEEDED].0 + isaNeeded.value, m[X86_ISA_1_NEEDED].1)
                                 else (isaNeeded.value, Or)];
    }
    forall t: nat
      ensures AnyHas(files, t) ==> t in classes
      ensures Merged(classes, files, isaNeeded, t) == if t in m then Some(m[t]) else None
    {
      MergedAt(classes, files, merged.value, t);
    }
    var out := OutputProperties(files, m);
    r := Ok(out);
  }

  lemma MergedAt(classes: Classes, files: seq<File>, m: PropertyMap, t: nat)
    requires IsMerged(classes, files, m)
    ensures (t in m <==> AnyHas(files, t)) && (t in m ==> t in classes && m[t] == (AllBits(files, t, classes[t]), classes[t]))
  {}
}
