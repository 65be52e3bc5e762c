// Comparing the inputs of a link with the manifest of the last one, and recording the new manifest.
module ManifestCompare {
  import opened Words
  import opened Manifests

  const MAX_GENERATION: nat := 0xffff_ffff_ffff_ffff

  // ----- By path -------------------------------------------------------------------------------

  // What the pass over the current inputs leaves: old paths that were found, counts, and the inputs
  // whose path is new.
  datatype ByPathResult = ByPathResult(matched: set<Path>, same: nat, changed: nat, unmatched: seq<Identity>)

  function Common(past: Index, current: Index): set<Path> {
    past.Keys * current.Keys
  }

  function NewPaths(past: Index, current: Index): set<Path> {
    current.Keys - past.Keys
  }

  // The inputs whose path is new, each once.
  ghost predicate Pending(past: Index, current: Index, unmatched: seq<Identity>) {
    && DistinctPaths(unmatched)
    && (forall x :: x in unmatched ==> x.path in current && x.path !in past && current[x.path] == x)
    && forall p :: p in current && p !in past ==> current[p] in unmatched
  }

  ghost predicate PassedBy(past: Index, current: Index, r: ByPathResult) {
    && r.matched == Common(past, current) && r.same == |Unchanged(past, current)|
    && r.same + r.changed == |r.matched| && |r.unmatched| == |NewPaths(past, current)|
    && Pending(past, current, r.unmatched)
  }

  function Note(past: Index, r: ByPathResult, x: Identity): ByPathResult {
    if x.path in past then
      if SameContents(past[x.path], x) then r.(matched := r.matched + {x.path}, same := r.same + 1)
      else r.(matched := r.matched + {x.path}, changed := r.changed + 1)
    else r.(unmatched := r.unmatched + [x])
  }

  lemma MorePaths(past: Index, current: Index, x: Identity)
    requires x.path !in current
    ensures var c := current[x.path := x];
            && Common(past, c) == (if x.path in past then Common(past, current) + {x.path} else Common(past, current))
            && |Common(past, c)| == |Common(past, current)| + (if x.path in past then 1 else 0)
            && |NewPaths(past, c)| == |NewPaths(past, current)| + (if x.path in past then 0 else 1)
  {
    assert current[x.path := x].Keys == current.Keys + {x.path};
    if x.path in past { OneInBoth(past.Keys, current.Keys, x.path); } else { OneMoreNew(past.Keys, current.Keys, x.path); }
  }

  lemma OneInBoth(a: set<Path>, b: set<Path>, p: Path)
    requires p in a && p !in b
    ensures a * (b + {p}) == a * b + {p} && |a * (b + {p})| == |a * b| + 1 && b + {p} - a == b - a
  {
    assert a * (b + {p}) == a * b + {p};
    assert b + {p} - a == b - a;
  }

  lemma OneMoreNew(a: set<Path>, b: set<Path>, p: Path)
    requires p !in a && p !in b
    ensures a * (b + {p}) == a * b && b + {p} - a == (b - a) + {p} && |b + {p} - a| == |b - a| + 1
  {
    assert a * (b + {p}) == a * b;
    assert b + {p} - a == (b - a) + {p};
  }

  lemma MoreUnchanged(past: Index, current: Index, x: Identity)
    requires x.path !in current
    ensures |Unchanged(past, current[x.path := x])|
            == |Unchanged(past, current)| + if x.path in past && SameContents(past[x.path], x) then 1 else 0
  {
    hide SameContents, Unchanged;
    var c := current[x.path := x];
    forall p: Path
      ensures p in Unchanged(past, c) <==> p in Unchanged(past, current)
                                           || (p == x.path && p in past && SameContents(past[p], x))
      ensures p == x.path ==> p !in Unchanged(past, current)
    {
      UnchangedMember(past, current, p);
      UnchangedMember(past, c, p);
    }
    if x.path in past && SameContents(past[x.path], x) {
      assert Unchanged(past, c) == Unchanged(past, current) + {x.path};
    } else {
      assert Unchanged(past, c) == Unchanged(past, current);
    }
  }

  lemma MorePending(past: Index, current: Index, unmatched: seq<Identity>, x: Identity)
    requires Pending(past, current, unmatched) && x.path !in current && x.path !in past
    ensures Pending(past, current[x.path := x], unmatched + [x])
  {
    hide DistinctPaths;
    var c, u := current[x.path := x], unmatched + [x];
    forall y | y in u ensures y.path in c && y.path !in past && c[y.path] == y {
      if y in unmatched { assert y.path in current; }
    }
    forall p | p in c && p !in past ensures c[p] in u {
      if p != x.path { assert current[p] in unmatched; }
    }
    DistinctMore(current, unmatched, x);
  }

  lemma DistinctMore(current: Index, unmatched: seq<Identity>, x: Identity)
    requires DistinctPaths(unmatched) && x.path !in current && forall y :: y in unmatched ==> y.path in current
    ensures DistinctPaths(unmatched + [x])
  {
    forall i | 0 <= i < |unmatched| ensures unmatched[i].path != x.path {
      assert unmatched[i] in unmatched;
    }
  }

  lemma SamePending(past: Index, current: Index, unmatched: seq<Identity>, x: Identity)
    requires Pending(past, current, unmatched) && x.path !in current && x.path in past
    ensures Pending(past, current[x.path := x], unmatched)
  {
    hide DistinctPaths;
    var c := current[x.path := x];
    forall y | y in unmatched ensures y.path in c && y.path !in past && c[y.path] == y {
      assert y.path in current;
    }
    forall p | p in c && p !in past ensures c[p] in unmatched {
      assert p in current && c[p] == current[p];
    }
  }

  lemma NotePasses(past: Index, current: Index, r: ByPathResult, x: Identity)
    requires PassedBy(past, current, r) && x.path !in current
    ensures PassedBy(past, current[x.path := x], Note(past, r, x))
  {
    hide SameContents, Unchanged, Pending, Common, NewPaths;
    MoreUnchanged(past, current, x);
    MorePaths(past, current, x);
    if x.path in past { SamePending(past, current, r.unmatched, x); } else { MorePending(past, current, r.unmatched, x); }
  }

  lemma NothingPassed(past: Index)
    ensures PassedBy(past, map[], ByPathResult({}, 0, 0, []))
  {
    assert Common(past, map[]) == {} && Unchanged(past, map[]) == {} && NewPaths(past, map[]) == {};
  }

  // Matches current inputs with old ones of the same path.
  method MatchPaths(past: Index, current: seq<Identity>) returns (r: ByPathResult)
    ensures r.matched <= past.Keys
    ensures DistinctPaths(current) ==> PassedBy(past, ByPath(current), r)
  {
    hide PassedBy, SameContents, DistinctPaths, ByPath;
    r := ByPathResult({}, 0, 0, []);
    NothingPassed(past);
    NoInputs();
    assert current[..0] == [];
    for i := 0 to |current|
      invariant r.matched <= past.Keys
      invariant DistinctPaths(current) ==> PassedBy(past, ByPath(current[..i]), r)
    {
      if DistinctPaths(current) {
        NewPath(current, i);
        NotePasses(past, ByPath(current[..i]), r, current[i]);
      }
      r := Note(past, r, current[i]);
    }
    assert current[..|current|] == current;
  }

  lemma NoInputs()
    ensures ByPath([]) == map[]
  {}

  // ----- By content ----------------------------------------------------------------------------

  // Pairs each new path in turn with some old path that is still free. Which one is left open.
  ghost predicate Paired(past: Index, current: Index, unmatched: seq<Identity>, n: nat, matched: set<Path>, m: map<Path, Path>)
    requires n <= |unmatched|
  {
    && Renames(past, current, m) && matched == Common(past, current) + m.Values
    && (forall p :: p in m ==> exists i :: 0 <= i < n && unmatched[i].path == p)
    && forall i, q :: 0 <= i < n && unmatched[i].path !in m && q in past && q !in current && CanBeRename(past[q], unmatched[i])
                      ==> q in m.Values
  }

  lemma PairMore(past: Index, current: Index, unmatched: seq<Identity>, n: nat, matched: set<Path>, m: map<Path, Path>, q: Path)
    requires n < |unmatched| && Paired(past, current, unmatched, n, matched, m)
    requires unmatched[n].path in current && unmatched[n].path !in past && current[unmatched[n].path] == unmatched[n]
    requires forall i :: 0 <= i < n ==> unmatched[i].path != unmatched[n].path
    requires q in past && q !in matched && CanBeRename(past[q], unmatched[n])
    ensures unmatched[n].path !in m
    ensures Paired(past, current, unmatched, n + 1, matched + {q}, m[unmatched[n].path := q])
  {
    hide CanBeRename;
    var p := unmatched[n].path;
    assert p !in m;
    var m' := m[p := q];
    assert m'.Values == m.Values + {q} by {
      assert p in m' && m'[p] == q;
      forall v | v in m.Values ensures v in m'.Values {
        var k :| k in m && m[k] == v;
        assert k in m' && m'[k] == v;
      }
    }
    PairRenames(past, current, m, p, q);
  }

  lemma PairRenames(past: Index, current: Index, m: map<Path, Path>, p: Path, q: Path)
    requires Renames(past, current, m) && p !in m && p in current && p !in past
    requires q in past && q !in current && q !in m.Values && CanBeRename(past[q], current[p])
    ensures Renames(past, current, m[p := q])
  {
    assert forall k :: k in m ==> m[k] != q;
  }

  lemma PairNone(past: Index, current: Index, unmatched: seq<Identity>, n: nat, matched: set<Path>, m: map<Path, Path>)
    requires n < |unmatched| && Paired(past, current, unmatched, n, matched, m)
    requires forall q :: q in past && q !in matched ==> !CanBeRename(past[q], unmatched[n])
    ensures Paired(past, current, unmatched, n + 1, matched, m)
  {
    hide CanBeRename, Renames;
  }

  method MatchContents(past: Index, r: ByPathResult, ghost current: Index)
    returns (matched: set<Path>, renamed: nat, added: nat, ghost m: map<Path, Path>)
    requires r.matched <= past.Keys
    ensures matched <= past.Keys && renamed + added == |r.unmatched|
    ensures PassedBy(past, current, r) ==>
              Paired(past, current, r.unmatched, |r.unmatched|, matched, m) && renamed == |m|
  {
    hide Paired, PassedBy, Renames, CanBeRename;
    matched, renamed, added, m := r.matched, 0, 0, map[];
    ghost var ready := PassedBy(past, current, r);
    if ready { NothingPaired(past, current, r); }
    for n := 0 to |r.unmatched|
      invariant matched <= past.Keys && renamed + added == n
      invariant ready ==> Paired(past, current, r.unmatched, n, matched, m) && renamed == |m|
    {
      var x := r.unmatched[n];
      var free := set q | q in past && q !in matched && CanBeRename(past[q], x);
      if free != {} {
        var q :| q in free;
        if ready {
          UnmatchedAt(past, current, r, n);
          PairMore(past, current, r.unmatched, n, matched, m, q);
        }
        m := m[x.path := q];
        matched, renamed := matched + {q}, renamed + 1;
      } else {
        assert forall q :: q in past && q !in matched ==> q !in free;
        if ready { PairNone(past, current, r.unmatched, n, matched, m); }
        added := added + 1;
      }
    }
  }

  lemma NothingPaired(past: Index, current: Index, r: ByPathResult)
    requires PassedBy(past, current, r)
    ensures Paired(past, current, r.unmatched, 0, r.matched, map[])
  {
    hide Unchanged, Pending, CanBeRename, Common, NewPaths, Renames;
    NoRenames(past, current);
  }

  lemma NoRenames(past: Index, current: Index)
    ensures Renames(past, current, map[])
  {}

  lemma UnmatchedAt(past: Index, current: Index, r: ByPathResult, n: nat)
    requires PassedBy(past, current, r) && n < |r.unmatched|
    ensures var p := r.unmatched[n].path; p in current && p !in past && current[p] == r.unmatched[n]
    ensures forall i :: 0 <= i < n ==> r.unmatched[i].path != r.unmatched[n].path
  {
    hide Unchanged;
    assert r.unmatched[n] in r.unmatched;
  }

  lemma PairedExhausts(past: Index, current: Index, unmatched: seq<Identity>, matched: set<Path>, m: map<Path, Path>, p: Path, q: Path)
    requires Pending(past, current, unmatched) && Paired(past, current, unmatched, |unmatched|, matched, m) && Keyed(current)
    requires p in current && p !in past && p !in m && q in past && q !in current && CanBeRename(past[q], current[p])
    ensures q in m.Values
  {
    hide CanBeRename, Renames;
    assert current[p] in unmatched && current[p].path == p by { PendingAt(past, current, unmatched, p); }
    var i :| 0 <= i < |unmatched| && unmatched[i] == current[p];
  }

  lemma PendingAt(past: Index, current: Index, unmatched: seq<Identity>, p: Path)
    requires Pending(past, current, unmatched) && p in current && p !in past && Keyed(current)
    ensures current[p] in unmatched && current[p].path == p
  {}

  lemma PairedIsMost(past: Index, current: Index, r: ByPathResult, matched: set<Path>, m: map<Path, Path>)
    requires Keyed(current)
    requires PassedBy(past, current, r) && Paired(past, current, r.unmatched, |r.unmatched|, matched, m)
    ensures MostRenames(past, current, m) && |matched| == |Common(past, current)| + |m|
  {
    hide Unchanged, CanBeRename, Pending;
    forall p, q | p in current && p !in past && p !in m && q in past && q !in current && CanBeRename(past[q], current[p])
      ensures q in m.Values
    {
      PairedExhausts(past, current, r.unmatched, matched, m, p, q);
    }
    forall n: map<Path, Path> | Renames(past, current, n) ensures |n| <= |m| { GreedyIsMaximum(past, current, m, n); }
    PairedSizes(past, current, m);
  }

  lemma PairedSizes(past: Index, current: Index, m: map<Path, Path>)
    requires Renames(past, current, m)
    ensures |Common(past, current) + m.Values| == |Common(past, current)| + |m|
  {
    hide CanBeRename;
    ImageSize(m, m.Keys);
    assert Image(m, m.Keys) == m.Values;
    var both := Common(past, current);
    SizeSplits(both + m.Values, both);
    assert both + m.Values - both == m.Values;
  }

  // Paths are those of the inputs they lead to.
  ghost predicate Keyed(index: Index) {
    forall p :: p in index ==> index[p].path == p
  }

  lemma ByPathIsKeyed(inputs: seq<Identity>)
    ensures Keyed(ByPath(inputs))
  {
    forall p: Path ensures p in ByPath(inputs) ==> ByPath(inputs)[p].path == p { ByPathHolds(inputs, p); }
  }

  // ----- The whole comparison ------------------------------------------------------------------

  method Compare(previous: Option<Manifest>, current: seq<Identity>) returns (o: Observation)
    ensures o.previousGeneration == if previous.Some? then Some(previous.value.generation) else None
    ensures previous.None? ==> o == Observation(None, 0, 0, |current|, 0)
    ensures previous.Some? && DistinctPaths(previous.value.inputs) && DistinctPaths(current) ==>
              Observes(ByPath(previous.value.inputs), ByPath(current), o)
  {
    hide Observes, PassedBy, Paired, ByPath, MostRenames;
    if previous.None? { return Observation(None, 0, 0, |current|, 0); }
    var inputs := previous.value.inputs;
    ghost var distinct := DistinctPaths(inputs) && DistinctPaths(current);
    o := Observation(Some(previous.value.generation), 0, 0, 0, 0);
    var samePaths := SamePaths(inputs, current);
    if samePaths {
      var same := CountSame(inputs, current);
      o := o.(same := same, changed := |current| - same);
      if distinct { FastBranchAgrees(inputs, current, o); }
      return;
    }
    var past := MakeIndex(inputs);
    var r := MatchPaths(past, current);
    var matched, renamed, added, m := MatchContents(past, r, ByPath(current));
    o := o.(same := r.same + renamed, changed := r.changed, added := added,
            removed := if |matched| <= |past| then |past| - |matched| else 0);
    if distinct {
      ByPathIsKeyed(current);
      PairedIsMost(past, ByPath(current), r, matched, m);
      GeneralCounts(past, ByPath(current), r, matched, m, o);
    }
  }

  method MakeIndex(inputs: seq<Identity>) returns (index: Index)
    ensures index == ByPath(inputs)
  {
    index := map[];
    assert inputs[..0] == [];
    for i := 0 to |inputs|
      invariant index == ByPath(inputs[..i])
    {
      assert inputs[..i + 1][..i] == inputs[..i];
      index := index[inputs[i].path := inputs[i]];
    }
    assert inputs[..|inputs|] == inputs;
  }

  lemma GeneralCounts(past: Index, current: Index, r: ByPathResult, matched: set<Path>, m: map<Path, Path>, o: Observation)
    requires PassedBy(past, current, r) && MostRenames(past, current, m) && matched <= past.Keys
    requires |matched| == |Common(past, current)| + |m| && o.same == r.same + |m| && o.changed == r.changed
    requires |m| + o.added == |r.unmatched|
    requires o.removed == if |matched| <= |past| then |past| - |matched| else 0
    ensures Observes(past, current, o)
  {
    hide Unchanged, MostRenames, Pending, CountsFor, Common, NewPaths;
    SubsetSize(matched, past.Keys);
    CommonAndNew(past, current);
    assert CountsFor(past, current, m, o) by { CountsInTerms(past, current, m, o); }
  }

  lemma CommonAndNew(past: Index, current: Index)
    ensures |past| == |Common(past, current)| + |NewPaths(current, past)|
  {
    DifferenceSize(past.Keys, current.Keys);
  }

  lemma CountsInTerms(past: Index, current: Index, m: map<Path, Path>, o: Observation)
    requires o.same == |Unchanged(past, current)| + |m| && o.changed == |Common(past, current)| - |Unchanged(past, current)|
    requires o.added == |NewPaths(past, current)| - |m| && o.removed == |NewPaths(current, past)| - |m|
    ensures CountsFor(past, current, m, o)
  {
    hide Unchanged;
  }

  // ----- Recording -----------------------------------------------------------------------------

  // The state of one output: the last manifest, if it can be read.
  class StateDirectory {
    var manifest: Option<Manifest>

    // A manifest of another version of the linker or of another structure counts for nothing.
    function Previous(version: string, structure: nat): Option<Manifest>
      reads this
    {
      if manifest.Some? && manifest.value.version == version && manifest.value.structure == structure then manifest else None
    }

    method Record(version: string, structure: nat, inputs: seq<Identity>) returns (o: Observation)
      modifies this
      ensures manifest.Some? && manifest.value.inputs == inputs
      ensures manifest.value.version == version && manifest.value.structure == structure
      ensures var before := old(manifest);
              var counts := before.Some? && before.value.version == version && before.value.structure == structure;
              var previous := if counts then before else None;
              && o.previousGeneration == (if previous.Some? then Some(previous.value.generation) else None)
              && manifest.value.generation
                 == (if previous.None? then 1
                     else if previous.value.inputs == inputs then previous.value.generation
                     else if previous.value.generation >= 0xffff_ffff_ffff_ffff then 0xffff_ffff_ffff_ffff
                     else previous.value.generation + 1)
              && (previous.Some? && DistinctPaths(previous.value.inputs) && DistinctPaths(inputs) ==>
                    Observes(ByPath(previous.value.inputs), ByPath(inputs), o))
    {
      hide Observes, ByPath, DistinctPaths;
      var previous := Previous(version, structure);
      o := Compare(previous, inputs);
      if previous.Some? && previous.value.inputs == inputs { return; }
      var generation := if previous.None? then 1
                        else if previous.value.generation >= MAX_GENERATION then MAX_GENERATION
                        else previous.value.generation + 1;
      manifest := Some(Manifest(version, generation, structure, inputs));
    }
  }
}
