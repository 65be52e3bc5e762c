// What changed between two links: inputs matched by path, then renamed ones by content.
module Manifests {
  import opened Words

  datatype Path = Path(bytes: string)

  datatype Identity = Identity(path: Path, modified: nat, len: nat, digest: Option<nat>)

  datatype Observation = Observation(previousGeneration: Option<nat>, same: nat, changed: nat, added: nat, removed: nat)

  type Index = map<Path, Identity>

  predicate SameContents(past: Identity, current: Identity) {
    if past.digest.Some? && current.digest.Some? then past.digest == current.digest
    else past.modified == current.modified && past.len == current.len
  }

  // ----- What is to be found out ---------------------------------------------------------------

  ghost predicate DistinctPaths(inputs: seq<Identity>) {
    forall i, j :: 0 <= i < j < |inputs| ==> inputs[i].path != inputs[j].path
  }

  // Inputs by path. Of two with the same path the later one stays.
  function ByPath(inputs: seq<Identity>): Index {
    if inputs == [] then map[]
    else
      var last := inputs[|inputs| - 1];
      ByPath(inputs[..|inputs| - 1])[last.path := last]
  }

  lemma {:induction false} ByPathHolds(inputs: seq<Identity>, p: Path)
    ensures p in ByPath(inputs) ==> ByPath(inputs)[p] in inputs && ByPath(inputs)[p].path == p
  {
    if inputs != [] { ByPathHolds(inputs[..|inputs| - 1], p); }
  }

  predicate CanBeRename(past: Identity, current: Identity) {
    past.digest.Some? && past.digest == current.digest
  }

  // New paths paired with old ones of the same content, none of them used twice.
  ghost predicate Renames(past: Index, current: Index, m: map<Path, Path>) {
    && (forall p :: p in m ==> p in current && p !in past && m[p] in past && m[p] !in current)
    && (forall p :: p in m ==> past[m[p]].digest.Some? && current[p].digest.Some?
                               && past[m[p]].digest.value == current[p].digest.value)
    && forall p, q :: p in m && q in m && m[p] == m[q] ==> p == q
  }

  ghost predicate MostRenames(past: Index, current: Index, m: map<Path, Path>) {
    Renames(past, current, m) && forall n :: Renames(past, current, n) ==> |n| <= |m|
  }

  // The digests decide when both are known, whatever the times and lengths are; otherwise those do.
  function Unchanged(past: Index, current: Index): set<Path> {
    set p | p in past && p in current
            && (past[p].digest.Some? && current[p].digest.Some? ==> past[p].digest.value == current[p].digest.value)
            && (past[p].digest.None? || current[p].digest.None? ==>
                  past[p].modified == current[p].modified && past[p].len == current[p].len)
  }

  ghost predicate CountsFor(past: Index, current: Index, m: map<Path, Path>, o: Observation) {
    var both, kept := past.Keys * current.Keys, Unchanged(past, current);
    && o.same == |kept| + |m| && o.changed == |both| - |kept|
    && o.added == |current.Keys - past.Keys| - |m| && o.removed == |past.Keys - current.Keys| - |m|
  }

  // Inputs at the same path are unchanged or changed, as many of the others as possible are renames,
  // and the rest are added or removed.
  ghost predicate Observes(past: Index, current: Index, o: Observation) {
    exists m :: MostRenames(past, current, m) && CountsFor(past, current, m, o)
  }

  // All the counts follow from the inputs.
  lemma ObservationIsUnique(past: Index, current: Index, o: Observation, o': Observation)
    requires Observes(past, current, o) && Observes(past, current, o')
    ensures o.(previousGeneration := None) == o'.(previousGeneration := None)
  {
    hide Renames, Unchanged;
    var m :| MostRenames(past, current, m) && CountsFor(past, current, m, o);
    var m' :| MostRenames(past, current, m') && CountsFor(past, current, m', o');
  }

  // Their order plays no part.
  lemma {:induction false} ByPathAt(inputs: seq<Identity>, i: nat)
    requires DistinctPaths(inputs) && i < |inputs|
    ensures inputs[i].path in ByPath(inputs) && ByPath(inputs)[inputs[i].path] == inputs[i]
  {
    var n := |inputs| - 1;
    if i < n { ByPathAt(inputs[..n], i); }
  }

  lemma OrderPlaysNoPart(a: seq<Identity>, b: seq<Identity>)
    requires DistinctPaths(a) && DistinctPaths(b) && multiset(a) == multiset(b)
    ensures ByPath(a) == ByPath(b)
  {
    hide ByPath, DistinctPaths;
    forall p: Path ensures p in ByPath(a) ==> p in ByPath(b) && ByPath(a)[p] == ByPath(b)[p] { SameInput(a, b, p); }
    forall p: Path ensures p in ByPath(b) ==> p in ByPath(a) && ByPath(a)[p] == ByPath(b)[p] { SameInput(b, a, p); }
  }

  lemma SameInput(a: seq<Identity>, b: seq<Identity>, p: Path)
    requires DistinctPaths(b) && multiset(a) == multiset(b)
    ensures p in ByPath(a) ==> p in ByPath(b) && ByPath(a)[p] == ByPath(b)[p]
  {
    hide ByPath;
    if p in ByPath(a) {
      ByPathHolds(a, p);
      var x := ByPath(a)[p];
      assert x in multiset(a) && x in b;
      var i :| 0 <= i < |b| && b[i] == x;
      ByPathAt(b, i);
    }
  }

  // ----- Sizes ---------------------------------------------------------------------------------

  function Image(m: map<Path, Path>, keys: set<Path>): set<Path>
    requires keys <= m.Keys
  {
    set p | p in keys :: m[p]
  }

  lemma {:induction false} ImageSize(m: map<Path, Path>, keys: set<Path>)
    requires keys <= m.Keys && forall p, q :: p in keys && q in keys && m[p] == m[q] ==> p == q
    ensures |Image(m, keys)| == |keys|
    decreases |keys|
  {
    if keys == {} {
      assert Image(m, keys) == {};
    } else {
      var p :| p in keys;
      ImageSize(m, keys - {p});
      assert Image(m, keys) == Image(m, keys - {p}) + {m[p]};
    }
  }

  lemma SubsetSize(a: set<Path>, b: set<Path>)
    requires a <= b
    ensures |a| <= |b|
  {
    assert b == a + (b - a);
  }

  // ----- Greedy is enough ----------------------------------------------------------------------

  // Nothing old is left for a new path that was not paired.
  ghost predicate Exhausted(past: Index, current: Index, m: map<Path, Path>) {
    forall p, q :: p in current && p !in past && p !in m && q in past && q !in current && CanBeRename(past[q], current[p]) ==> q in m.Values
  }

  // The new paths of a pairing whose content some unpaired new path has as well.
  function Contested(current: Index, m: map<Path, Path>, unpaired: set<Path>): set<Path>
    requires unpaired <= current.Keys
  {
    set p | p in m && p in current && exists q :: q in unpaired && current[q].digest == current[p].digest
  }

  // A pairing that nothing can be added to is as large as any other.
  lemma GreedyIsMaximum(past: Index, current: Index, m: map<Path, Path>, n: map<Path, Path>)
    requires Renames(past, current, m) && Exhausted(past, current, m) && Renames(past, current, n)
    ensures |n| <= |m|
  {
    var unpaired := set p | p in current && p !in past && p !in m;
    var cm, cn := Contested(current, m, unpaired), Contested(current, n, unpaired);
    ContestedFits(past, current, m, n, unpaired);
    hide Renames, Exhausted, Contested;
    forall p | p in n.Keys - cn ensures p in m.Keys - cm {
      ContestedEither(past, current, m, n, unpaired, p);
    }
    SubsetSize(n.Keys - cn, m.Keys - cm);
    ContestedKeys(current, m, unpaired);
    ContestedKeys(current, n, unpaired);
    SizeSplits(m.Keys, cm);
    SizeSplits(n.Keys, cn);
  }

  lemma SizeSplits(a: set<Path>, b: set<Path>)
    requires b <= a
    ensures |a| == |b| + |a - b|
  {
    assert a == b + (a - b);
  }

  lemma ContestedKeys(current: Index, m: map<Path, Path>, unpaired: set<Path>)
    requires unpaired <= current.Keys
    ensures Contested(current, m, unpaired) <= m.Keys
  {}

  lemma ContestedEither(past: Index, current: Index, m: map<Path, Path>, n: map<Path, Path>, unpaired: set<Path>, p: Path)
    requires Renames(past, current, n) && p in n
    requires unpaired == set q | q in current && q !in past && q !in m
    ensures p !in m || p in Contested(current, m, unpaired) ==> p in Contested(current, n, unpaired)
  {
    if p !in m { assert p in unpaired; }
  }

  lemma ContestedFits(past: Index, current: Index, m: map<Path, Path>, n: map<Path, Path>, unpaired: set<Path>)
    requires Renames(past, current, m) && Exhausted(past, current, m) && Renames(past, current, n)
    requires unpaired == set p | p in current && p !in past && p !in m
    ensures |Contested(current, n, unpaired)| <= |Contested(current, m, unpaired)|
  {
    var cm, cn := Contested(current, m, unpaired), Contested(current, n, unpaired);
    ImageSize(m, cm);
    ImageSize(n, cn);
    forall v | v in Image(n, cn) ensures v in Image(m, cm) {
      var p :| p in cn && n[p] == v;
      var q :| q in unpaired && current[q].digest == current[p].digest;
      assert CanBeRename(past[v], current[q]);
      assert v in m.Values;
      var k :| k in m && m[k] == v;
      assert current[k].digest == current[q].digest;
      assert k in cm;
    }
    SubsetSize(Image(n, cn), Image(m, cm));
  }

  // ----- Conservation --------------------------------------------------------------------------

  lemma {:induction false} ByPathSize(inputs: seq<Identity>)
    requires DistinctPaths(inputs)
    ensures |ByPath(inputs)| == |inputs|
  {
    if inputs != [] {
      var front, last := inputs[..|inputs| - 1], inputs[|inputs| - 1];
      ByPathSize(front);
      NewPath(inputs, |inputs| - 1);
      assert inputs[..|inputs|] == inputs;
      assert ByPath(inputs).Keys == ByPath(front).Keys + {last.path};
    }
  }

  // With distinct paths every input is counted once.
  lemma EveryInputCounted(past: seq<Identity>, current: seq<Identity>, o: Observation)
    requires DistinctPaths(past) && DistinctPaths(current) && Observes(ByPath(past), ByPath(current), o)
    ensures o.same + o.changed + o.added == |current| && o.same + o.changed + o.removed == |past|
  {
    hide MostRenames, CountsFor, ByPath;
    ByPathSize(past);
    ByPathSize(current);
    var m :| MostRenames(ByPath(past), ByPath(current), m) && CountsFor(ByPath(past), ByPath(current), m, o);
    CountsAddUp(ByPath(past), ByPath(current), m, o);
  }

  lemma CountsAddUp(past: Index, current: Index, m: map<Path, Path>, o: Observation)
    requires CountsFor(past, current, m, o)
    ensures o.same + o.changed + o.added == |current| && o.same + o.changed + o.removed == |past|
  {
    hide Unchanged;
    DifferenceSize(past.Keys, current.Keys);
    DifferenceSize(current.Keys, past.Keys);
    assert past.Keys * current.Keys == current.Keys * past.Keys;
  }

  lemma DifferenceSize(a: set<Path>, b: set<Path>)
    ensures |a| == |a * b| + |a - b|
  {
    SizeSplits(a, a * b);
    assert a - a * b == a - b;
  }

  lemma {:induction false} NewPath(inputs: seq<Identity>, i: nat)
    requires DistinctPaths(inputs) && i < |inputs|
    ensures inputs[i].path !in ByPath(inputs[..i])
    ensures ByPath(inputs[..i + 1]) == ByPath(inputs[..i])[inputs[i].path := inputs[i]]
  {
    assert inputs[..i + 1][..i] == inputs[..i];
    ByPathHolds(inputs[..i], inputs[i].path);
  }

  // ----- Comparing -----------------------------------------------------------------------------

  datatype Manifest = Manifest(version: string, generation: nat, structure: nat, inputs: seq<Identity>)

  method SamePaths(past: seq<Identity>, current: seq<Identity>) returns (r: bool)
    ensures r <==> |past| == |current| && forall i :: 0 <= i < |past| ==> past[i].path == current[i].path
  {
    if |past| != |current| { return false; }
    for i := 0 to |past|
      invariant forall k :: 0 <= k < i ==> past[k].path == current[k].path
    {
      if past[i].path != current[i].path { return false; }
    }
    r := true;
  }

  lemma OneMoreUnchanged(past: Index, current: Index, past': Index, current': Index, x: Identity, y: Identity)
    requires x.path == y.path && x.path !in past && x.path !in current
    requires past' == past[x.path := x] && current' == current[y.path := y]
    ensures |Unchanged(past', current')| == |Unchanged(past, current)| + if SameContents(x, y) then 1 else 0
  {
    hide Unchanged, SameContents;
    var a, b := Unchanged(past, current), Unchanged(past', current');
    forall p: Path
      ensures p in b <==> p in a || (p == x.path && SameContents(x, y))
      ensures p == x.path ==> p !in a
    {
      UnchangedMember(past, current, p);
      UnchangedMember(past', current', p);
    }
    if SameContents(x, y) { assert b == a + {x.path}; } else { assert b == a; }
  }

  lemma UnchangedMember(past: Index, current: Index, p: Path)
    ensures p in Unchanged(past, current) <==> p in past && p in current && SameContents(past[p], current[p])
  {}

  method CountSame(past: seq<Identity>, current: seq<Identity>) returns (same: nat)
    requires |past| == |current| && forall i :: 0 <= i < |past| ==> past[i].path == current[i].path
    ensures same <= |current|
    ensures DistinctPaths(past) && DistinctPaths(current) ==> same == |Unchanged(ByPath(past), ByPath(current))|
  {
    hide Unchanged, ByPath, SameContents, DistinctPaths;
    ghost var distinct := DistinctPaths(past) && DistinctPaths(current);
    same := 0;
    assert past[..0] == [] && current[..0] == [];
    assert |Unchanged(ByPath([]), ByPath([]))| == 0 by { NothingUnchanged(); }
    for i := 0 to |past|
      invariant same <= i
      invariant distinct ==> same == |Unchanged(ByPath(past[..i]), ByPath(current[..i]))|
    {
      if distinct {
        NewPath(past, i);
        NewPath(current, i);
        OneMoreUnchanged(ByPath(past[..i]), ByPath(current[..i]), ByPath(past[..i + 1]), ByPath(current[..i + 1]), past[i], current[i]);
      }
      if SameContents(past[i], current[i]) { same := same + 1; }
    }
    assert past[..|past|] == past && current[..|current|] == current;
  }

  lemma NothingUnchanged()
    ensures Unchanged(ByPath([]), ByPath([])) == {}
  {}

  // The same paths in the same places.
  lemma FastBranchAgrees(past: seq<Identity>, current: seq<Identity>, o: Observation)
    requires DistinctPaths(past) && DistinctPaths(current)
    requires |past| == |current| && forall i :: 0 <= i < |past| ==> past[i].path == current[i].path
    requires o.same == |Unchanged(ByPath(past), ByPath(current))| && o.changed == |current| - o.same
    requires o.added == 0 && o.removed == 0
    ensures Observes(ByPath(past), ByPath(current), o)
  {
    hide Unchanged, ByPath, MostRenames, CountsFor;
    ByPathSize(current);
    KeysAgree(past, current);
    NothingRenamed(ByPath(past), ByPath(current));
    FastCounts(ByPath(past), ByPath(current), o);
  }

  lemma FastCounts(past: Index, current: Index, o: Observation)
    requires past.Keys == current.Keys && o.same == |Unchanged(past, current)| && o.changed == |current| - o.same
    requires o.added == 0 && o.removed == 0
    ensures CountsFor(past, current, map[], o)
  {
    hide Unchanged;
    assert past.Keys * current.Keys == current.Keys && current.Keys - past.Keys == {} && past.Keys - current.Keys == {};
  }

  lemma NothingRenamed(past: Index, current: Index)
    requires past.Keys == current.Keys
    ensures MostRenames(past, current, map[])
  {
    forall n: map<Path, Path> | Renames(past, current, n) ensures n == map[] {
      assert forall k :: k !in n;
    }
  }

  lemma KeysAgree(past: seq<Identity>, current: seq<Identity>)
    requires DistinctPaths(past) && DistinctPaths(current)
    requires |past| == |current| && forall i :: 0 <= i < |past| ==> past[i].path == current[i].path
    ensures ByPath(past).Keys == ByPath(current).Keys
  {
    hide ByPath;
    forall p: Path ensures p in ByPath(past) ==> p in ByPath(current) { PathThere(past, current, p); }
    forall p: Path ensures p in ByPath(current) ==> p in ByPath(past) { PathThere(current, past, p); }
  }

  lemma PathThere(past: seq<Identity>, current: seq<Identity>, p: Path)
    requires DistinctPaths(current) && |past| == |current| && forall i :: 0 <= i < |past| ==> past[i].path == current[i].path
    ensures p in ByPath(past) ==> p in ByPath(current)
  {
    hide ByPath;
    if p in ByPath(past) {
      ByPathHolds(past, p);
      var i :| 0 <= i < |past| && past[i] == ByPath(past)[p];
      ByPathAt(current, i);
    }
  }
}
