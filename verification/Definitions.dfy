// Dynamic symbol definitions and the plain search that both hash tables stand in for.
module Definitions {
  import opened Words

  type U32 = n: int | 0 <= n < 0x1_0000_0000

  datatype Definition = Definition(name: string, hash: U32)

  // The definition that a plain search of the list finds, from entry i on.
  function FindFrom(defs: seq<Definition>, name: string, i: nat): (r: Option<nat>)
    requires i <= |defs|
    ensures r.Some? ==> i <= r.value < |defs| && defs[r.value].name == name
    ensures r.Some? ==> forall k :: i <= k < r.value ==> defs[k].name != name
    ensures r.None? ==> forall k :: i <= k < |defs| ==> defs[k].name != name
    decreases |defs| - i
  {
    if i == |defs| then None
    else if defs[i].name == name then Some(i)
    else FindFrom(defs, name, i + 1)
  }

  // Hashes are computed from names.
  ghost predicate Hashed(defs: seq<Definition>, hashOf: string -> U32) {
    forall i :: 0 <= i < |defs| ==> defs[i].hash == hashOf(defs[i].name)
  }

  lemma {:induction false} FindSkips(defs: seq<Definition>, name: string, lo: nat, hi: nat)
    requires lo <= hi <= |defs| && forall k :: lo <= k < hi ==> defs[k].name != name
    ensures FindFrom(defs, name, lo) == FindFrom(defs, name, hi)
    decreases hi - lo
  {
    if lo < hi { FindSkips(defs, name, lo + 1, hi); }
  }
}
