// .hash (gABI, "Hash Table"): one word array holding the two counts, the buckets and the chains.
module SysvHash {
  import opened Words
  import opened Definitions

  datatype Layout = Layout(bucketCount: nat, chainCount: nat)

  // None when there is nothing to look up. `start` is the first dynamic symbol that is a definition;
  // the chains cover all symbols before it too.
  function CreateLayout(numDefs: nat, start: nat): (r: Option<Layout>)
    ensures r.Some? <==> numDefs > 0
    ensures r.Some? ==> r.value.bucketCount >= 1 && r.value.chainCount == start + numDefs
  {
    if numDefs == 0 then None
    else
      var half := if numDefs / 2 > 1 then numDefs / 2 else 1;
      Some(Layout(NextPowerOfTwo(half), start + numDefs))
  }

  function TotalWords(l: Layout): nat {
    2 + l.bucketCount + l.chainCount
  }

  function Bucket(l: Layout, d: Definition): (r: nat)
    requires l.bucketCount > 0
    ensures r < l.bucketCount
  {
    d.hash % l.bucketCount
  }

  // ----- The loader ----------------------------------------------------------------------------

  datatype Table = Table(buckets: seq<nat>, chains: seq<nat>)

  // BadTable: the walk left the table, or a chain went backwards.
  datatype Lookup = Found(index: nat) | Missing | BadTable

  // Symbol y has the name of definition y - start.
  function ChainLookup(t: Table, defs: seq<Definition>, start: nat, name: string, y: nat): Lookup
    decreases |t.chains| - y
  {
    if y == 0 then Missing
    else if y < start || y - start >= |defs| || y >= |t.chains| then BadTable
    else if defs[y - start].name == name then Found(y)
    else if t.chains[y] != 0 && t.chains[y] <= y then BadTable
    else ChainLookup'(t, defs, start, name, y)
  }

  function ChainLookup'(t: Table, defs: seq<Definition>, start: nat, name: string, y: nat): Lookup
    requires y < |t.chains| && (t.chains[y] == 0 || t.chains[y] > y)
    decreases |t.chains| - y, 0
  {
    if t.chains[y] == 0 then Missing else ChainLookup(t, defs, start, name, t.chains[y])
  }

  function LookupSymbol(l: Layout, t: Table, defs: seq<Definition>, start: nat, name: string, hash: U32): Lookup
    requires l.bucketCount > 0 && |t.buckets| == l.bucketCount
  {
    ChainLookup(t, defs, start, name, t.buckets[hash % l.bucketCount])
  }

  // ----- What the table has to hold ------------------------------------------------------------

  // The first of definitions lo..n that is in bucket b.
  function NextIn(l: Layout, defs: seq<Definition>, lo: nat, n: nat, b: nat): (r: Option<nat>)
    requires l.bucketCount > 0 && n <= |defs|
    ensures r.Some? ==> lo <= r.value < n && Bucket(l, defs[r.value]) == b
    ensures forall k :: lo <= k < n && Bucket(l, defs[k]) == b ==> r.Some? && r.value <= k
    decreases n - lo
  {
    if lo >= n then None
    else if Bucket(l, defs[lo]) == b then Some(lo)
    else NextIn(l, defs, lo + 1, n, b)
  }

  // The last of the first n definitions that is in bucket b.
  function LastIn(l: Layout, defs: seq<Definition>, n: nat, b: nat): (r: Option<nat>)
    requires l.bucketCount > 0 && n <= |defs|
    ensures r.Some? ==> r.value < n && Bucket(l, defs[r.value]) == b
    ensures forall k :: 0 <= k < n && Bucket(l, defs[k]) == b ==> r.Some? && k <= r.value
  {
    if n == 0 then None
    else if Bucket(l, defs[n - 1]) == b then Some(n - 1)
    else LastIn(l, defs, n - 1, b)
  }

  function Link(start: nat, next: Option<nat>): nat {
    match next case None => 0 case Some(i) => start + i
  }

  // What a bucket holds after the first n definitions: its first symbol.
  function HeadAt(l: Layout, defs: seq<Definition>, start: nat, n: nat, b: nat): nat
    requires l.bucketCount > 0 && n <= |defs|
  {
    Link(start, NextIn(l, defs, 0, n, b))
  }

  // What chain entry y holds: the next symbol of the same bucket, or 0.
  function LinkAt(l: Layout, defs: seq<Definition>, start: nat, n: nat, y: nat): nat
    requires l.bucketCount > 0 && n <= |defs|
  {
    if start <= y < start + n then Link(start, NextIn(l, defs, y - start + 1, n, Bucket(l, defs[y - start]))) else 0
  }

  ghost predicate Holds(l: Layout, t: Table, defs: seq<Definition>, start: nat, n: nat)
    requires l.bucketCount > 0 && n <= |defs|
  {
    && |t.buckets| == l.bucketCount && |t.chains| == l.chainCount == start + |defs|
    && (forall b: nat :: b < |t.buckets| ==> t.buckets[b] == HeadAt(l, defs, start, n, b))
    && (forall y: nat :: y < |t.chains| ==> t.chains[y] == LinkAt(l, defs, start, n, y))
  }

  ghost predicate LastHolds(l: Layout, last: seq<Option<nat>>, defs: seq<Definition>, start: nat, n: nat)
    requires l.bucketCount > 0 && n <= |defs|
  {
    && |last| == l.bucketCount
    && forall b :: 0 <= b < |last| ==>
         last[b] == match LastIn(l, defs, n, b) case None => None case Some(i) => Some(start + i)
  }

  // ----- One more symbol -----------------------------------------------------------------------

  // Looking one definition further finds the new one exactly where nothing was found before.
  lemma {:induction false} NextInGrows(l: Layout, defs: seq<Definition>, lo: nat, n: nat, b: nat)
    requires l.bucketCount > 0 && n < |defs| && lo <= n
    ensures NextIn(l, defs, lo, n + 1, b)
            == if NextIn(l, defs, lo, n, b).Some? then NextIn(l, defs, lo, n, b)
               else if Bucket(l, defs[n]) == b then Some(n) else None
    decreases n - lo
  {
    hide Bucket;
    if lo < n { NextInGrows(l, defs, lo + 1, n, b); }
  }

  lemma HeadStep(l: Layout, defs: seq<Definition>, start: nat, n: nat, b: nat)
    requires l.bucketCount > 0 && start > 0 && n < |defs|
    ensures var head := HeadAt(l, defs, start, n, b);
            HeadAt(l, defs, start, n + 1, b)
            == if head != 0 then head else if Bucket(l, defs[n]) == b then start + n else 0
  {
    hide NextIn, Bucket;
    NextInGrows(l, defs, 0, n, b);
  }

  // Only the last symbol of the new symbol's bucket is linked further.
  lemma LinkStep(l: Layout, defs: seq<Definition>, start: nat, n: nat, y: nat)
    requires l.bucketCount > 0 && start > 0 && n < |defs|
    ensures LinkAt(l, defs, start, n + 1, y)
            == if start <= y < start + n && LastIn(l, defs, n, Bucket(l, defs[n])) == Some(y - start) then start + n
               else LinkAt(l, defs, start, n, y)
  {
    hide NextIn, LastIn, Bucket;
    if start <= y < start + n {
      var i := y - start;
      NextInGrows(l, defs, i + 1, n, Bucket(l, defs[i]));
    } else if y == start + n {
      assert NextIn(l, defs, n + 1, n + 1, Bucket(l, defs[n])) == None;
    }
  }

  // A bucket is empty exactly while no symbol is in it, so the two records of a bucket agree.
  lemma EmptyHasNoLast(l: Layout, defs: seq<Definition>, start: nat, n: nat, b: nat)
    requires l.bucketCount > 0 && start > 0 && n <= |defs|
    ensures HeadAt(l, defs, start, n, b) == 0 <==> LastIn(l, defs, n, b) == None
  {
    hide Bucket, NextIn, LastIn;
    var first, last := NextIn(l, defs, 0, n, b), LastIn(l, defs, n, b);
    if first.Some? { assert Bucket(l, defs[first.value]) == b; }
    if last.Some? { assert Bucket(l, defs[last.value]) == b; }
  }

  lemma FirstOfBucket(l: Layout, t: Table, defs: seq<Definition>, start: nat, n: nat)
    requires l.bucketCount > 0 && start > 0 && n < |defs| && Holds(l, t, defs, start, n)
    requires t.buckets[Bucket(l, defs[n])] == 0
    ensures Holds(l, t.(buckets := t.buckets[Bucket(l, defs[n]) := start + n]), defs, start, n + 1)
  {
    hide Bucket, HeadAt, LinkAt, LastIn;
    EmptyHasNoLast(l, defs, start, n, Bucket(l, defs[n]));
    forall v: nat { HeadStep(l, defs, start, n, v); }
    forall y: nat { LinkStep(l, defs, start, n, y); }
  }

  lemma LaterInBucket(l: Layout, t: Table, defs: seq<Definition>, start: nat, n: nat, last: nat)
    requires l.bucketCount > 0 && start > 0 && n < |defs| && Holds(l, t, defs, start, n)
    requires t.buckets[Bucket(l, defs[n])] != 0
    requires LastIn(l, defs, n, Bucket(l, defs[n])) == Some(last)
    ensures Holds(l, t.(chains := t.chains[start + last := start + n]), defs, start, n + 1)
  {
    hide Bucket, HeadAt, LinkAt, LastIn;
    forall v: nat { HeadStep(l, defs, start, n, v); }
    var after := t.chains[start + last := start + n];
    forall y: nat | y < |after| ensures after[y] == LinkAt(l, defs, start, n + 1, y) {
      LinkStep(l, defs, start, n, y);
      assert y == start + last <==> start <= y < start + n && Some(last) == Some(y - start);
    }
    forall b: nat | b < |t.buckets| ensures t.buckets[b] == HeadAt(l, defs, start, n + 1, b) {
      HeadStep(l, defs, start, n, b);
    }
  }

  lemma NothingHeld(l: Layout, t: Table, defs: seq<Definition>, start: nat)
    requires l.bucketCount > 0 && l.chainCount == start + |defs|
    requires |t.buckets| == l.bucketCount && |t.chains| == l.chainCount
    requires (forall b :: 0 <= b < |t.buckets| ==> t.buckets[b] == 0) && (forall y :: 0 <= y < |t.chains| ==> t.chains[y] == 0)
    ensures Holds(l, t, defs, start, 0)
  {}

  lemma LastStep(l: Layout, last: seq<Option<nat>>, defs: seq<Definition>, start: nat, n: nat)
    requires l.bucketCount > 0 && n < |defs| && LastHolds(l, last, defs, start, n)
    ensures LastHolds(l, last[Bucket(l, defs[n]) := Some(start + n)], defs, start, n + 1)
  {
    hide Bucket;
  }

  // ----- The writer ----------------------------------------------------------------------------

  // The table inside the word buffer: two counts, then buckets, then chains.
  ghost function TableIn(l: Layout, buffer: seq<nat>): Table
    requires |buffer| >= TotalWords(l)
  {
    Table(buffer[2..2 + l.bucketCount], buffer[2 + l.bucketCount..TotalWords(l)])
  }

  lemma SetBucket(l: Layout, buffer: seq<nat>, b: nat, v: nat)
    requires |buffer| >= TotalWords(l) && b < l.bucketCount
    ensures var t := TableIn(l, buffer);
            TableIn(l, buffer[2 + b := v]) == t.(buckets := t.buckets[b := v])
  {
    var t, t' := TableIn(l, buffer), TableIn(l, buffer[2 + b := v]);
    assert t'.buckets == t.buckets[b := v];
    assert t'.chains == t.chains;
  }

  lemma SetChain(l: Layout, buffer: seq<nat>, y: nat, v: nat)
    requires |buffer| >= TotalWords(l) && y < l.chainCount
    ensures var t := TableIn(l, buffer);
            TableIn(l, buffer[2 + l.bucketCount + y := v]) == t.(chains := t.chains[y := v])
  {
    var t, t' := TableIn(l, buffer), TableIn(l, buffer[2 + l.bucketCount + y := v]);
    assert t'.buckets == t.buckets;
    assert t'.chains == t.chains[y := v];
  }

  method WriteSysvHashTable(l: Layout, defs: seq<Definition>, start: nat, buffer: array<nat>) returns (r: Result<()>)
    requires l.chainCount == start + |defs| && start > 0
    modifies buffer
    ensures r.Ok? <==> l.bucketCount == 0 || l.chainCount == 0 || buffer.Length >= TotalWords(l)
    ensures r.Ok? && l.bucketCount > 0 ==>
              && buffer.Length >= TotalWords(l)
              && buffer[0] == l.bucketCount && buffer[1] == l.chainCount
              && Holds(l, TableIn(l, buffer[..]), defs, start, |defs|)
  {
    hide Holds, LastHolds, Bucket, LastIn, TableIn;
    if l.bucketCount == 0 || l.chainCount == 0 { return Ok(()); }
    if buffer.Length < TotalWords(l) { return Err("insufficient .hash allocation"); }
    forall i | 0 <= i < TotalWords(l) { buffer[i] := 0; }
    buffer[0], buffer[1] := l.bucketCount, l.chainCount;
    var lastInBucket := seq(l.bucketCount, _ => None);
    StartTable(l, buffer[..], lastInBucket, defs, start);
    for i := 0 to |defs|
      invariant buffer[0] == l.bucketCount && buffer[1] == l.chainCount
      invariant Holds(l, TableIn(l, buffer[..]), defs, start, i)
      invariant LastHolds(l, lastInBucket, defs, start, i)
    {
      var symIndex: nat := start + i;
      var bucket := Bucket(l, defs[i]);
      ghost var before := buffer[..];
      ReadBucket(l, before, lastInBucket, defs, start, i, bucket);
      if buffer[2 + bucket] == 0 {
        FirstOfBucket(l, TableIn(l, before), defs, start, i);
        SetBucket(l, before, bucket, symIndex);
        buffer[2 + bucket] := symIndex;
        assert buffer[..] == before[2 + bucket := symIndex];
      } else {
        LaterInBucket(l, TableIn(l, before), defs, start, i, LastIn(l, defs, i, bucket).value);
        SetChain(l, before, lastInBucket[bucket].value, symIndex);
        buffer[2 + l.bucketCount + lastInBucket[bucket].value] := symIndex;
        assert buffer[..] == before[2 + l.bucketCount + lastInBucket[bucket].value := symIndex];
      }
      LastStep(l, lastInBucket, defs, start, i);
      lastInBucket := lastInBucket[bucket := Some(symIndex)];
    }
    r := Ok(());
  }

  lemma StartTable(l: Layout, buffer: seq<nat>, last: seq<Option<nat>>, defs: seq<Definition>, start: nat)
    requires l.bucketCount > 0 && l.chainCount == start + |defs| && |buffer| >= TotalWords(l)
    requires forall i :: 2 <= i < TotalWords(l) ==> buffer[i] == 0
    requires |last| == l.bucketCount && forall b :: 0 <= b < |last| ==> last[b] == None
    ensures Holds(l, TableIn(l, buffer), defs, start, 0) && LastHolds(l, last, defs, start, 0)
  {
    NothingHeld(l, TableIn(l, buffer), defs, start);
  }

  // What the writer reads before it adds symbol i: the head of its bucket, and the bucket's last
  // symbol when the head is taken.
  lemma ReadBucket(l: Layout, buffer: seq<nat>, last: seq<Option<nat>>, defs: seq<Definition>, start: nat, i: nat, b: nat)
    requires l.bucketCount > 0 && start > 0 && i < |defs| && |buffer| >= TotalWords(l) && b < l.bucketCount
    requires Holds(l, TableIn(l, buffer), defs, start, i) && LastHolds(l, last, defs, start, i)
    ensures buffer[2 + b] == TableIn(l, buffer).buckets[b]
    ensures |last| == l.bucketCount
    ensures buffer[2 + b] != 0 ==>
              && LastIn(l, defs, i, b).Some? && last[b] == Some(start + LastIn(l, defs, i, b).value)
              && start + LastIn(l, defs, i, b).value < l.chainCount
  {
    hide Bucket, HeadAt, LinkAt, LastIn;
    EmptyHasNoLast(l, defs, start, i, b);
    assert TableIn(l, buffer).buckets[b] == buffer[2 + b];
  }

  // ----- Lookup --------------------------------------------------------------------------------

  ghost predicate Complete(l: Layout, t: Table, defs: seq<Definition>, start: nat)
    requires l.bucketCount > 0
  {
    start > 0 && Holds(l, t, defs, start, |defs|)
  }

  // Chains only go forward, and stay in the table.
  lemma ChainsIncrease(l: Layout, t: Table, defs: seq<Definition>, start: nat, y: nat)
    requires l.bucketCount > 0 && Complete(l, t, defs, start) && y < |t.chains|
    ensures t.chains[y] == LinkAt(l, defs, start, |defs|, y)
    ensures t.chains[y] == 0 || y < t.chains[y] < l.chainCount
  {
    hide NextIn, Bucket, HeadAt;
  }

  // Skipping to the next symbol of the bucket passes no symbol of the wanted name.
  lemma SkipToBucket(l: Layout, defs: seq<Definition>, hashOf: string -> U32, name: string, lo: nat)
    requires l.bucketCount > 0 && Hashed(defs, hashOf) && lo <= |defs|
    ensures match NextIn(l, defs, lo, |defs|, hashOf(name) % l.bucketCount)
            case None => FindFrom(defs, name, lo) == None
            case Some(j) => FindFrom(defs, name, lo) == FindFrom(defs, name, j)
  {
    hide NextIn;
    var b := hashOf(name) % l.bucketCount;
    var next := NextIn(l, defs, lo, |defs|, b);
    var hi := if next.Some? then next.value else |defs|;
    assert forall k :: 0 <= k < |defs| && defs[k].name == name ==> Bucket(l, defs[k]) == b;
    assert forall k :: lo <= k < hi ==> defs[k].name != name;
    FindSkips(defs, name, lo, hi);
  }

  // One step of the walk from symbol start + i.
  lemma ChainLookupStep(t: Table, defs: seq<Definition>, start: nat, name: string, i: nat)
    requires start > 0 && i < |defs| && start + i < |t.chains|
    requires t.chains[start + i] == 0 || t.chains[start + i] > start + i
    ensures ChainLookup(t, defs, start, name, start + i)
            == if defs[i].name == name then Found(start + i)
               else if t.chains[start + i] == 0 then Missing
               else ChainLookup(t, defs, start, name, t.chains[start + i])
  {}

  lemma {:induction false} ChainFinds(l: Layout, t: Table, defs: seq<Definition>, start: nat, hashOf: string -> U32,
                                      name: string, i: nat)
    requires l.bucketCount > 0 && Complete(l, t, defs, start) && Hashed(defs, hashOf)
    requires i < |defs| && Bucket(l, defs[i]) == hashOf(name) % l.bucketCount
    ensures ChainLookup(t, defs, start, name, start + i)
            == match FindFrom(defs, name, i) case Some(j) => Found(start + j) case None => Missing
    decreases |defs| - i
  {
    hide NextIn, Holds, ChainLookup, Bucket;
    ChainIsComplete(l, t, defs, start);
    ChainsIncrease(l, t, defs, start, start + i);
    ChainLookupStep(t, defs, start, name, i);
    if defs[i].name != name {
      var next := NextIn(l, defs, i + 1, |defs|, hashOf(name) % l.bucketCount);
      SkipToBucket(l, defs, hashOf, name, i + 1);
      if next.Some? {
        ChainFinds(l, t, defs, start, hashOf, name, next.value);
      }
    }
  }

  lemma ChainIsComplete(l: Layout, t: Table, defs: seq<Definition>, start: nat)
    requires l.bucketCount > 0 && Complete(l, t, defs, start)
    ensures |t.chains| == start + |defs| && |t.buckets| == l.bucketCount
    ensures forall b: nat :: b < |t.buckets| ==> t.buckets[b] == HeadAt(l, defs, start, |defs|, b)
  {}

  // The loader finds exactly what a plain search of the definitions finds, for every name.
  lemma LookupIsSearch(l: Layout, t: Table, defs: seq<Definition>, start: nat, hashOf: string -> U32, name: string)
    requires l.bucketCount > 0 && Complete(l, t, defs, start) && Hashed(defs, hashOf)
    ensures |t.buckets| == l.bucketCount
    ensures LookupSymbol(l, t, defs, start, name, hashOf(name))
            == match FindFrom(defs, name, 0) case Some(i) => Found(start + i) case None => Missing
  {
    hide NextIn, ChainLookup, Holds, FindFrom;
    ChainIsComplete(l, t, defs, start);
    var b := hashOf(name) % l.bucketCount;
    var first := NextIn(l, defs, 0, |defs|, b);
    SkipToBucket(l, defs, hashOf, name, 0);
    if first.Some? {
      ChainFinds(l, t, defs, start, hashOf, name, first.value);
    } else {
      EmptyChain(t, defs, start, name);
    }
  }

  lemma EmptyChain(t: Table, defs: seq<Definition>, start: nat, name: string)
    ensures ChainLookup(t, defs, start, name, 0) == Missing
  {}

  // ----- Chains partition the definitions ------------------------------------------------------

  // The symbols that a walk from y visits.
  function ChainSymbols(t: Table, y: nat): seq<nat>
    decreases |t.chains| - y
  {
    if y == 0 || y >= |t.chains| then []
    else if t.chains[y] <= y then [y]
    else [y] + ChainSymbols(t, t.chains[y])
  }

  // The definitions from number i on that are in bucket b, as symbols.
  ghost predicate IsBucketFrom(l: Layout, defs: seq<Definition>, start: nat, b: nat, i: nat, symbols: seq<nat>)
    requires l.bucketCount > 0
  {
    forall y: nat :: y in symbols <==> start + i <= y < start + |defs| && Bucket(l, defs[y - start]) == b
  }

  lemma BucketFromCons(l: Layout, defs: seq<Definition>, start: nat, b: nat, i: nat, rest: seq<nat>)
    requires l.bucketCount > 0 && i < |defs| && Bucket(l, defs[i]) == b
    requires match NextIn(l, defs, i + 1, |defs|, b)
             case None => rest == []
             case Some(j) => IsBucketFrom(l, defs, start, b, j, rest)
    ensures IsBucketFrom(l, defs, start, b, i, [start + i] + rest)
  {
    hide NextIn, Bucket;
    var next := NextIn(l, defs, i + 1, |defs|, b);
    var all := [start + i] + rest;
    forall y: nat
      ensures y in all <==> start + i <= y < start + |defs| && Bucket(l, defs[y - start]) == b
    {
      if start + i < y < start + |defs| && Bucket(l, defs[y - start]) == b {
        assert next.Some? && next.value <= y - start;
      }
    }
  }

  lemma {:induction false} ChainIsRestOfBucket(l: Layout, t: Table, defs: seq<Definition>, start: nat, i: nat)
    requires l.bucketCount > 0 && Complete(l, t, defs, start) && i < |defs|
    ensures IsBucketFrom(l, defs, start, Bucket(l, defs[i]), i, ChainSymbols(t, start + i))
    decreases |defs| - i
  {
    hide NextIn, Bucket, Holds, IsBucketFrom;
    ChainIsComplete(l, t, defs, start);
    ChainsIncrease(l, t, defs, start, start + i);
    var b := Bucket(l, defs[i]);
    var next := NextIn(l, defs, i + 1, |defs|, b);
    if next.Some? {
      ChainIsRestOfBucket(l, t, defs, start, next.value);
      BucketFromCons(l, defs, start, b, i, ChainSymbols(t, start + next.value));
    } else {
      BucketFromCons(l, defs, start, b, i, []);
      assert [start + i] + [] == [start + i];
    }
  }

  // The chain of a bucket is exactly the definitions of that bucket, so the chains partition them.
  lemma ChainIsBucket(l: Layout, t: Table, defs: seq<Definition>, start: nat, b: nat)
    requires l.bucketCount > 0 && Complete(l, t, defs, start) && b < l.bucketCount
    ensures |t.buckets| == l.bucketCount
    ensures IsBucketFrom(l, defs, start, b, 0, ChainSymbols(t, t.buckets[b]))
  {
    hide NextIn, Bucket, Holds, ChainSymbols, IsBucketFrom;
    ChainIsComplete(l, t, defs, start);
    var first := NextIn(l, defs, 0, |defs|, b);
    if first.Some? {
      ChainIsRestOfBucket(l, t, defs, start, first.value);
      BucketFromEarlier(l, defs, start, b, first.value, ChainSymbols(t, start + first.value));
    } else {
      NoChain(l, t, defs, start, b);
    }
  }

  lemma BucketFromEarlier(l: Layout, defs: seq<Definition>, start: nat, b: nat, i: nat, symbols: seq<nat>)
    requires l.bucketCount > 0 && i < |defs| && NextIn(l, defs, 0, |defs|, b) == Some(i)
    requires IsBucketFrom(l, defs, start, b, i, symbols)
    ensures IsBucketFrom(l, defs, start, b, 0, symbols)
  {
    hide NextIn, Bucket;
    forall y: nat
      ensures y in symbols <==> start <= y < start + |defs| && Bucket(l, defs[y - start]) == b
    {
      if start <= y < start + |defs| && Bucket(l, defs[y - start]) == b { assert i <= y - start; }
    }
  }

  lemma NoChain(l: Layout, t: Table, defs: seq<Definition>, start: nat, b: nat)
    requires l.bucketCount > 0 && NextIn(l, defs, 0, |defs|, b) == None
    ensures IsBucketFrom(l, defs, start, b, 0, ChainSymbols(t, 0))
  {
    hide NextIn, Bucket;
  }
}
