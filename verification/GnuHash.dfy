// .gnu.hash: the table the writer fills from symbols sorted by bucket, and the lookup a loader does
// in it.
module GnuHash {
  import opened Words
  import opened Definitions

  datatype Layout = Layout(bucketCount: nat, bloomShift: nat, bloomCount: nat, symbolBase: nat)

  function CreateLayout(numDefs: nat, symbolBase: nat): (r: Layout)
    ensures r.bucketCount >= 1 && r.bloomCount == 1 && r.bloomShift == 6 && r.symbolBase == symbolBase
    ensures (exists k: nat :: r.bucketCount == Pow2(k)) && numDefs / 2 <= r.bucketCount
    ensures numDefs >= 2 ==> r.bucketCount < 2 * (numDefs / 2)
  {
    Layout(NextPowerOfTwo(numDefs / 2), 6, 1, symbolBase)
  }

  function ClassBits(c: ElfClass): nat {
    match c case Class32 => 32 case Class64 => 64
  }

  function Bucket(l: Layout, hash: U32): (r: nat)
    requires l.bucketCount > 0
    ensures r < l.bucketCount
  {
    hash % l.bucketCount
  }

  // The order that the symbols are put in when the layout is created. Ties are broken by name, which
  // the table does not depend on.
  ghost predicate SortedByBucket(l: Layout, defs: seq<Definition>)
    requires l.bucketCount > 0
  {
    forall i, j :: 0 <= i < j < |defs| ==> Bucket(l, defs[i].hash) <= Bucket(l, defs[j].hash)
  }

  // Both bits of a symbol and the word that they are in.
  function BloomWord(c: ElfClass, l: Layout, hash: U32): (r: nat)
    requires l.bloomCount > 0
    ensures r < l.bloomCount
  {
    hash / ClassBits(c) % l.bloomCount
  }

  function Bit1(c: ElfClass, hash: U32): (r: nat)
    ensures r < ClassBits(c)
  {
    hash % ClassBits(c)
  }

  function Bit2(c: ElfClass, l: Layout, hash: U32): (r: nat)
    ensures r < ClassBits(c)
  {
    hash / Pow2(l.bloomShift) % ClassBits(c)
  }

  // ----- The loader ----------------------------------------------------------------------------

  datatype Table = Table(bloom: seq<nat>, buckets: seq<nat>, chains: seq<nat>)

  datatype Lookup = Found(index: nat) | Missing | OutOfBounds

  // What a loader computes goes by the numbers in the header, not by what the writer computes.
  predicate BloomAccepts(c: ElfClass, l: Layout, t: Table, hash: U32)
    requires l.bloomCount > 0 && |t.bloom| == l.bloomCount
  {
    var bits := 8 * WordSize(c);
    var word := t.bloom[hash / bits % l.bloomCount];
    Bit(word, hash % bits) && Bit(word, hash / Pow2(l.bloomShift) % bits)
  }

  // Walks a chain from entry i. Symbol symbolBase + i has the name of definition i.
  function ChainLookup(l: Layout, t: Table, defs: seq<Definition>, name: string, hash: U32, i: nat): Lookup
    decreases |t.chains| - i
  {
    if i >= |t.chains| || i >= |defs| then OutOfBounds
    else if t.chains[i] / 2 == hash / 2 && defs[i].name == name then Found(l.symbolBase + i)
    else if t.chains[i] % 2 == 1 then Missing
    else ChainLookup(l, t, defs, name, hash, i + 1)
  }

  function LookupSymbol(c: ElfClass, l: Layout, t: Table, defs: seq<Definition>, name: string, hash: U32): Lookup
    requires l.bloomCount > 0 && |t.bloom| == l.bloomCount
    requires l.bucketCount > 0 && |t.buckets| == l.bucketCount
  {
    if !BloomAccepts(c, l, t, hash) then Missing
    else
      var first := t.buckets[hash % l.bucketCount];
      if first == 0 then Missing
      else if first < l.symbolBase then OutOfBounds
      else ChainLookup(l, t, defs, name, hash, first - l.symbolBase)
  }

  // ----- What the table has to hold ------------------------------------------------------------

  predicate LastInChain(l: Layout, defs: seq<Definition>, i: nat)
    requires l.bucketCount > 0 && i < |defs|
  {
    i + 1 == |defs| || Bucket(l, defs[i + 1].hash) != Bucket(l, defs[i].hash)
  }

  function ChainWord(l: Layout, defs: seq<Definition>, i: nat): nat
    requires l.bucketCount > 0 && i < |defs|
  {
    2 * (defs[i].hash / 2) + if LastInChain(l, defs, i) then 1 else 0
  }

  predicate FirstInChain(l: Layout, defs: seq<Definition>, i: nat)
    requires l.bucketCount > 0 && i < |defs|
  {
    i == 0 || Bucket(l, defs[i - 1].hash) != Bucket(l, defs[i].hash)
  }

  predicate SetsBit(c: ElfClass, l: Layout, d: Definition, word: nat, bit: nat)
    requires l.bloomCount > 0
  {
    BloomWord(c, l, d.hash) == word && (bit == Bit1(c, d.hash) || bit == Bit2(c, l, d.hash))
  }

  // The table after the first n symbols.
  ghost predicate BloomHolds(c: ElfClass, l: Layout, bloom: seq<nat>, defs: seq<Definition>, n: nat)
    requires l.bloomCount > 0 && n <= |defs|
  {
    && |bloom| == l.bloomCount
    && (forall w :: 0 <= w < |bloom| ==> bloom[w] < Pow2(ClassBits(c)))
    && (forall w, k: nat :: 0 <= w < |bloom| ==>
          (Bit(bloom[w], k) <==> exists i :: 0 <= i < n && SetsBit(c, l, defs[i], w, k)))
  }

  ghost predicate ChainsHold(l: Layout, chains: seq<nat>, defs: seq<Definition>, n: nat)
    requires l.bucketCount > 0 && n <= |defs|
  {
    |chains| == |defs| && forall i :: 0 <= i < n ==> chains[i] == ChainWord(l, defs, i)
  }

  ghost predicate NoSymbolIn(l: Layout, defs: seq<Definition>, n: nat, b: nat)
    requires l.bucketCount > 0 && n <= |defs|
  {
    forall i :: 0 <= i < n ==> Bucket(l, defs[i].hash) != b
  }

  ghost predicate BucketsHold(l: Layout, buckets: seq<nat>, defs: seq<Definition>, n: nat)
    requires l.bucketCount > 0 && n <= |defs|
  {
    && |buckets| == l.bucketCount
    && (forall i: nat {:trigger FirstInChain(l, defs, i)} :: i < n && FirstInChain(l, defs, i) ==>
          buckets[Bucket(l, defs[i].hash)] == l.symbolBase + i)
    && (forall b: nat :: b < |buckets| && NoSymbolIn(l, defs, n, b) ==> buckets[b] == 0)
  }

  ghost predicate Holds(c: ElfClass, l: Layout, t: Table, defs: seq<Definition>)
    requires l.bucketCount > 0 && l.bloomCount > 0
  {
    && BloomHolds(c, l, t.bloom, defs, |defs|)
    && ChainsHold(l, t.chains, defs, |defs|)
    && BucketsHold(l, t.buckets, defs, |defs|)
  }

  // ----- The writer ----------------------------------------------------------------------------

  lemma BloomStep(c: ElfClass, l: Layout, bloom: seq<nat>, defs: seq<Definition>, n: nat)
    requires l.bloomCount > 0 && n < |defs| && BloomHolds(c, l, bloom, defs, n)
    ensures var w, hash := BloomWord(c, l, defs[n].hash), defs[n].hash;
            BloomHolds(c, l, bloom[w := SetBit(SetBit(bloom[w], Bit1(c, hash)), Bit2(c, l, hash))], defs, n + 1)
  {
    hide BloomWord, Bit1, Bit2, SetBit, Bit;
    var d := defs[n];
    var w := BloomWord(c, l, d.hash);
    var once := SetBit(bloom[w], Bit1(c, d.hash));
    var twice := SetBit(once, Bit2(c, l, d.hash));
    SetBitFits(bloom[w], Bit1(c, d.hash), ClassBits(c));
    SetBitFits(once, Bit2(c, l, d.hash), ClassBits(c));
    var after := bloom[w := twice];
    forall v, k: nat | 0 <= v < |bloom|
      ensures Bit(after[v], k) <==> exists i :: 0 <= i < n + 1 && SetsBit(c, l, defs[i], v, k)
    {
      SetBitBits(bloom[w], Bit1(c, d.hash), k);
      SetBitBits(once, Bit2(c, l, d.hash), k);
      assert Bit(after[v], k) <==> Bit(bloom[v], k) || SetsBit(c, l, d, v, k);
      if exists i :: 0 <= i < n && SetsBit(c, l, defs[i], v, k) {
        var i :| 0 <= i < n && SetsBit(c, l, defs[i], v, k);
        assert SetsBit(c, l, defs[i], v, k);
      }
    }
  }

  // A symbol that opens a chain opens it in a bucket that no earlier symbol is in.
  lemma NewChainNewBucket(l: Layout, defs: seq<Definition>, n: nat)
    requires l.bucketCount > 0 && n < |defs| && SortedByBucket(l, defs) && FirstInChain(l, defs, n)
    ensures forall i :: 0 <= i < n ==> Bucket(l, defs[i].hash) != Bucket(l, defs[n].hash)
  {
    hide Bucket;
    forall i | 0 <= i < n ensures Bucket(l, defs[i].hash) != Bucket(l, defs[n].hash) {
      if i < n - 1 { assert Bucket(l, defs[i].hash) <= Bucket(l, defs[n - 1].hash); }
      assert Bucket(l, defs[n - 1].hash) <= Bucket(l, defs[n].hash);
    }
  }

  lemma NoSymbolStep(l: Layout, defs: seq<Definition>, n: nat, b: nat)
    requires l.bucketCount > 0 && n < |defs|
    ensures NoSymbolIn(l, defs, n + 1, b) ==> NoSymbolIn(l, defs, n, b) && Bucket(l, defs[n].hash) != b
  {
    hide Bucket;
  }

  lemma BucketsStep(l: Layout, buckets: seq<nat>, defs: seq<Definition>, n: nat)
    requires l.bucketCount > 0 && n < |defs| && SortedByBucket(l, defs) && BucketsHold(l, buckets, defs, n)
    ensures var b := Bucket(l, defs[n].hash);
            BucketsHold(l, if FirstInChain(l, defs, n) then buckets[b := l.symbolBase + n] else buckets, defs, n + 1)
  {
    hide Bucket, SortedByBucket, FirstInChain, NoSymbolIn;
    forall v: nat ensures NoSymbolIn(l, defs, n + 1, v) ==> NoSymbolIn(l, defs, n, v) && Bucket(l, defs[n].hash) != v {
      NoSymbolStep(l, defs, n, v);
    }
    if FirstInChain(l, defs, n) {
      NewChainNewBucket(l, defs, n);
    }
  }

  // The header fields are the layout's. Space for the three arrays was reserved from the layout.
  method WriteGnuHashTables(c: ElfClass, l: Layout, defs: seq<Definition>,
                            bloom: array<nat>, buckets: array<nat>, chains: array<nat>)
    requires l.bucketCount > 0 && l.bloomCount > 0 && SortedByBucket(l, defs)
    requires bloom.Length == l.bloomCount && buckets.Length == l.bucketCount && chains.Length == |defs|
    requires bloom != buckets && bloom != chains && buckets != chains
    modifies bloom, buckets, chains
    ensures Holds(c, l, Table(bloom[..], buckets[..], chains[..]), defs)
  {
    hide BloomWord, Bit1, Bit2, Bucket, SetBit, Pow2, BloomHolds, BucketsHold, SortedByBucket;
    forall i | 0 <= i < buckets.Length { buckets[i] := 0; }
    forall i | 0 <= i < bloom.Length { bloom[i] := 0; }
    NothingHeld(c, l, bloom[..], buckets[..], defs);
    var startOfChain := true;
    for i := 0 to chains.Length
      invariant startOfChain <==> i == 0 || LastInChain(l, defs, i - 1)
      invariant BloomHolds(c, l, bloom[..], defs, i) && BucketsHold(l, buckets[..], defs, i)
      invariant ChainsHold(l, chains[..], defs, i)
    {
      var hash := defs[i].hash;
      BloomStep(c, l, bloom[..], defs, i);
      BucketsStep(l, buckets[..], defs, i);
      ghost var bloom0, buckets0 := bloom[..], buckets[..];
      var w := BloomWord(c, l, hash);
      bloom[w] := SetBit(SetBit(bloom[w], Bit1(c, hash)), Bit2(c, l, hash));
      assert bloom[..] == bloom0[w := bloom[w]];
      chains[i] := 2 * (hash / 2);
      var bucket := Bucket(l, hash);
      if startOfChain {
        buckets[bucket] := l.symbolBase + i;
        startOfChain := false;
        assert buckets[..] == buckets0[bucket := buckets[bucket]];
      }
      if i + 1 == |defs| || Bucket(l, defs[i + 1].hash) != bucket {
        chains[i] := chains[i] + 1;
        startOfChain := true;
      }
    }
  }

  lemma NothingHeld(c: ElfClass, l: Layout, bloom: seq<nat>, buckets: seq<nat>, defs: seq<Definition>)
    requires l.bucketCount > 0 && l.bloomCount > 0 && |bloom| == l.bloomCount && |buckets| == l.bucketCount
    requires (forall i :: 0 <= i < |bloom| ==> bloom[i] == 0) && (forall i :: 0 <= i < |buckets| ==> buckets[i] == 0)
    ensures BloomHolds(c, l, bloom, defs, 0) && BucketsHold(l, buckets, defs, 0)
  {
    forall k: nat { ZeroHasNoBits(k); }
  }

  // ----- Lookup in a table that holds its symbols ----------------------------------------------

  // Symbols of one bucket are next to each other.
  lemma SameBucketBetween(l: Layout, defs: seq<Definition>, i: nat, j: nat, k: nat)
    requires l.bucketCount > 0 && SortedByBucket(l, defs) && i <= k <= j < |defs|
    requires Bucket(l, defs[i].hash) == Bucket(l, defs[j].hash)
    ensures Bucket(l, defs[k].hash) == Bucket(l, defs[i].hash)
  {
    hide Bucket;
    if i < k { assert Bucket(l, defs[i].hash) <= Bucket(l, defs[k].hash); }
    if k < j { assert Bucket(l, defs[k].hash) <= Bucket(l, defs[j].hash); }
  }

  // From an entry of the right bucket on, the chain walk and a plain search agree, as long as what
  // the search finds is in the bucket.
  lemma {:induction false} ChainFinds(c: ElfClass, l: Layout, t: Table, defs: seq<Definition>, hashOf: string -> U32,
                                      name: string, i: nat)
    requires l.bucketCount > 0 && l.bloomCount > 0 && SortedByBucket(l, defs) && Hashed(defs, hashOf)
    requires ChainsHold(l, t.chains, defs, |defs|) && i < |defs|
    requires Bucket(l, defs[i].hash) == Bucket(l, hashOf(name))
    ensures ChainLookup(l, t, defs, name, hashOf(name), i)
            == match FindFrom(defs, name, i) case Some(j) => Found(l.symbolBase + j) case None => Missing
    decreases |defs| - i
  {
    hide Bucket, SortedByBucket;
    var hash := hashOf(name);
    ChainWordParts(l, defs, i);
    if defs[i].name != name {
      if LastInChain(l, defs, i) {
        NothingPastChain(l, defs, hashOf, name, i);
      } else {
        ChainFinds(c, l, t, defs, hashOf, name, i + 1);
      }
    }
  }

  lemma ChainWordParts(l: Layout, defs: seq<Definition>, i: nat)
    requires l.bucketCount > 0 && i < |defs|
    ensures ChainWord(l, defs, i) / 2 == defs[i].hash / 2
    ensures ChainWord(l, defs, i) % 2 == 1 <==> LastInChain(l, defs, i)
  {}

  // Past the end of a chain there is no symbol of its bucket, hence none of its names.
  lemma NothingPastChain(l: Layout, defs: seq<Definition>, hashOf: string -> U32, name: string, i: nat)
    requires l.bucketCount > 0 && SortedByBucket(l, defs) && Hashed(defs, hashOf) && i < |defs|
    requires Bucket(l, defs[i].hash) == Bucket(l, hashOf(name)) && LastInChain(l, defs, i)
    ensures FindFrom(defs, name, i + 1) == None
  {
    hide Bucket, SortedByBucket;
    var found := FindFrom(defs, name, i + 1);
    if found.Some? {
      var j := found.value;
      assert Bucket(l, defs[j].hash) == Bucket(l, hashOf(name));
      SameBucketBetween(l, defs, i, j, i + 1);
      assert false;
    }
  }

  // Before the start of a chain there is none either.
  lemma NothingBeforeChain(l: Layout, defs: seq<Definition>, hashOf: string -> U32, name: string, i: nat)
    requires l.bucketCount > 0 && SortedByBucket(l, defs) && Hashed(defs, hashOf) && i < |defs|
    requires Bucket(l, defs[i].hash) == Bucket(l, hashOf(name)) && FirstInChain(l, defs, i)
    ensures FindFrom(defs, name, 0) == FindFrom(defs, name, i)
  {
    hide Bucket, SortedByBucket;
    NewChainNewBucket(l, defs, i);
    assert forall k :: 0 <= k < |defs| && defs[k].name == name ==> Bucket(l, defs[k].hash) == Bucket(l, hashOf(name));
    assert forall k :: 0 <= k < i ==> defs[k].name != name;
    FindSkips(defs, name, 0, i);
  }

  // Every bucket that has a symbol has a first one.
  lemma {:induction false} ChainStart(l: Layout, defs: seq<Definition>, i: nat) returns (s: nat)
    requires l.bucketCount > 0 && i < |defs|
    ensures s <= i && FirstInChain(l, defs, s) && Bucket(l, defs[s].hash) == Bucket(l, defs[i].hash)
  {
    if FirstInChain(l, defs, i) { s := i; } else { s := ChainStart(l, defs, i - 1); }
  }

  // The writer puts a hash where a loader looks for it.
  lemma WhereLoadersLook(c: ElfClass, l: Layout, hash: U32)
    requires l.bucketCount > 0 && l.bloomCount > 0
    ensures var bits := 8 * WordSize(c);
            && Bucket(l, hash) == hash % l.bucketCount && BloomWord(c, l, hash) == hash / bits % l.bloomCount
            && Bit1(c, hash) == hash % bits && Bit2(c, l, hash) == hash / Pow2(l.bloomShift) % bits
  {}

  // The bloom filter lets every defined symbol through.
  lemma BloomNeverRejects(c: ElfClass, l: Layout, t: Table, defs: seq<Definition>, i: nat)
    requires l.bucketCount > 0 && l.bloomCount > 0 && Holds(c, l, t, defs) && i < |defs|
    ensures BloomAccepts(c, l, t, defs[i].hash)
  {
    WhereLoadersLook(c, l, defs[i].hash);
    hide BloomWord, Bit1, Bit2, Bit, Pow2;
    var hash := defs[i].hash;
    assert SetsBit(c, l, defs[i], BloomWord(c, l, hash), Bit1(c, hash));
    assert SetsBit(c, l, defs[i], BloomWord(c, l, hash), Bit2(c, l, hash));
  }

  // The loader finds exactly what a plain search of the symbol list finds, for every name, and never
  // leaves the table.
  lemma LookupIsSearch(c: ElfClass, l: Layout, t: Table, defs: seq<Definition>, hashOf: string -> U32, name: string)
    requires l.bucketCount > 0 && l.bloomCount > 0 && l.symbolBase > 0
    requires SortedByBucket(l, defs) && Hashed(defs, hashOf) && Holds(c, l, t, defs)
    ensures LookupSymbol(c, l, t, defs, name, hashOf(name))
            == match FindFrom(defs, name, 0) case Some(i) => Found(l.symbolBase + i) case None => Missing
  {
    hide BloomAccepts, Bucket, ChainLookup, BloomHolds, ChainsHold, SortedByBucket, FirstInChain;
    assert Bucket(l, hashOf(name)) == hashOf(name) % l.bucketCount by { WhereLoadersLook(c, l, hashOf(name)); }
    hide Pow2, BloomWord, Bit1, Bit2, SetBit, Bit;
    var hash := hashOf(name);
    var b := Bucket(l, hash);
    var found := FindFrom(defs, name, 0);
    if found.Some? { BloomNeverRejects(c, l, t, defs, found.value); }
    if exists i: nat :: i < |defs| && Bucket(l, defs[i].hash) == b {
      var i: nat :| i < |defs| && Bucket(l, defs[i].hash) == b;
      var s := ChainStart(l, defs, i);
      NothingBeforeChain(l, defs, hashOf, name, s);
      ChainFinds(c, l, t, defs, hashOf, name, s);
    } else {
      assert NoSymbolIn(l, defs, |defs|, b);
    }
  }

  // Sorting loses nothing: every definition that layout was given is found under its name.
  lemma EveryDefinitionIsFound(c: ElfClass, l: Layout, t: Table, given: seq<Definition>, sorted: seq<Definition>,
                               hashOf: string -> U32, d: Definition)
    requires l.bucketCount > 0 && l.bloomCount > 0 && l.symbolBase > 0
    requires multiset(given) == multiset(sorted) && SortedByBucket(l, sorted)
    requires Hashed(sorted, hashOf) && Holds(c, l, t, sorted) && d in given
    ensures var r := LookupSymbol(c, l, t, sorted, d.name, hashOf(d.name));
            r.Found? && l.symbolBase <= r.index < l.symbolBase + |sorted|
            && sorted[r.index - l.symbolBase].name == d.name
  {
    LookupIsSearch(c, l, t, sorted, hashOf, d.name);
    assert d in multiset(sorted);
    var k :| 0 <= k < |sorted| && sorted[k] == d;
    assert sorted[k].name == d.name;
  }

  // With symbol base 0 the first symbol's bucket reads as empty, so the base is not optional.
  lemma ZeroBaseLosesFirstSymbol(c: ElfClass, l: Layout, t: Table, defs: seq<Definition>)
    requires l.bucketCount > 0 && l.bloomCount > 0 && l.symbolBase == 0 && defs != []
    requires Holds(c, l, t, defs)
    ensures LookupSymbol(c, l, t, defs, defs[0].name, defs[0].hash) == Missing
  {
    hide BloomAccepts, Bucket, BloomHolds;
    WhereLoadersLook(c, l, defs[0].hash);
    assert FirstInChain(l, defs, 0);
  }

  // ----- Chains partition the symbols ----------------------------------------------------------

  // The entries that a loader visits from entry i to the end-of-chain bit.
  function ChainEntries(t: Table, i: nat): seq<nat>
    decreases |t.chains| - i
  {
    if i >= |t.chains| then []
    else if t.chains[i] % 2 == 1 then [i]
    else [i] + ChainEntries(t, i + 1)
  }

  lemma {:induction false} ChainIsRestOfBucket(l: Layout, t: Table, defs: seq<Definition>, i: nat)
    requires l.bucketCount > 0 && SortedByBucket(l, defs) && ChainsHold(l, t.chains, defs, |defs|) && i < |defs|
    ensures forall k: nat :: k in ChainEntries(t, i)
                        <==> i <= k < |defs| && Bucket(l, defs[k].hash) == Bucket(l, defs[i].hash)
    decreases |defs| - i
  {
    hide Bucket, SortedByBucket;
    ChainWordParts(l, defs, i);
    if LastInChain(l, defs, i) {
      forall k: nat | i < k < |defs| ensures Bucket(l, defs[k].hash) != Bucket(l, defs[i].hash) {
        if Bucket(l, defs[k].hash) == Bucket(l, defs[i].hash) { SameBucketBetween(l, defs, i, k, i + 1); }
      }
    } else {
      ChainIsRestOfBucket(l, t, defs, i + 1);
    }
  }

  // The chain that a non-empty bucket points to is the symbols of that bucket.
  lemma ChainIsBucket(c: ElfClass, l: Layout, t: Table, defs: seq<Definition>, i: nat)
    requires l.bucketCount > 0 && l.bloomCount > 0 && SortedByBucket(l, defs) && Holds(c, l, t, defs) && i < |defs|
    ensures var b := Bucket(l, defs[i].hash);
            && t.buckets[b] >= l.symbolBase
            && forall k: nat :: k in ChainEntries(t, t.buckets[b] - l.symbolBase)
                           <==> k < |defs| && Bucket(l, defs[k].hash) == b
  {
    hide Bucket, BloomHolds, SortedByBucket, FirstInChain, ChainEntries;
    var s := ChainStart(l, defs, i);
    ChainIsRestOfBucket(l, t, defs, s);
    NewChainNewBucket(l, defs, s);
    assert t.buckets[Bucket(l, defs[s].hash)] == l.symbolBase + s;
  }
}
