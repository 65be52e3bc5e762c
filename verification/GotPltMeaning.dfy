// What GOT words are in the whole output: no other symbol has a relocation for the place of a word.
module GotPltMeaning {
  import opened Words
  import opened GotPlt
  import opened GotPltWriter
  import opened GotPltAgreement
  import opened GotPltLayout

  // ----- Relocations for a place ---------------------------------------------------------------

  predicate Touches(t: Tables, p: nat) {
    HasPlace(t.general, p) || HasPlace(t.relaPlt, p) || HasPlace(t.relative, p) || p in t.relr
  }

  lemma HasPlaceConcat(a: seq<Rela>, b: seq<Rela>, p: nat)
    ensures HasPlace(a + b, p) <==> HasPlace(a, p) || HasPlace(b, p)
  {
    if HasPlace(a, p) {
      var i :| 0 <= i < |a| && a[i].place == p;
      assert (a + b)[i].place == p;
    }
    if HasPlace(b, p) {
      var i :| 0 <= i < |b| && b[i].place == p;
      assert (a + b)[|a| + i].place == p;
    }
  }

  lemma {:induction false} AtConcat(a: seq<Rela>, b: seq<Rela>, p: nat)
    ensures HasPlace(a, p) ==> HasPlace(a + b, p) && At(a + b, p) == At(a, p)
    ensures !HasPlace(a, p) && HasPlace(b, p) ==> HasPlace(a + b, p) && At(a + b, p) == At(b, p)
  {
    HasPlaceConcat(a, b, p);
    if a == [] {
      assert a + b == b;
    } else {
      assert (a + b)[1..] == a[1..] + b && (a + b)[0] == a[0];
      AtConcat(a[1..], b, p);
      HasPlaceConcat(a[..1], a[1..], p);
      assert a[..1] + a[1..] == a;
    }
  }

  lemma TouchesPlus(t: Tables, u: Tables, p: nat)
    ensures Touches(t.Plus(u), p) <==> Touches(t, p) || Touches(u, p)
  {
    hide HasPlace;
    HasPlaceConcat(t.general, u.general, p);
    HasPlaceConcat(t.relaPlt, u.relaPlt, p);
    HasPlaceConcat(t.relative, u.relative, p);
  }

  // Tables that do not touch a place make no difference to its word.
  lemma LoadedPlus(t: Tables, u: Tables, p: nat, word: int, isInBlock: bool)
    ensures !Touches(t, p) ==> Loaded(t.Plus(u), p, word, isInBlock) == Loaded(u, p, word, isInBlock)
    ensures !Touches(u, p) ==> Loaded(t.Plus(u), p, word, isInBlock) == Loaded(t, p, word, isInBlock)
  {
    hide HasPlace, At;
    HasPlaceConcat(t.general, u.general, p);
    HasPlaceConcat(t.relaPlt, u.relaPlt, p);
    HasPlaceConcat(t.relative, u.relative, p);
    AtConcat(t.general, u.general, p);
    AtConcat(t.relaPlt, u.relaPlt, p);
    AtConcat(t.relative, u.relative, p);
  }

  lemma CombineTouches(a: Result<Tables>, b: Result<Tables>, p: nat)
    ensures var e := Combine(a, b);
            e.Ok? ==> a.Ok? && b.Ok? && (Touches(e.value, p) <==> Touches(a.value, p) || Touches(b.value, p))
  {
    hide Touches;
    if a.Ok? && b.Ok? { TouchesPlus(a.value, b.value, p); }
  }

  // ----- The places of one symbol --------------------------------------------------------------

  // Each table has at most one relocation, and all are for the word at a.
  predicate OnlyAt(t: Tables, a: nat) {
    && (forall x :: x in t.general ==> x.place == a) && (forall x :: x in t.relaPlt ==> x.place == a)
    && (forall x :: x in t.relative ==> x.place == a) && forall x :: x in t.relr ==> x == a
  }

  lemma OnlyTouches(t: Tables, a: nat, p: nat)
    requires OnlyAt(t, a)
    ensures Touches(t, p) ==> p == a
  {
    if HasPlace(t.general, p) { var i :| 0 <= i < |t.general| && t.general[i].place == p; assert t.general[i] in t.general; }
    if HasPlace(t.relaPlt, p) { var i :| 0 <= i < |t.relaPlt| && t.relaPlt[i].place == p; assert t.relaPlt[i] in t.relaPlt; }
    if HasPlace(t.relative, p) { var i :| 0 <= i < |t.relative| && t.relative[i].place == p; assert t.relative[i] in t.relative; }
  }

  lemma WordPlaces(cfg: Config, useRelr: bool, r: Resolution, a: nat)
    ensures var e := EmitWord(cfg, useRelr, r, a); e.Ok? ==> OnlyAt(e.value, a)
  {}

  lemma PltPlaces(r: Resolution, a: nat, p: nat)
    ensures EmitPlt(r, a).Ok? && !Touches(EmitPlt(r, a).value, p)
  {}

  lemma IfuncPlaces(cfg: Config, useRelr: bool, r: Resolution, a: nat, p: nat)
    ensures var e := EmitIfuncGot(cfg, useRelr, r, a);
            e.Ok? ==> OnlyAt(e.value, a) && (!r.flags.ifuncGotForAddress ==> !Touches(e.value, p))
  {}

  lemma PlainPlaces(cfg: Config, useRelr: bool, r: Resolution, a: nat, p: nat)
    requires EmitPlain(cfg, useRelr, r, a).Ok? && Touches(EmitPlain(cfg, useRelr, r, a).value, p)
    ensures p == a || (p == a + WordSize(cfg.elfClass) && r.flags.ifuncGotForAddress)
  {
    hide EmitWord, EmitPlt, EmitIfuncGot, Combine, Touches, OnlyAt, WordSize;
    var word, plt := EmitWord(cfg, useRelr, r, a), EmitPlt(r, a);
    var second := EmitIfuncGot(cfg, useRelr, r, a + WordSize(cfg.elfClass));
    CombineTouches(Combine(word, plt), second, p);
    CombineTouches(word, plt, p);
    WordPlaces(cfg, useRelr, r, a);
    PltPlaces(r, a, p);
    IfuncPlaces(cfg, useRelr, r, a + WordSize(cfg.elfClass), p);
    OnlyTouches(word.value, a, p);
    OnlyTouches(second.value, a + WordSize(cfg.elfClass), p);
  }

  lemma OffsetPlaces(cfg: Config, r: Resolution, a: nat, p: nat)
    ensures var e := EmitTlsOffset(cfg, r, a);
            e.Ok? ==> OnlyAt(e.value, a) && (!r.flags.tlsOffset ==> !Touches(e.value, p))
  {}

  lemma ModulePlaces(cfg: Config, r: Resolution, a: nat, p: nat)
    ensures var e := EmitTlsModule(cfg, r, a);
            e.Ok? && Touches(e.value, p) ==> r.flags.tlsModule && (p == a || p == a + WordSize(cfg.elfClass))
  {
    if r.flags.tlsModule {
      var id, offset := EmitTlsModuleId(cfg, r, a), EmitTlsModuleOffset(cfg, r, a + WordSize(cfg.elfClass));
      CombineTouches(Ok(id), offset, p);
      assert OnlyAt(id, a);
      OnlyTouches(id, a, p);
      if offset.Ok? {
        assert OnlyAt(offset.value, a + WordSize(cfg.elfClass));
        OnlyTouches(offset.value, a + WordSize(cfg.elfClass), p);
      }
    }
  }

  lemma DescriptorPlaces(cfg: Config, r: Resolution, a: nat, p: nat)
    ensures var e := EmitTlsDescriptor(cfg, r, a);
            e.Ok? ==> OnlyAt(e.value, a) && (!r.flags.tlsDescriptor ==> !Touches(e.value, p))
  {}

  lemma TlsPlaces(cfg: Config, r: Resolution, a: nat, p: nat)
    requires EmitTls(cfg, r, a).Ok? && Touches(EmitTls(cfg, r, a).value, p)
    ensures a <= p < a + WordBytes(cfg.elfClass, TlsSlots(r.flags))
  {
    hide EmitTlsOffset, EmitTlsModule, EmitTlsDescriptor, Combine, Touches, OnlyAt;
    var f := r.flags;
    var afterOffset := a + WordBytes(cfg.elfClass, One(f.tlsOffset));
    var afterModule := afterOffset + WordBytes(cfg.elfClass, 2 * One(f.tlsModule));
    var x, y, z := EmitTlsOffset(cfg, r, a), EmitTlsModule(cfg, r, afterOffset), EmitTlsDescriptor(cfg, r, afterModule);
    CombineTouches(Combine(x, y), z, p);
    CombineTouches(x, y, p);
    OffsetPlaces(cfg, r, a, p);
    ModulePlaces(cfg, r, afterOffset, p);
    DescriptorPlaces(cfg, r, afterModule, p);
    OnlyTouches(x.value, a, p);
    OnlyTouches(z.value, afterModule, p);
  }

  // Between the offsets before and after a symbol.
  predicate Own(o: Offsets, o': Offsets, p: nat) {
    o.got <= p < o'.got || o.gotRelr <= p < o'.gotRelr
  }

  lemma OwnPlaces(cfg: Config, useRelr: bool, o: Offsets, s: Symbol, p: nat)
    requires WellFormed(s.flags) && Emit(cfg, useRelr, Resolve(cfg, o, s)).Ok?
    requires Touches(Emit(cfg, useRelr, Resolve(cfg, o, s)).value, p)
    ensures Own(o, Advance(cfg, o, s.flags), p)
  {
    hide EmitTls, EmitPlain, Touches, IsGotRelr;
    var r := Resolve(cfg, o, s);
    if r.gotAddress.None? {
      NothingTouched(p);
    } else if s.flags.NeedsTlsGot() {
      TlsPlaces(cfg, r, r.gotAddress.value, p);
    } else {
      PlainPlaces(cfg, useRelr, r, r.gotAddress.value, p);
    }
  }

  lemma NothingTouched(p: nat)
    ensures !Touches(EMPTY, p)
  {}

  // ----- The places of all symbols -------------------------------------------------------------

  lemma {:induction false} OffsetsGrow(cfg: Config, base: Offsets, symbols: seq<Symbol>, m: nat, n: nat)
    requires m <= n <= |symbols|
    ensures var a, b := OffsetsAfter(cfg, base, symbols[..m]), OffsetsAfter(cfg, base, symbols[..n]);
            a.got <= b.got && a.gotRelr <= b.gotRelr
    decreases n
  {
    hide Moves;
    if m < n {
      assert symbols[..n][..n - 1] == symbols[..n - 1];
      OffsetsGrow(cfg, base, symbols, m, n - 1);
    }
  }

  // The two blocks of words have places of their own.
  predicate Apart(o: Offsets, o': Offsets) {
    o'.got <= o.gotRelr || o'.gotRelr <= o.got
  }

  // Symbols touch only what lies between the offsets before and after them.
  lemma {:induction false} TouchedBetween(cfg: Config, useRelr: bool, base: Offsets, symbols: seq<Symbol>, p: nat)
    requires EmitAll(cfg, useRelr, base, symbols).Ok? && Touches(EmitAll(cfg, useRelr, base, symbols).value, p)
    requires forall s :: s in symbols ==> WellFormed(s.flags)
    ensures Own(base, OffsetsAfter(cfg, base, symbols), p)
  {
    hide Touches, Emit, Resolve, Advance, WellFormed;
    if symbols == [] {
      NothingTouched(p);
    } else {
      var n := |symbols| - 1;
      var front, s := symbols[..n], symbols[n];
      OffsetsGrow(cfg, base, symbols, 0, n);
      OffsetsGrow(cfg, base, symbols, n, n + 1);
      assert symbols[..n + 1] == symbols && symbols[..0] == [];
      var one := Emit(cfg, useRelr, ResolutionOf(cfg, base, symbols, n));
      CombineTouches(EmitAll(cfg, useRelr, base, front), one, p);
      if Touches(one.value, p) {
        assert s in symbols;
        OwnPlaces(cfg, useRelr, OffsetsAfter(cfg, base, front), s, p);
      } else {
        TouchedBetween(cfg, useRelr, base, front, p);
      }
    }
  }

  // Symbols after the first m touch nothing that is among the places of those.
  lemma {:induction false} LaterDoNotTouch(cfg: Config, useRelr: bool, base: Offsets, symbols: seq<Symbol>, m: nat, p: nat,
                                           word: int, isInBlock: bool)
    requires m <= |symbols| && EmitAll(cfg, useRelr, base, symbols).Ok? && forall s :: s in symbols ==> WellFormed(s.flags)
    requires Apart(base, OffsetsAfter(cfg, base, symbols)) && Own(base, OffsetsAfter(cfg, base, symbols[..m]), p)
    ensures var part := EmitAll(cfg, useRelr, base, symbols[..m]);
            part.Ok? && Loaded(EmitAll(cfg, useRelr, base, symbols).value, p, word, isInBlock) == Loaded(part.value, p, word, isInBlock)
    decreases |symbols|
  {
    hide Touches, Emit, Resolve, Advance, WellFormed, Loaded;
    if m == |symbols| {
      assert symbols[..m] == symbols;
    } else {
      var n := |symbols| - 1;
      var front, s := symbols[..n], symbols[n];
      OffsetsGrow(cfg, base, symbols, m, n);
      OffsetsGrow(cfg, base, symbols, n, n + 1);
      OffsetsGrow(cfg, base, symbols, 0, n);
      assert symbols[..n + 1] == symbols && front[..m] == symbols[..m] && symbols[..0] == [];
      LaterDoNotTouch(cfg, useRelr, base, front, m, p, word, isInBlock);
      var one := Emit(cfg, useRelr, ResolutionOf(cfg, base, symbols, n));
      if Touches(one.value, p) {
        assert s in symbols;
        OwnPlaces(cfg, useRelr, OffsetsAfter(cfg, base, front), s, p);
        assert false;
      }
      LoadedPlus(EmitAll(cfg, useRelr, base, front).value, one.value, p, word, isInBlock);
    }
  }

  // At a place of symbol i only its own relocations count.
  lemma OnlyOwnCount(cfg: Config, useRelr: bool, base: Offsets, symbols: seq<Symbol>, i: nat, p: nat, word: int, isInBlock: bool)
    requires i < |symbols| && EmitAll(cfg, useRelr, base, symbols).Ok? && forall s :: s in symbols ==> WellFormed(s.flags)
    requires Apart(base, OffsetsAfter(cfg, base, symbols))
    requires Own(OffsetsAfter(cfg, base, symbols[..i]), OffsetsAfter(cfg, base, symbols[..i + 1]), p)
    ensures var own := Emit(cfg, useRelr, ResolutionOf(cfg, base, symbols, i));
            own.Ok? && Loaded(EmitAll(cfg, useRelr, base, symbols).value, p, word, isInBlock) == Loaded(own.value, p, word, isInBlock)
  {
    hide Touches, Emit, Resolve, WellFormed, Loaded, EmitAll, OffsetsAfter, Precedes;
    var n := |symbols|;
    assert symbols[..n] == symbols;
    EmittedPrecedes(cfg, useRelr, base, symbols, i + 1);
    EmittedPrecedes(cfg, useRelr, base, symbols, i);
    EmitOneMore(cfg, useRelr, base, symbols, i);
    FromTheStart(cfg, base, symbols, i);
    LaterDoNotTouch(cfg, useRelr, base, symbols, i + 1, p, word, isInBlock);
    var before := EmitAll(cfg, useRelr, base, symbols[..i]);
    if Touches(before.value, p) {
      TouchedBetween(cfg, useRelr, base, symbols[..i], p);
      assert false;
    }
    LoadedPlus(before.value, Emit(cfg, useRelr, ResolutionOf(cfg, base, symbols, i)).value, p, word, isInBlock);
  }

  lemma FromTheStart(cfg: Config, base: Offsets, symbols: seq<Symbol>, i: nat)
    requires i < |symbols|
    ensures var o, o', all := OffsetsAfter(cfg, base, symbols[..i]), OffsetsAfter(cfg, base, symbols[..i + 1]), OffsetsAfter(cfg, base, symbols);
            && base.got <= o.got <= o'.got <= all.got && base.gotRelr <= o.gotRelr <= o'.gotRelr <= all.gotRelr
  {
    hide Advance;
    assert symbols[..0] == [] && symbols[..|symbols|] == symbols;
    OffsetsGrow(cfg, base, symbols, 0, i);
    OffsetsGrow(cfg, base, symbols, i, i + 1);
    OffsetsGrow(cfg, base, symbols, i + 1, |symbols|);
  }

  // ----- What the words mean -------------------------------------------------------------------

  // The word at a place, once all is loaded, is what it was meant to be.
  predicate WordMeans(all: Tables, isRelr: bool, k: nat, place: nat, meaning: Meaning) {
    var words := if isRelr then all.gotRelr else all.got;
    k < |words| && Loaded(all, place, words[k], isRelr) == meaning
  }

  function PltMeaning(cfg: Config, plt: nat): Meaning {
    if IsLoadedAnywhere(cfg.kind) then Moved(plt) else Fixed(plt)
  }

  // In the tables of one resolution.
  lemma OwnWord(cfg: Config, useRelr: bool, r: Resolution, a: nat)
    requires WellFormed(r.flags) && (r.flags.HasDynamicSymbol() ==> r.dynamicIndex.Some?)
    requires EmitPlain(cfg, useRelr, r, a).Ok?
    ensures WordMeans(EmitPlain(cfg, useRelr, r, a).value, IsGotRelr(cfg, r.flags), 0, a, Intended(cfg, r))
  {
    hide EmitWord, EmitPlt, EmitIfuncGot, Touches, OnlyAt, Loaded, Intended, IsGotRelr, WellFormed;
    var word, plt := EmitWord(cfg, useRelr, r, a), EmitPlt(r, a);
    var second := EmitIfuncGot(cfg, useRelr, r, a + WordSize(cfg.elfClass));
    WordMeansSymbol(cfg, useRelr, r, a);
    PltPlaces(r, a, a);
    IfuncPlaces(cfg, useRelr, r, a + WordSize(cfg.elfClass), a);
    OnlyTouches(second.value, a + WordSize(cfg.elfClass), a);
    var isRelr := IsGotRelr(cfg, r.flags);
    var w := if isRelr then word.value.gotRelr[0] else word.value.got[0];
    LoadedPlus(word.value, plt.value, a, w, isRelr);
    LoadedPlus(word.value.Plus(plt.value), second.value, a, w, isRelr);
  }

  lemma OwnSecondWord(cfg: Config, useRelr: bool, r: Resolution, a: nat)
    requires WellFormed(r.flags) && r.flags.ifuncGotForAddress && r.pltAddress.Some?
    requires EmitPlain(cfg, useRelr, r, a).Ok?
    ensures WordMeans(EmitPlain(cfg, useRelr, r, a).value, false, 1, a + WordSize(cfg.elfClass), PltMeaning(cfg, r.pltAddress.value))
  {
    hide EmitWord, EmitPlt, EmitIfuncGot, Touches, OnlyAt, Loaded, IsGotRelr;
    var word, plt, b := EmitWord(cfg, useRelr, r, a), EmitPlt(r, a), a + WordSize(cfg.elfClass);
    var second := EmitIfuncGot(cfg, useRelr, r, b);
    OneGotWord(cfg, useRelr, r, a);
    SecondWordMeansPlt(cfg, useRelr, r, b);
    WordPlaces(cfg, useRelr, r, a);
    OnlyTouches(word.value, a, b);
    PltPlaces(r, a, b);
    TouchesPlus(word.value, plt.value, b);
    LoadedPlus(word.value.Plus(plt.value), second.value, b, second.value.got[0], false);
  }

  lemma OneGotWord(cfg: Config, useRelr: bool, r: Resolution, a: nat)
    requires r.flags.isIfunc
    ensures var e := EmitWord(cfg, useRelr, r, a); e.Ok? ==> |e.value.got| == 1
    ensures EmitPlt(r, a).value.got == []
  {}

  // The word of a symbol in the whole output, whatever the other symbols.
  lemma WordMeansSymbolInAll(cfg: Config, base: Offsets, symbols: seq<Symbol>, i: nat)
    requires Even(base) && (forall s :: s in symbols ==> Ready(cfg, s)) && Apart(base, OffsetsAfter(cfg, base, symbols))
    requires i < |symbols| && symbols[i].flags.needsGot && !symbols[i].flags.NeedsTlsGot()
    ensures var all, before := EmitAll(cfg, cfg.isRelrEnabled, base, symbols), EmitAll(cfg, cfg.isRelrEnabled, base, symbols[..i]);
            var r, isRelr := ResolutionOf(cfg, base, symbols, i), IsGotRelr(cfg, symbols[i].flags);
            && all.Ok? && before.Ok? && r.gotAddress.Some?
            && (!symbols[i].flags.isDynamic ==> r.rawValue == symbols[i].rawValue)
            && WordMeans(all.value, isRelr, if isRelr then |before.value.gotRelr| else |before.value.got|,
                         r.gotAddress.value, Intended(cfg, r))
  {
    hide EmitAll, OffsetsAfter, Ready, EmitPlain, EmitTls, Intended, Loaded, IsGotRelr, WellFormed, Even, WordBytes;
    var r, useRelr, isRelr := ResolutionOf(cfg, base, symbols, i), cfg.isRelrEnabled, IsGotRelr(cfg, symbols[i].flags);
    assert symbols[i] in symbols;
    ReadyFlags(cfg, symbols);
    WordsAreAtTheirAddress(cfg, base, symbols, i);
    OwnGotAddress(cfg, base, symbols, i);
    OwnWord(cfg, useRelr, r, r.gotAddress.value);
    var own := EmitPlain(cfg, useRelr, r, r.gotAddress.value).value;
    OnlyOwnCount(cfg, useRelr, base, symbols, i, r.gotAddress.value, if isRelr then own.gotRelr[0] else own.got[0], isRelr);
  }

  // The second word of an ifunc in the whole output is the address of its PLT entry.
  lemma SecondWordMeansPltInAll(cfg: Config, base: Offsets, symbols: seq<Symbol>, i: nat)
    requires Even(base) && (forall s :: s in symbols ==> Ready(cfg, s)) && Apart(base, OffsetsAfter(cfg, base, symbols))
    requires i < |symbols| && symbols[i].flags.ifuncGotForAddress
    ensures var all, before := EmitAll(cfg, cfg.isRelrEnabled, base, symbols), EmitAll(cfg, cfg.isRelrEnabled, base, symbols[..i]);
            var r := ResolutionOf(cfg, base, symbols, i);
            && all.Ok? && before.Ok? && r.gotAddress.Some? && r.pltAddress.Some?
            && WordMeans(all.value, false, |before.value.got| + 1, r.gotAddress.value + WordSize(cfg.elfClass),
                         PltMeaning(cfg, r.pltAddress.value))
  {
    hide EmitAll, OffsetsAfter, Ready, EmitPlain, EmitTls, Loaded, IsGotRelr, Even, WordBytes, WordSize;
    var r, useRelr := ResolutionOf(cfg, base, symbols, i), cfg.isRelrEnabled;
    assert symbols[i] in symbols;
    ReadyFlags(cfg, symbols);
    WordsAreAtTheirAddress(cfg, base, symbols, i);
    OwnGotAddress(cfg, base, symbols, i);
    OwnSecondWord(cfg, useRelr, r, r.gotAddress.value);
    var own := EmitPlain(cfg, useRelr, r, r.gotAddress.value).value;
    OnlyOwnCount(cfg, useRelr, base, symbols, i, r.gotAddress.value + WordSize(cfg.elfClass), own.got[1], false);
  }

  // The PLT entry of a symbol is where its resolution says, and jumps through the word that is meant for the
  // symbol. It stands for the symbol if that is defined elsewhere.
  lemma PltEntryJumpsToSymbol(cfg: Config, base: Offsets, symbols: seq<Symbol>, i: nat)
    requires Even(base) && (forall s :: s in symbols ==> Ready(cfg, s)) && Apart(base, OffsetsAfter(cfg, base, symbols))
    requires i < |symbols| && symbols[i].flags.needsPlt
    ensures var all, before := EmitAll(cfg, cfg.isRelrEnabled, base, symbols), EmitAll(cfg, cfg.isRelrEnabled, base, symbols[..i]);
            var r, isRelr := ResolutionOf(cfg, base, symbols, i), IsGotRelr(cfg, symbols[i].flags);
            && all.Ok? && before.Ok? && |before.value.plt| < |all.value.plt|
            && var entry := all.value.plt[|before.value.plt|];
               && entry.pltAddress == base.plt + 16 * |before.value.plt| && r.pltAddress == Some(entry.pltAddress)
               && r.gotAddress == Some(entry.gotAddress)
               && r.rawValue == (if symbols[i].flags.isDynamic then entry.pltAddress else symbols[i].rawValue)
               && WordMeans(all.value, isRelr, if isRelr then |before.value.gotRelr| else |before.value.got|,
                            entry.gotAddress, Intended(cfg, r))
  {
    hide EmitAll, OffsetsAfter, Ready, EmitPlain, EmitTls, Intended, Loaded, IsGotRelr, Even, WordBytes, WordMeans, Apart;
    assert symbols[i] in symbols;
    ReadyFlags(cfg, symbols);
    WordMeansSymbolInAll(cfg, base, symbols, i);
    WordsAreAtTheirAddress(cfg, base, symbols, i);
    OwnPltEntry(cfg, cfg.isRelrEnabled, ResolutionOf(cfg, base, symbols, i));
    OwnPltAddress(cfg, base, symbols, i);
  }

  lemma OwnPltEntry(cfg: Config, useRelr: bool, r: Resolution)
    requires r.gotAddress.Some? && r.pltAddress.Some? && !r.flags.NeedsTlsGot() && Emit(cfg, useRelr, r).Ok?
    ensures Emit(cfg, useRelr, r).value.plt == [PltEntry(r.gotAddress.value, r.pltAddress.value)]
  {
    hide IsGotRelr;
    var a := r.gotAddress.value;
    assert EmitWord(cfg, useRelr, r, a).value.plt == [];
    assert EmitIfuncGot(cfg, useRelr, r, a + WordSize(cfg.elfClass)).value.plt == [];
  }

  lemma OwnPltAddress(cfg: Config, base: Offsets, symbols: seq<Symbol>, i: nat)
    requires i < |symbols| && symbols[i].flags.needsPlt
    ensures var r := ResolutionOf(cfg, base, symbols, i);
            r.pltAddress.Some? && r.rawValue == if symbols[i].flags.isDynamic then r.pltAddress.value else symbols[i].rawValue
  {}

  // Of the words that move with the output, the block that the RELR bitmap covers has those of all symbols
  // but the ones that were made local.
  lemma InBlockExactly(cfg: Config, r: Resolution)
    ensures IsGotRelr(cfg, r.flags)
       <==> cfg.isRelrEnabled && Intended(cfg, r).Moved? && !r.flags.isDowngradedToLocal
  {}

  lemma ReadyFlags(cfg: Config, symbols: seq<Symbol>)
    requires forall s :: s in symbols ==> Ready(cfg, s)
    ensures forall s :: s in symbols ==> WellFormed(s.flags)
    ensures forall s :: s in symbols && !s.flags.NeedsTlsGot() && s.flags.HasDynamicSymbol() ==> s.dynamicIndex.Some?
  {}

  // The words of a symbol lie between the offsets before and after it.
  lemma OwnGotAddress(cfg: Config, base: Offsets, symbols: seq<Symbol>, i: nat)
    requires i < |symbols| && symbols[i].flags.needsGot && !symbols[i].flags.NeedsTlsGot() && WellFormed(symbols[i].flags)
    ensures var r, o, o' := ResolutionOf(cfg, base, symbols, i), OffsetsAfter(cfg, base, symbols[..i]), OffsetsAfter(cfg, base, symbols[..i + 1]);
            && r.gotAddress.Some? && Own(o, o', r.gotAddress.value)
            && (symbols[i].flags.ifuncGotForAddress ==> Own(o, o', r.gotAddress.value + WordSize(cfg.elfClass)) && r.pltAddress.Some?)
  {
    hide IsGotRelr;
    assert symbols[..i + 1][..i] == symbols[..i];
  }
}
