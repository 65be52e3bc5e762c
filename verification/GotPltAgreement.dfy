// The layout reserves what the writer takes, and hands out the addresses of the words it takes.
module GotPltAgreement {
  import opened Words
  import opened GotPlt
  import opened GotPltWriter

  // ----- One symbol ----------------------------------------------------------------------------

  // The flags that relocation scanning can leave: a PLT entry comes with a GOT entry, the second entry
  // of an ifunc with an ifunc and its PLT entry, TLS variables have no PLT entry, and an ifunc of a shared
  // object is not an ifunc here.
  predicate WellFormed(f: Flags) {
    && (f.needsPlt ==> f.needsGot && !f.NeedsTlsGot())
    && (f.ifuncGotForAddress ==> f.isIfunc && f.needsPlt)
    && !(f.isDynamic && f.isIfunc)
  }

  predicate Even(o: Offsets) {
    o.got % 2 == 0 && o.gotRelr % 2 == 0
  }

  lemma EvenWord(c: ElfClass, a: nat)
    requires a % 2 == 0
    ensures (a + WordSize(c)) % 2 == 0
  {}

  lemma CombineSizes(a: Result<Tables>, b: Result<Tables>)
    ensures var e := Combine(a, b);
            (e.Ok? <==> a.Ok? && b.Ok?) && (e.Ok? ==> e.value.Size() == a.value.Size().Plus(b.value.Size()))
  {}

  function PltSize(hasPlt: bool): Sizes {
    Sizes(0, 0, One(hasPlt), 0, 0, 0, 0)
  }

  // What the writer takes for the word itself.
  function WordTaken(cfg: Config, f: Flags): Sizes {
    var isRelr := IsGotRelr(cfg, f);
    var isRelative := !f.isIfunc && !f.HasDynamicSymbol() && f.HasLinkTimeAddress() && cfg.kind.IsPositionIndependent();
    Sizes(One(!isRelr), One(isRelr), 0, One(f.isIfunc && !f.isDynamic), One(isRelative && !cfg.isRelrEnabled),
          One(f.isDynamic || (!f.isIfunc && f.HasDynamicSymbol())), One(isRelative && cfg.isRelrEnabled && !isRelr))
  }

  lemma WordSizes(cfg: Config, r: Resolution, a: nat)
    requires a % 2 == 0 && (r.flags.HasDynamicSymbol() ==> r.dynamicIndex.Some?)
    ensures var e := EmitWord(cfg, cfg.isRelrEnabled, r, a);
            e.Ok? && e.value.Size() == WordTaken(cfg, r.flags)
  {}

  lemma IfuncSizes(cfg: Config, r: Resolution, a: nat)
    requires a % 2 == 0
    ensures var e := EmitIfuncGot(cfg, cfg.isRelrEnabled, r, a);
            && (e.Ok? <==> (r.flags.ifuncGotForAddress ==> r.pltAddress.Some?))
            && (e.Ok? ==> e.value.Size() == IfuncNeeds(cfg, r.flags))
  {}

  lemma PltSizes(r: Resolution, a: nat)
    ensures EmitPlt(r, a).Ok? && EmitPlt(r, a).value.Size() == PltSize(r.pltAddress.Some?)
  {}

  lemma PlainSizes(cfg: Config, r: Resolution, a: nat)
    requires a % 2 == 0 && (r.flags.HasDynamicSymbol() ==> r.dynamicIndex.Some?)
    ensures var e := EmitPlain(cfg, cfg.isRelrEnabled, r, a);
            && (e.Ok? <==> (r.flags.ifuncGotForAddress ==> r.pltAddress.Some?))
            && (e.Ok? ==> e.value.Size() == WordTaken(cfg, r.flags).Plus(PltSize(r.pltAddress.Some?))
                                            .Plus(IfuncNeeds(cfg, r.flags)))
  {
    hide WordTaken, IfuncNeeds, EmitWord, EmitPlt, EmitIfuncGot, Combine, WordSize;
    var word, plt := EmitWord(cfg, cfg.isRelrEnabled, r, a), EmitPlt(r, a);
    EvenWord(cfg.elfClass, a);
    WordSizes(cfg, r, a);
    PltSizes(r, a);
    IfuncSizes(cfg, r, a + WordSize(cfg.elfClass));
    CombineSizes(word, plt);
    CombineSizes(Combine(word, plt), EmitIfuncGot(cfg, cfg.isRelrEnabled, r, a + WordSize(cfg.elfClass)));
  }

  lemma TlsNeedsNothing(cfg: Config, f: Flags)
    requires !f.NeedsTlsGot()
    ensures Needs(cfg, f) == PlainNeeds(cfg, f).Plus(IfuncNeeds(cfg, f))
  {
    hide PlainNeeds, IfuncNeeds, TlsNeeds;
    TlsNeedsZero(cfg, f);
    NothingToAdd(TlsNeeds(cfg, f), PlainNeeds(cfg, f).Plus(IfuncNeeds(cfg, f)));
  }

  lemma TlsNeedsZero(cfg: Config, f: Flags)
    requires !f.NeedsTlsGot()
    ensures TlsNeeds(cfg, f).IsNothing()
  {
    hide OffsetNeeds, ModuleNeeds, DescriptorNeeds, Sizes.Plus;
    TlsPartsZero(cfg, f);
    NothingToAdd(OffsetNeeds(cfg, f), ModuleNeeds(cfg, f));
    NothingToAdd(ModuleNeeds(cfg, f), DescriptorNeeds(f));
  }

  lemma TlsPartsZero(cfg: Config, f: Flags)
    requires !f.NeedsTlsGot()
    ensures OffsetNeeds(cfg, f).IsNothing() && ModuleNeeds(cfg, f).IsNothing() && DescriptorNeeds(f).IsNothing()
  {}

  lemma WordsAdd(a: Sizes, b: Sizes)
    ensures a.Plus(b).got == a.got + b.got && a.Plus(b).gotRelr == a.gotRelr + b.gotRelr
  {}

  // The layout's count and the writer's, when there is a GOT entry.
  lemma PlainNeedsIsTaken(cfg: Config, f: Flags)
    requires f.needsGot && !f.NeedsTlsGot()
    ensures PlainNeeds(cfg, f) == WordTaken(cfg, f).Plus(PltSize(f.needsPlt)) <==> !(f.isDynamic && f.isIfunc)
  {}

  lemma SumsAgree(a: Sizes, b: Sizes, c: Sizes)
    ensures a.Plus(c) == b.Plus(c) <==> a == b
  {}

  lemma PlainAddress(cfg: Config, o: Offsets, s: Symbol)
    requires !s.flags.NeedsTlsGot()
    ensures var r := Resolve(cfg, o, s);
            && (r.gotAddress.Some? <==> s.flags.needsGot || s.flags.needsPlt)
            && (r.gotAddress.Some? ==> r.gotAddress.value == o.got || r.gotAddress.value == o.gotRelr)
            && (r.pltAddress.Some? <==> s.flags.needsPlt) && r.flags == s.flags && r.dynamicIndex == s.dynamicIndex
  {
    hide IsGotRelr;
  }

  lemma NothingToAdd(a: Sizes, b: Sizes)
    requires a.IsNothing()
    ensures a.Plus(b) == b && b.Plus(a) == b
  {}

  lemma NoGotNeedsLittle(cfg: Config, f: Flags)
    requires !f.needsGot
    ensures PlainNeeds(cfg, f).IsNothing()
  {}

  lemma IfuncNeedsNothing(cfg: Config, f: Flags)
    ensures IfuncNeeds(cfg, f).IsNothing() <==> !f.ifuncGotForAddress
  {}

  lemma WordTakenIsSomething(cfg: Config, f: Flags)
    ensures !WordTaken(cfg, f).Plus(PltSize(f.needsPlt)).IsNothing()
  {
    hide IsGotRelr, Sizes.Plus;
    WordsAdd(WordTaken(cfg, f), PltSize(f.needsPlt));
    assert WordTaken(cfg, f).got + WordTaken(cfg, f).gotRelr == 1;
  }

  // When there is a GOT address.
  lemma AddressedAgrees(cfg: Config, r: Resolution)
    requires r.gotAddress.Some? && r.gotAddress.value % 2 == 0 && !r.flags.NeedsTlsGot()
    requires r.flags.HasDynamicSymbol() ==> r.dynamicIndex.Some?
    requires r.pltAddress.Some? <==> r.flags.needsPlt
    ensures var f, e := r.flags, Emit(cfg, cfg.isRelrEnabled, r);
            e.Ok? && e.value.Size() == PlainNeeds(cfg, f).Plus(IfuncNeeds(cfg, f))
            <==> f.needsGot && (f.ifuncGotForAddress ==> f.needsPlt) && !(f.isDynamic && f.isIfunc)
  {
    hide EmitPlain, WordTaken, IfuncNeeds, PlainNeeds, One;
    var f := r.flags;
    var taken := WordTaken(cfg, f).Plus(PltSize(f.needsPlt));
    PlainSizes(cfg, r, r.gotAddress.value);
    SumsAgree(taken, PlainNeeds(cfg, f), IfuncNeeds(cfg, f));
    if f.needsGot {
      PlainNeedsIsTaken(cfg, f);
    } else {
      NoGotNeedsLittle(cfg, f);
      WordTakenIsSomething(cfg, f);
    }
  }

  lemma UnaddressedTakesNothing(cfg: Config, r: Resolution)
    requires r.gotAddress.None?
    ensures var e := Emit(cfg, cfg.isRelrEnabled, r);
            e.Ok? && e.value.Size().IsNothing()
  {}

  lemma NothingIsNothing(a: Sizes, b: Sizes)
    requires a.IsNothing()
    ensures a == b <==> b.IsNothing()
  {}

  // Without TLS, the writer takes from each of the seven tables what the layout reserved exactly when
  // the flags are consistent in these three ways.
  lemma PlainAgreesExactly(cfg: Config, o: Offsets, s: Symbol)
    requires !s.flags.NeedsTlsGot() && Even(o) && (s.flags.HasDynamicSymbol() ==> s.dynamicIndex.Some?)
    ensures var f, e := s.flags, Emit(cfg, cfg.isRelrEnabled, Resolve(cfg, o, s));
            e.Ok? && e.value.Size() == Needs(cfg, f)
            <==> (f.needsPlt ==> f.needsGot) && (f.ifuncGotForAddress ==> f.needsPlt)
                 && !(f.needsGot && f.isDynamic && f.isIfunc)
  {
    hide GotAddress, Emit, WordTaken, IfuncNeeds, Needs, PlainNeeds, IsGotRelr, Resolve, One;
    var f, r := s.flags, Resolve(cfg, o, s);
    PlainAddress(cfg, o, s);
    TlsNeedsNothing(cfg, f);
    if r.gotAddress.Some? {
      AddressedAgrees(cfg, r);
    } else {
      UnaddressedTakesNothing(cfg, r);
      NoGotNeedsLittle(cfg, f);
      IfuncNeedsNothing(cfg, f);
      NothingToAdd(PlainNeeds(cfg, f), IfuncNeeds(cfg, f));
      NothingIsNothing(Emit(cfg, cfg.isRelrEnabled, r).value.Size(), IfuncNeeds(cfg, f));
    }
  }

  // What the layout reserves for TLS relocations beyond what the writer takes.
  function OffsetExcess(cfg: Config, s: Symbol): int {
    var f := s.flags;
    if !f.tlsOffset then 0
    else One(f.isInterposable || cfg.kind.SharedObject?)
         - One(f.HasDynamicSymbol() || (s.rawValue != 0 && !cfg.kind.IsExecutable()))
  }

  function ModuleExcess(s: Symbol): int {
    var f := s.flags;
    if !f.tlsModule then 0
    else One(f.HasDynamicSymbol()) - One(s.dynamicIndex.Some? && f.isInterposable)
  }

  // What the writer demands of a TLS variable.
  predicate TlsReady(cfg: Config, s: Symbol) {
    var f := s.flags;
    && (f.tlsOffset && f.HasDynamicSymbol() ==> s.dynamicIndex.Some?)
    && (f.tlsOffset && !f.HasDynamicSymbol() ==> s.rawValue == 0 || cfg.tlsStart <= s.rawValue <= cfg.tlsEnd)
    && (f.tlsModule ==> s.dynamicIndex.Some? || f.HasLinkTimeAddress())
    && (f.tlsDescriptor ==> !cfg.kind.StaticExecutable?)
  }

  // The writer takes what is needed, except so many relocations.
  ghost predicate LessExcess(taken: Sizes, needs: Sizes, excess: int) {
    taken.(general := 0) == needs.(general := 0) && needs.general == taken.general + excess
  }

  lemma LessExcessSum(a: Sizes, b: Sizes, c: Sizes, d: Sizes, x: int, y: int)
    requires LessExcess(a, b, x) && LessExcess(c, d, y)
    ensures LessExcess(a.Plus(c), b.Plus(d), x + y)
  {}

  predicate OffsetReady(cfg: Config, s: Symbol) {
    var f := s.flags;
    && (f.tlsOffset && f.HasDynamicSymbol() ==> s.dynamicIndex.Some?)
    && (f.tlsOffset && !f.HasDynamicSymbol() ==> s.rawValue == 0 || cfg.tlsStart <= s.rawValue <= cfg.tlsEnd)
  }

  function SymbolOf(r: Resolution): Symbol {
    Symbol(r.flags, r.rawValue, r.dynamicIndex)
  }

  lemma OffsetSizes(cfg: Config, r: Resolution, a: nat)
    ensures var e := EmitTlsOffset(cfg, r, a);
            && (e.Ok? <==> OffsetReady(cfg, SymbolOf(r)))
            && (e.Ok? ==> LessExcess(e.value.Size(), OffsetNeeds(cfg, r.flags), OffsetExcess(cfg, SymbolOf(r))))
  {}

  lemma ModuleSizes(cfg: Config, r: Resolution, a: nat)
    ensures var e := EmitTlsModule(cfg, r, a);
            && (e.Ok? <==> (r.flags.tlsModule ==> r.dynamicIndex.Some? || r.flags.HasLinkTimeAddress()))
            && (e.Ok? ==> LessExcess(e.value.Size(), ModuleNeeds(cfg, r.flags), ModuleExcess(SymbolOf(r))))
  {}

  lemma DescriptorSizes(cfg: Config, r: Resolution, a: nat)
    ensures var e := EmitTlsDescriptor(cfg, r, a);
            && (e.Ok? <==> (r.flags.tlsDescriptor ==> !cfg.kind.StaticExecutable?))
            && (e.Ok? ==> LessExcess(e.value.Size(), DescriptorNeeds(r.flags), 0))
  {}

  lemma TlsSizes(cfg: Config, r: Resolution, a: nat)
    ensures var e, s := EmitTls(cfg, r, a), SymbolOf(r);
            && (e.Ok? <==> TlsReady(cfg, s))
            && (e.Ok? ==> LessExcess(e.value.Size(), TlsNeeds(cfg, r.flags), OffsetExcess(cfg, s) + ModuleExcess(s)))
  {
    hide WordBytes, EmitTlsOffset, EmitTlsModule, EmitTlsDescriptor, Combine, OffsetExcess, ModuleExcess, One,
         LessExcess, OffsetNeeds, ModuleNeeds, DescriptorNeeds;
    var f, s := r.flags, SymbolOf(r);
    var afterOffset := a + WordBytes(cfg.elfClass, One(f.tlsOffset));
    var afterModule := afterOffset + WordBytes(cfg.elfClass, 2 * One(f.tlsModule));
    var x, y, z := EmitTlsOffset(cfg, r, a), EmitTlsModule(cfg, r, afterOffset), EmitTlsDescriptor(cfg, r, afterModule);
    OffsetSizes(cfg, r, a);
    ModuleSizes(cfg, r, afterOffset);
    DescriptorSizes(cfg, r, afterModule);
    CombineSizes(x, y);
    CombineSizes(Combine(x, y), z);
    if x.Ok? && y.Ok? && z.Ok? {
      LessExcessSum(x.value.Size(), OffsetNeeds(cfg, f), y.value.Size(), ModuleNeeds(cfg, f),
                    OffsetExcess(cfg, s), ModuleExcess(s));
      LessExcessSum(x.value.Size().Plus(y.value.Size()), OffsetNeeds(cfg, f).Plus(ModuleNeeds(cfg, f)),
                    z.value.Size(), DescriptorNeeds(f), OffsetExcess(cfg, s) + ModuleExcess(s), 0);
    }
  }

  // With TLS, the writer is ready exactly under TlsReady. Then it takes every word that was reserved,
  // and of the relocations all but the excess.
  lemma TlsAgreesExactly(cfg: Config, o: Offsets, s: Symbol)
    requires WellFormed(s.flags) && s.flags.NeedsTlsGot()
    ensures var e, excess := Emit(cfg, cfg.isRelrEnabled, Resolve(cfg, o, s)), OffsetExcess(cfg, s) + ModuleExcess(s);
            && (e.Ok? <==> TlsReady(cfg, s))
            && (e.Ok? ==> (e.value.Size() == Needs(cfg, s.flags) <==> excess == 0))
            && (e.Ok? ==> LessExcess(e.value.Size(), Needs(cfg, s.flags), excess))
  {
    hide EmitTls, OffsetExcess, ModuleExcess, TlsReady, TlsNeeds, Needs, Resolve, EmitPlain, GotAddress;
    var r := Resolve(cfg, o, s);
    assert SymbolOf(r) == s && r.gotAddress.Some? by { TlsAddress(cfg, o, s); }
    TlsSizes(cfg, r, r.gotAddress.value);
    PlainNeedsNothing(cfg, s.flags);
  }

  // A TLS variable with a GOT offset that is not dynamic and has no value, as an undefined weak one, in a
  // shared object: one relocation more is reserved than is taken.
  lemma UndefinedTlsWastes(cfg: Config, o: Offsets, f: Flags)
    requires cfg.kind.SharedObject? && f.tlsOffset && !f.tlsModule && WellFormed(f) && !f.HasDynamicSymbol()
    ensures var e := Emit(cfg, cfg.isRelrEnabled, Resolve(cfg, o, Symbol(f, 0, None)));
            e.Ok? && Needs(cfg, f).general == e.value.Size().general + 1
  {
    hide Emit, Resolve, Needs;
    TlsAgreesExactly(cfg, o, Symbol(f, 0, None));
  }

  lemma TlsAddress(cfg: Config, o: Offsets, s: Symbol)
    requires WellFormed(s.flags) && s.flags.NeedsTlsGot()
    ensures SymbolOf(Resolve(cfg, o, s)) == s && Resolve(cfg, o, s).gotAddress == Some(o.got)
  {
    hide IsGotRelr;
  }

  lemma PlainNeedsNothing(cfg: Config, f: Flags)
    requires WellFormed(f) && f.NeedsTlsGot()
    ensures Needs(cfg, f) == TlsNeeds(cfg, f)
  {
    hide TlsNeeds, PlainNeeds, IfuncNeeds;
    IfuncNeedsNothing(cfg, f);
    TlsNeedsOnly(cfg, f);
    NothingToAdd(PlainNeeds(cfg, f), IfuncNeeds(cfg, f));
    NothingToAdd(IfuncNeeds(cfg, f), TlsNeeds(cfg, f));
  }

  lemma TlsNeedsOnly(cfg: Config, f: Flags)
    requires f.NeedsTlsGot()
    ensures PlainNeeds(cfg, f).IsNothing()
  {}

  // ----- What a GOT word is once the output is loaded ------------------------------------------

  // What a relocation of some kind makes of a dynamic symbol, what an ifunc resolver returns, an address
  // that moves with the output, or a plain number.
  datatype Meaning = ValueOf(kind: RelaKind, symbol: nat, addend: int)
                   | Resolved(resolver: int) | Moved(address: int) | Fixed(value: int)

  predicate HasPlace(relas: seq<Rela>, place: nat) {
    exists i :: 0 <= i < |relas| && relas[i].place == place
  }

  // The first relocation at a place.
  function At(relas: seq<Rela>, place: nat): Rela
    requires HasPlace(relas, place)
  {
    if relas[0].place == place then relas[0] else At(relas[1..], place)
  }

  function MeaningOf(x: Rela): Meaning {
    match x.kind
    case Irelative => Resolved(x.addend)
    case Relative => Moved(x.addend)
    case _ => ValueOf(x.kind, x.symbol, x.addend)
  }

  // A word and the relocations for its place. Words in the block that the RELR bitmap covers move
  // without any of their own.
  function Loaded(t: Tables, place: nat, word: int, isInBlock: bool): Meaning {
    if HasPlace(t.general, place) then MeaningOf(At(t.general, place))
    else if HasPlace(t.relaPlt, place) then MeaningOf(At(t.relaPlt, place))
    else if HasPlace(t.relative, place) then MeaningOf(At(t.relative, place))
    else if isInBlock || place in t.relr then Moved(word)
    else Fixed(word)
  }

  // Whether addresses move with the output.
  predicate IsLoadedAnywhere(kind: OutputKind) {
    match kind
    case StaticExecutable(pic) => pic
    case DynamicExecutable(pic) => pic
    case SharedObject => true
    case PartialLink => false
  }

  // What an ifunc resolver returns, the value of a symbol that the loader looks up, or the address of one
  // that is defined here, which moves with the output unless it is absolute.
  function Intended(cfg: Config, r: Resolution): Meaning {
    var f := r.flags;
    if f.isIfunc then Resolved(r.rawValue)
    else if f.isDynamic || (f.exportDynamic && f.isInterposable) then
      ValueOf(GotEntry, if r.dynamicIndex.Some? then r.dynamicIndex.value else 0, 0)
    else if !f.isAbsolute && IsLoadedAnywhere(cfg.kind) then Moved(r.rawValue)
    else Fixed(r.rawValue)
  }

  lemma NoPlace(place: nat)
    ensures !HasPlace([], place)
  {}

  lemma OnePlace(rela: Rela, place: nat)
    ensures HasPlace([rela], place) <==> rela.place == place
    ensures rela.place == place ==> At([rela], place) == rela
  {
    assert [rela][0] == rela;
  }

  // The word for a symbol comes to be what was intended, whichever table it is in and whichever of the
  // kinds of relocation does it.
  lemma WordMeansSymbol(cfg: Config, useRelr: bool, r: Resolution, a: nat)
    requires WellFormed(r.flags) && (r.flags.HasDynamicSymbol() ==> r.dynamicIndex.Some?)
    ensures var e, isRelr := EmitWord(cfg, useRelr, r, a), IsGotRelr(cfg, r.flags);
            && e.Ok? && |e.value.got| == One(!isRelr) && |e.value.gotRelr| == One(isRelr)
            && Loaded(e.value, a, if isRelr then e.value.gotRelr[0] else e.value.got[0], isRelr) == Intended(cfg, r)
  {
    NoPlace(a);
    var t := EmitWord(cfg, useRelr, r, a).value;
    if t.general != [] { OnePlace(t.general[0], a); }
    if t.relaPlt != [] { OnePlace(t.relaPlt[0], a); }
    if t.relative != [] { OnePlace(t.relative[0], a); }
  }

  // The second word of an ifunc comes to be the address of its PLT entry.
  lemma SecondWordMeansPlt(cfg: Config, useRelr: bool, r: Resolution, a: nat)
    requires r.flags.ifuncGotForAddress && r.pltAddress.Some?
    ensures var e, plt := EmitIfuncGot(cfg, useRelr, r, a), r.pltAddress.value;
            && e.Ok? && |e.value.got| == 1
            && Loaded(e.value, a, e.value.got[0], false) == if IsLoadedAnywhere(cfg.kind) then Moved(plt) else Fixed(plt)
  {
    NoPlace(a);
    var t := EmitIfuncGot(cfg, useRelr, r, a).value;
    if t.relative != [] { OnePlace(t.relative[0], a); }
  }
}
