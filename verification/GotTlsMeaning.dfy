// Where the GOT words of TLS variables lead, once the output is loaded and a thread runs.
module GotTlsMeaning {
  import opened Words
  import opened GotPlt
  import opened GotPltWriter
  import opened GotPltAgreement
  import opened GotPltLayout
  import opened GotPltMeaning

  // ----- A thread ------------------------------------------------------------------------------

  // What the loader knows in one thread: the number of the module of this output, the thread pointer, where
  // the TLS block of each module is, and for each dynamic symbol its module and its offset in the block of
  // that.
  datatype Thread = Thread(own: nat, pointer: int, blockOf: nat -> int, moduleOf: nat -> nat, offsetOf: nat -> int) {
    function AddressOf(symbol: nat): int { blockOf(moduleOf(symbol)) + offsetOf(symbol) }

    // The place that a relocation is about; symbol 0 is this output.
    function Place(symbol: nat, addend: int): int {
      (if symbol == 0 then blockOf(own) else AddressOf(symbol)) + addend
    }
  }

  // The number that the loader leaves in a word.
  function Number(cfg: Config, t: Thread, m: Meaning): Option<int> {
    match m
    case Fixed(v) => Some(v)
    case ValueOf(kind, symbol, addend) =>
      if kind == TpOff then Some(t.Place(symbol, addend) - t.pointer)
      else if kind == DtpMod then Some(if symbol == 0 then t.own else t.moduleOf(symbol))
      else if kind == DtpOff then Some(t.offsetOf(symbol) + addend - cfg.dtvOffset)
      else None
    case _ => None
  }

  // What __tls_get_addr returns for a module and an offset.
  function TlsGetAddr(cfg: Config, t: Thread, id: nat, offset: int): int {
    t.blockOf(id) + offset + cfg.dtvOffset
  }

  // The loader finds this symbol.
  predicate IsLookedUp(f: Flags) {
    f.isDynamic || (f.exportDynamic && f.isInterposable)
  }

  // The variable that a symbol is.
  function Variable(cfg: Config, t: Thread, s: Symbol): int {
    if IsLookedUp(s.flags) && s.dynamicIndex.Some? then t.AddressOf(s.dynamicIndex.value)
    else t.blockOf(t.own) + (s.rawValue - cfg.tlsStart)
  }

  predicate Executable(kind: OutputKind) {
    match kind
    case StaticExecutable(_) => true
    case DynamicExecutable(_) => true
    case _ => false
  }

  // An executable is module 1, its block is at a fixed distance from the thread pointer, and what it
  // defines comes first. A symbol that the loader does not find elsewhere is the one of this output.
  predicate Suits(cfg: Config, t: Thread, s: Symbol) {
    && (Executable(cfg.kind) ==> t.own == 1 && t.blockOf(1) == t.pointer + (cfg.tlsStart - cfg.tpOffsetStart))
    && (IsLookedUp(s.flags) ==> s.dynamicIndex.Some?)
    && (s.dynamicIndex.Some? ==>
          var k := s.dynamicIndex.value;
          && k != 0
          && (Executable(cfg.kind) && !s.flags.isDynamic ==> t.moduleOf(k) == t.own)
          && (!IsLookedUp(s.flags) ==> t.moduleOf(k) == t.own && t.offsetOf(k) == s.rawValue - cfg.tlsStart))
  }

  // ----- The words of one symbol ---------------------------------------------------------------

  function Word(t: Tables, place: nat, k: nat): Option<Meaning> {
    if k < |t.got| then Some(Loaded(t, place, t.got[k], false)) else None
  }

  function Left(cfg: Config, th: Thread, t: Tables, place: nat, k: nat): Option<int> {
    var w := Word(t, place, k);
    if w.Some? then Number(cfg, th, w.value) else None
  }

  lemma OffsetLeads(cfg: Config, th: Thread, r: Resolution, a: nat)
    requires var s := SymbolOf(r); r.flags.tlsOffset && Suits(cfg, th, s) && EmitTlsOffset(cfg, r, a).Ok?
    requires IsLookedUp(r.flags) || r.rawValue != 0
    ensures var n := Left(cfg, th, EmitTlsOffset(cfg, r, a).value, a, 0);
            n.Some? && Congruent(th.pointer + n.value, Variable(cfg, th, SymbolOf(r)))
  {
    NoPlace(a);
    var t := EmitTlsOffset(cfg, r, a).value;
    if t.general != [] { OnePlace(t.general[0], a); }
    WrapsApart(r.rawValue - cfg.tpOffsetStart, th.pointer);
    hide Congruent;
  }

  lemma WrapsApart(n: int, c: int)
    ensures Congruent(c + n % TWO_64, c + n)
    ensures Congruent(c + n, c + n)
  {}

  // The two words for a module and an offset in it.
  lemma ModuleId(cfg: Config, th: Thread, r: Resolution, a: nat)
    requires Suits(cfg, th, SymbolOf(r))
    ensures var n := Left(cfg, th, EmitTlsModuleId(cfg, r, a), a, 0);
            n == Some(if r.dynamicIndex.Some? then th.moduleOf(r.dynamicIndex.value) else th.own)
              || (r.dynamicIndex.None? && r.flags.isDynamic)
  {
    NoPlace(a);
    var t := EmitTlsModuleId(cfg, r, a);
    if t.general != [] { OnePlace(t.general[0], a); }
  }

  lemma ModuleOffset(cfg: Config, th: Thread, r: Resolution, a: nat)
    requires EmitTlsModuleOffset(cfg, r, a).Ok?
    ensures var n, k := Left(cfg, th, EmitTlsModuleOffset(cfg, r, a).value, a, 0), r.dynamicIndex;
            n == Some(if k.None? then (r.rawValue - cfg.tlsStart - cfg.dtvOffset) % TWO_64
                      else if r.flags.isInterposable then th.offsetOf(k.value) - cfg.dtvOffset
                      else 0)
  {
    NoPlace(a);
    var t := EmitTlsModuleOffset(cfg, r, a).value;
    if t.general != [] { OnePlace(t.general[0], a); }
  }

  predicate LeadsTo(cfg: Config, th: Thread, id: Option<int>, offset: Option<int>, address: int) {
    id.Some? && offset.Some? && id.value >= 0 && Congruent(TlsGetAddr(cfg, th, id.value, offset.value), address)
  }

  lemma ModuleLeads(cfg: Config, th: Thread, r: Resolution, a: nat, b: nat)
    requires Suits(cfg, th, SymbolOf(r)) && EmitTlsModuleOffset(cfg, r, b).Ok?
    ensures LeadsTo(cfg, th, Left(cfg, th, EmitTlsModuleId(cfg, r, a), a, 0),
                    Left(cfg, th, EmitTlsModuleOffset(cfg, r, b).value, b, 0), Variable(cfg, th, SymbolOf(r)))
       <==> ModuleLeadsThere(cfg, th, SymbolOf(r))
  {
    hide EmitTlsModuleId, Left;
    ModuleId(cfg, th, r, a);
    ModuleOffset(cfg, th, r, b);
    hide EmitTlsModuleOffset;
    WrapsApart(r.rawValue - cfg.tlsStart - cfg.dtvOffset, th.blockOf(th.own) + cfg.dtvOffset);
    if r.dynamicIndex.Some? {
      var k := r.dynamicIndex.value;
      Shifted(th.blockOf(th.moduleOf(k)), cfg.dtvOffset, th.offsetOf(k));
    }
    hide Congruent;
  }

  lemma Shifted(base: int, a: int, b: int)
    ensures Congruent(base + 0 + a, base + b) <==> Congruent(b, a)
    ensures Congruent(base + b - a + a, base + b)
  {}

  // The variable has no dynamic symbol, or one that can be interposed, or is just where an offset word of 0
  // leads.
  predicate ModuleLeadsThere(cfg: Config, th: Thread, s: Symbol) {
    s.dynamicIndex.None? || s.flags.isInterposable || Congruent(th.offsetOf(s.dynamicIndex.value), cfg.dtvOffset)
  }

  // A descriptor of this place.
  predicate IsAbout(th: Thread, m: Option<Meaning>, address: int) {
    m.Some? && m.value.ValueOf? && m.value.kind == TlsDesc && th.Place(m.value.symbol, m.value.addend) == address
  }

  // The relocation of a descriptor is about the variable.
  lemma DescriptorLeads(cfg: Config, th: Thread, r: Resolution, a: nat)
    requires r.flags.tlsDescriptor && Suits(cfg, th, SymbolOf(r)) && EmitTlsDescriptor(cfg, r, a).Ok?
    ensures var m := Word(EmitTlsDescriptor(cfg, r, a).value, a, 0);
            IsAbout(th, m, Variable(cfg, th, SymbolOf(r)))
  {
    OnePlace(EmitTlsDescriptor(cfg, r, a).value.general[0], a);
  }

  // ----- All words of one symbol ---------------------------------------------------------------

  lemma WordPlus(t: Tables, u: Tables, p: nat, k: nat)
    ensures k < |t.got| && !Touches(u, p) ==> Word(t.Plus(u), p, k) == Word(t, p, k)
    ensures k < |u.got| && !Touches(t, p) ==> Word(t.Plus(u), p, |t.got| + k) == Word(u, p, k)
  {
    hide Loaded, Touches;
    if k < |t.got| { LoadedPlus(t, u, p, t.got[k], false); }
    if k < |u.got| { LoadedPlus(t, u, p, u.got[k], false); }
  }

  function AfterOffset(cfg: Config, f: Flags, a: nat): nat {
    a + WordBytes(cfg.elfClass, One(f.tlsOffset))
  }

  function AfterModule(cfg: Config, f: Flags, a: nat): nat {
    AfterOffset(cfg, f, a) + WordBytes(cfg.elfClass, 2 * One(f.tlsModule))
  }

  lemma Counts(cfg: Config, r: Resolution, a: nat)
    ensures var x, y, z := EmitTlsOffset(cfg, r, a), EmitTlsModule(cfg, r, a), EmitTlsDescriptor(cfg, r, a);
            && (x.Ok? ==> |x.value.got| == One(r.flags.tlsOffset)) && (y.Ok? ==> |y.value.got| == 2 * One(r.flags.tlsModule))
            && (z.Ok? ==> |z.value.got| == 2 * One(r.flags.tlsDescriptor))
  {}

  lemma Ordered(cfg: Config, f: Flags, a: nat)
    ensures WordBytes(cfg.elfClass, 1) == WordSize(cfg.elfClass) > 0
    ensures f.tlsOffset ==> a + WordSize(cfg.elfClass) == AfterOffset(cfg, f, a)
    ensures f.tlsModule ==> AfterOffset(cfg, f, a) + WordSize(cfg.elfClass) + WordSize(cfg.elfClass) == AfterModule(cfg, f, a)
    ensures a <= AfterOffset(cfg, f, a) <= AfterModule(cfg, f, a)
  {}

  lemma OffsetWord(cfg: Config, r: Resolution, a: nat)
    requires EmitTls(cfg, r, a).Ok? && r.flags.tlsOffset
    ensures EmitTlsOffset(cfg, r, a).Ok? && Word(EmitTls(cfg, r, a).value, a, 0) == Word(EmitTlsOffset(cfg, r, a).value, a, 0)
  {
    hide EmitTlsOffset, EmitTlsModule, EmitTlsDescriptor, Word, Touches, OnlyAt, WordSize, WordBytes;
    var b, c := AfterOffset(cfg, r.flags, a), AfterModule(cfg, r.flags, a);
    var x, y, z := EmitTlsOffset(cfg, r, a), EmitTlsModule(cfg, r, b), EmitTlsDescriptor(cfg, r, c);
    Counts(cfg, r, a);
    Ordered(cfg, r.flags, a);
    ModulePlaces(cfg, r, b, a);
    DescriptorPlaces(cfg, r, c, a);
    OnlyTouches(z.value, c, a);
    WordPlus(x.value, y.value, a, 0);
    WordPlus(x.value.Plus(y.value), z.value, a, 0);
  }

  // Word k of the module's words, at p.
  lemma ModuleWord(cfg: Config, r: Resolution, a: nat, p: nat, k: nat)
    requires EmitTls(cfg, r, a).Ok? && r.flags.tlsModule && k < 2
    requires AfterOffset(cfg, r.flags, a) <= p < AfterModule(cfg, r.flags, a)
    ensures var y := EmitTlsModule(cfg, r, AfterOffset(cfg, r.flags, a));
            y.Ok? && Word(EmitTls(cfg, r, a).value, p, One(r.flags.tlsOffset) + k) == Word(y.value, p, k)
  {
    hide EmitTlsOffset, EmitTlsModule, EmitTlsDescriptor, Word, Touches, OnlyAt, WordSize, WordBytes;
    var b, c := AfterOffset(cfg, r.flags, a), AfterModule(cfg, r.flags, a);
    var x, y, z := EmitTlsOffset(cfg, r, a), EmitTlsModule(cfg, r, b), EmitTlsDescriptor(cfg, r, c);
    Counts(cfg, r, a);
    Counts(cfg, r, b);
    Ordered(cfg, r.flags, a);
    OffsetPlaces(cfg, r, a, p);
    OnlyTouches(x.value, a, p);
    DescriptorPlaces(cfg, r, c, p);
    OnlyTouches(z.value, c, p);
    WordPlus(x.value, y.value, p, k);
    WordPlus(x.value.Plus(y.value), z.value, p, One(r.flags.tlsOffset) + k);
  }

  lemma ModuleWords(cfg: Config, r: Resolution, b: nat)
    requires EmitTlsModule(cfg, r, b).Ok? && r.flags.tlsModule
    ensures var y, c := EmitTlsModule(cfg, r, b).value, b + WordSize(cfg.elfClass);
            var id, offset := EmitTlsModuleId(cfg, r, b), EmitTlsModuleOffset(cfg, r, c);
            offset.Ok? && Word(y, b, 0) == Word(id, b, 0) && Word(y, c, 1) == Word(offset.value, c, 0)
  {
    hide Word, Touches, WordSize;
    var c := b + WordSize(cfg.elfClass);
    var id, offset := EmitTlsModuleId(cfg, r, b), EmitTlsModuleOffset(cfg, r, c);
    Ordered(cfg, r.flags, b);
    assert |id.got| == 1 && |offset.value.got| == 1;
    assert OnlyAt(id, b) && OnlyAt(offset.value, c);
    OnlyTouches(id, b, c);
    OnlyTouches(offset.value, c, b);
    WordPlus(id, offset.value, b, 0);
    WordPlus(id, offset.value, c, 0);
  }

  lemma DescriptorWord(cfg: Config, r: Resolution, a: nat)
    requires EmitTls(cfg, r, a).Ok? && r.flags.tlsDescriptor
    ensures var f, c := r.flags, AfterModule(cfg, r.flags, a);
            EmitTlsDescriptor(cfg, r, c).Ok?
            && Word(EmitTls(cfg, r, a).value, c, One(f.tlsOffset) + 2 * One(f.tlsModule))
               == Word(EmitTlsDescriptor(cfg, r, c).value, c, 0)
  {
    hide EmitTlsOffset, EmitTlsModule, EmitTlsDescriptor, Word, Touches, OnlyAt, WordSize, WordBytes;
    var b, c := AfterOffset(cfg, r.flags, a), AfterModule(cfg, r.flags, a);
    var x, y, z := EmitTlsOffset(cfg, r, a), EmitTlsModule(cfg, r, b), EmitTlsDescriptor(cfg, r, c);
    Counts(cfg, r, a);
    Counts(cfg, r, b);
    Counts(cfg, r, c);
    Ordered(cfg, r.flags, a);
    OffsetPlaces(cfg, r, a, c);
    OnlyTouches(x.value, a, c);
    ModulePlaces(cfg, r, b, c);
    TouchesPlus(x.value, y.value, c);
    WordPlus(x.value.Plus(y.value), z.value, c, 0);
  }

  // ----- In the whole output -------------------------------------------------------------------

  // Word number j of symbol i.
  lemma OwnWordInAll(cfg: Config, base: Offsets, symbols: seq<Symbol>, i: nat, j: nat, p: nat)
    requires Even(base) && (forall s :: s in symbols ==> Ready(cfg, s)) && Apart(base, OffsetsAfter(cfg, base, symbols))
    requires i < |symbols| && symbols[i].flags.NeedsTlsGot() && j < TlsSlots(symbols[i].flags)
    requires var o := OffsetsAfter(cfg, base, symbols[..i]);
             o.got <= p < o.got + WordBytes(cfg.elfClass, TlsSlots(symbols[i].flags))
    ensures var all, before := EmitAll(cfg, cfg.isRelrEnabled, base, symbols), EmitAll(cfg, cfg.isRelrEnabled, base, symbols[..i]);
            var r := ResolutionOf(cfg, base, symbols, i);
            && all.Ok? && before.Ok? && r.gotAddress.Some? && SymbolOf(r) == symbols[i]
            && r.gotAddress == Some(base.got + WordBytes(cfg.elfClass, |before.value.got|))
            && r.gotAddress == Some(OffsetsAfter(cfg, base, symbols[..i]).got)
            && EmitTls(cfg, r, r.gotAddress.value).Ok?
            && j < |EmitTls(cfg, r, r.gotAddress.value).value.got|
            && Word(all.value, p, |before.value.got| + j) == Word(EmitTls(cfg, r, r.gotAddress.value).value, p, j)
  {
    hide EmitAll, OffsetsAfter, Ready, EmitPlain, EmitTls, Loaded, IsGotRelr, Even, WordBytes, WordSize, Precedes, WellFormed;
    assert symbols[i] in symbols;
    ReadyFlags(cfg, symbols);
    WordsAreAtTheirAddress(cfg, base, symbols, i);
    var r := ResolutionOf(cfg, base, symbols, i);
    TlsAddress(cfg, OffsetsAfter(cfg, base, symbols[..i]), symbols[i]);
    TlsCount(cfg, r, r.gotAddress.value);
    var own := EmitTls(cfg, r, r.gotAddress.value).value;
    TlsOwn(cfg, base, symbols, i, p);
    OnlyOwnCount(cfg, cfg.isRelrEnabled, base, symbols, i, p, own.got[j], false);
    var before := EmitAll(cfg, cfg.isRelrEnabled, base, symbols[..i]).value;
    PrecedesAt(before, own, EmitAll(cfg, cfg.isRelrEnabled, base, symbols).value, j);
  }

  lemma TlsCount(cfg: Config, r: Resolution, a: nat)
    ensures EmitTls(cfg, r, a).Ok? ==> |EmitTls(cfg, r, a).value.got| == TlsSlots(r.flags)
  {
    hide EmitTlsOffset, EmitTlsModule, EmitTlsDescriptor, WordBytes;
    Counts(cfg, r, a);
    Counts(cfg, r, AfterOffset(cfg, r.flags, a));
    Counts(cfg, r, AfterModule(cfg, r.flags, a));
  }

  lemma TlsOwn(cfg: Config, base: Offsets, symbols: seq<Symbol>, i: nat, p: nat)
    requires i < |symbols| && symbols[i].flags.NeedsTlsGot() && WellFormed(symbols[i].flags)
    requires var o := OffsetsAfter(cfg, base, symbols[..i]);
             o.got <= p < o.got + WordBytes(cfg.elfClass, TlsSlots(symbols[i].flags))
    ensures Own(OffsetsAfter(cfg, base, symbols[..i]), OffsetsAfter(cfg, base, symbols[..i + 1]), p)
  {
    hide IsGotRelr, WordBytes, TlsSlots;
    assert symbols[..i + 1][..i] == symbols[..i];
  }

  lemma PrecedesAt(t: Tables, u: Tables, all: Tables, j: nat)
    requires Precedes(t.Plus(u), all) && j < |u.got|
    ensures |t.got| + j < |all.got| && all.got[|t.got| + j] == u.got[j]
  {
    assert t.Plus(u).got[|t.got| + j] == u.got[j];
  }

  // A word that says how far a variable is from the thread pointer does so in the whole output.
  lemma OffsetLeadsInAll(cfg: Config, th: Thread, base: Offsets, symbols: seq<Symbol>, i: nat)
    requires Even(base) && (forall s :: s in symbols ==> Ready(cfg, s)) && Apart(base, OffsetsAfter(cfg, base, symbols))
    requires i < |symbols| && symbols[i].flags.tlsOffset && Suits(cfg, th, symbols[i])
    requires IsLookedUp(symbols[i].flags) || symbols[i].rawValue != 0
    ensures var all, before := EmitAll(cfg, cfg.isRelrEnabled, base, symbols), EmitAll(cfg, cfg.isRelrEnabled, base, symbols[..i]);
            var r := ResolutionOf(cfg, base, symbols, i);
            && all.Ok? && before.Ok? && r.gotAddress.Some?
            && var n := Left(cfg, th, all.value, r.gotAddress.value, |before.value.got|);
               n.Some? && Congruent(th.pointer + n.value, Variable(cfg, th, symbols[i]))
  {
    hide EmitAll, OffsetsAfter, Ready, EmitTls, EmitTlsOffset, Even, Word, Number, Variable, Suits, ResolutionOf, Apart, Congruent;
    OwnSlots(cfg, symbols[i].flags);
    OwnWordInAll(cfg, base, symbols, i, 0, OffsetsAfter(cfg, base, symbols[..i]).got);
    var r := ResolutionOf(cfg, base, symbols, i);
    OffsetWord(cfg, r, r.gotAddress.value);
    OffsetLeads(cfg, th, r, r.gotAddress.value);
  }

  lemma OwnSlots(cfg: Config, f: Flags)
    ensures f.NeedsTlsGot() ==> WordBytes(cfg.elfClass, TlsSlots(f)) > 0 && TlsSlots(f) > 0
    ensures f.tlsModule ==> TlsSlots(f) >= One(f.tlsOffset) + 2
                            && WordBytes(cfg.elfClass, TlsSlots(f))
                               >= WordBytes(cfg.elfClass, One(f.tlsOffset)) + 2 * WordSize(cfg.elfClass)
    ensures f.tlsDescriptor ==> TlsSlots(f) >= One(f.tlsOffset) + 2 * One(f.tlsModule) + 2
                                && WordBytes(cfg.elfClass, TlsSlots(f))
                                   > WordBytes(cfg.elfClass, One(f.tlsOffset)) + WordBytes(cfg.elfClass, 2 * One(f.tlsModule))
    ensures WordSize(cfg.elfClass) > 0
  {}

  // The words for a module and an offset lead __tls_get_addr to the variable in the whole output, except
  // that of a variable with a dynamic symbol that cannot be interposed the offset word is 0.
  lemma ModuleLeadsExactlyInAll(cfg: Config, th: Thread, base: Offsets, symbols: seq<Symbol>, i: nat)
    requires Even(base) && (forall s :: s in symbols ==> Ready(cfg, s)) && Apart(base, OffsetsAfter(cfg, base, symbols))
    requires i < |symbols| && symbols[i].flags.tlsModule && Suits(cfg, th, symbols[i])
    ensures var all, before := EmitAll(cfg, cfg.isRelrEnabled, base, symbols), EmitAll(cfg, cfg.isRelrEnabled, base, symbols[..i]);
            var r, s := ResolutionOf(cfg, base, symbols, i), symbols[i];
            && all.Ok? && before.Ok? && r.gotAddress.Some?
            && var k, p := |before.value.got| + One(s.flags.tlsOffset), AfterOffset(cfg, s.flags, r.gotAddress.value);
               LeadsTo(cfg, th, Left(cfg, th, all.value, p, k), Left(cfg, th, all.value, p + WordSize(cfg.elfClass), k + 1),
                       Variable(cfg, th, s))
               <==> s.dynamicIndex.None? || s.flags.isInterposable
                    || Congruent(th.offsetOf(s.dynamicIndex.value), cfg.dtvOffset)
  {
    hide EmitAll, OffsetsAfter, Ready, EmitTls, EmitTlsModule, EmitTlsModuleId, EmitTlsModuleOffset, Even, Word, Number, Variable,
         Suits, ResolutionOf, Apart, Congruent, LeadsTo, WordBytes, WordSize, TlsSlots;
    var f, o := symbols[i].flags, OffsetsAfter(cfg, base, symbols[..i]);
    var b := AfterOffset(cfg, f, o.got);
    OwnSlots(cfg, f);
    Ordered(cfg, f, o.got);
    OwnWordInAll(cfg, base, symbols, i, One(f.tlsOffset), b);
    OwnWordInAll(cfg, base, symbols, i, One(f.tlsOffset) + 1, b + WordSize(cfg.elfClass));
    var r := ResolutionOf(cfg, base, symbols, i);
    ModuleWord(cfg, r, o.got, b, 0);
    ModuleWord(cfg, r, o.got, b + WordSize(cfg.elfClass), 1);
    ModuleWords(cfg, r, b);
    ModuleLeads(cfg, th, r, b, b + WordSize(cfg.elfClass));
  }

  // The relocation of a descriptor is about the variable in the whole output.
  lemma DescriptorLeadsInAll(cfg: Config, th: Thread, base: Offsets, symbols: seq<Symbol>, i: nat)
    requires Even(base) && (forall s :: s in symbols ==> Ready(cfg, s)) && Apart(base, OffsetsAfter(cfg, base, symbols))
    requires i < |symbols| && symbols[i].flags.tlsDescriptor && Suits(cfg, th, symbols[i])
    ensures var all, before := EmitAll(cfg, cfg.isRelrEnabled, base, symbols), EmitAll(cfg, cfg.isRelrEnabled, base, symbols[..i]);
            var r, f := ResolutionOf(cfg, base, symbols, i), symbols[i].flags;
            && all.Ok? && before.Ok? && r.gotAddress.Some?
            && var m := Word(all.value, AfterModule(cfg, f, r.gotAddress.value),
                             |before.value.got| + One(f.tlsOffset) + 2 * One(f.tlsModule));
               IsAbout(th, m, Variable(cfg, th, symbols[i]))
  {
    hide EmitAll, OffsetsAfter, Ready, EmitTls, EmitTlsDescriptor, Even, Word, Variable, Suits, ResolutionOf, Apart, TlsSlots,
         IsAbout;
    var f, o := symbols[i].flags, OffsetsAfter(cfg, base, symbols[..i]);
    OwnSlots(cfg, f);
    OwnWordInAll(cfg, base, symbols, i, One(f.tlsOffset) + 2 * One(f.tlsModule), AfterModule(cfg, f, o.got));
    var r := ResolutionOf(cfg, base, symbols, i);
    DescriptorWord(cfg, r, o.got);
    DescriptorLeads(cfg, th, r, AfterModule(cfg, f, o.got));
  }

  // An exported variable that cannot be interposed, as a protected one, 8 bytes into the block of a shared
  // object: its two words lead elsewhere.
  function ProtectedVariable(): Symbol {
    var f := Flags(false, false, false, false, false, true, false, true, false, false, true, false);
    Symbol(f, 0x1008, Some(1))
  }

  lemma ProtectedVariableLost(cfg: Config, th: Thread, base: Offsets)
    requires cfg.kind.SharedObject? && cfg.dtvOffset == 0 && cfg.tlsStart == 0x1000 && Even(base)
    requires Suits(cfg, th, ProtectedVariable()) && Apart(base, OffsetsAfter(cfg, base, [ProtectedVariable()]))
    ensures var all := EmitAll(cfg, cfg.isRelrEnabled, base, [ProtectedVariable()]);
            && all.Ok?
            && !LeadsTo(cfg, th, Left(cfg, th, all.value, base.got, 0), Left(cfg, th, all.value, base.got + WordSize(cfg.elfClass), 1),
                        Variable(cfg, th, ProtectedVariable()))
  {
    hide EmitAll, OffsetsAfter, Even, Word, Left, Apart, LeadsTo, WordSize;
    var symbols := [ProtectedVariable()];
    ModuleLeadsExactlyInAll(cfg, th, base, symbols, 0);
    FirstSymbol(cfg, base, symbols);
  }

  lemma FirstSymbol(cfg: Config, base: Offsets, symbols: seq<Symbol>)
    requires |symbols| == 1 && symbols[0].flags.tlsModule && WellFormed(symbols[0].flags)
    ensures EmitAll(cfg, cfg.isRelrEnabled, base, symbols[..0]) == Ok(EMPTY) && |EMPTY.got| == 0
    ensures ResolutionOf(cfg, base, symbols, 0).gotAddress == Some(base.got)
    ensures !symbols[0].flags.tlsOffset ==> AfterOffset(cfg, symbols[0].flags, base.got) == base.got
  {
    assert symbols[..0] == [];
    assert OffsetsAfter(cfg, base, []) == base;
    TlsAddress(cfg, base, symbols[0]);
  }
}
