// GOT and PLT entries: the layout counts them, hands out their addresses, and the writer fills them in.
module GotPlt {
  import opened Words

  datatype OutputKind = StaticExecutable(pic: bool) | DynamicExecutable(pic: bool) | SharedObject | PartialLink {
    predicate IsExecutable() { StaticExecutable? || DynamicExecutable? }
    predicate IsPositionIndependent() { SharedObject? || (IsExecutable() && pic) }
  }

  datatype Flags = Flags(isAbsolute: bool, isDynamic: bool, isIfunc: bool, isInterposable: bool,
                         isDowngradedToLocal: bool, needsGot: bool, needsPlt: bool, tlsModule: bool,
                         tlsOffset: bool, tlsDescriptor: bool, exportDynamic: bool, ifuncGotForAddress: bool) {
    predicate HasLinkTimeAddress() { !isIfunc && !isDynamic && !isAbsolute }
    predicate NeedsTlsGot() { tlsOffset || tlsModule || tlsDescriptor }
    predicate HasDynamicSymbol() { isDynamic || (exportDynamic && isInterposable) }
  }

  datatype Config = Config(elfClass: ElfClass, kind: OutputKind, isRelrEnabled: bool,
                           tlsStart: nat, tlsEnd: nat, tpOffsetStart: nat, dtvOffset: nat)

  predicate IsGotRelr(cfg: Config, f: Flags) {
    && cfg.isRelrEnabled && !f.isIfunc && !f.HasDynamicSymbol() && f.HasLinkTimeAddress()
    && !f.isDowngradedToLocal && cfg.kind.IsPositionIndependent()
  }

  // ----- Tables --------------------------------------------------------------------------------

  datatype RelaKind = GotEntry | Irelative | Relative | TpOff | DtpMod | DtpOff | TlsDesc

  datatype Rela = Rela(place: nat, symbol: nat, kind: RelaKind, addend: int)

  datatype PltEntry = PltEntry(gotAddress: nat, pltAddress: nat)

  // Entries in each of the seven tables.
  datatype Sizes = Sizes(got: nat, gotRelr: nat, plt: nat, relaPlt: nat, relative: nat, general: nat, relr: nat) {
    function Plus(s: Sizes): Sizes {
      Sizes(got + s.got, gotRelr + s.gotRelr, plt + s.plt, relaPlt + s.relaPlt, relative + s.relative,
            general + s.general, relr + s.relr)
    }

    predicate IsNothing() {
      got == 0 && gotRelr == 0 && plt == 0 && relaPlt == 0 && relative == 0 && general == 0 && relr == 0
    }

    predicate Within(s: Sizes) {
      got <= s.got && gotRelr <= s.gotRelr && plt <= s.plt && relaPlt <= s.relaPlt && relative <= s.relative
      && general <= s.general && relr <= s.relr
    }
  }

  datatype Tables = Tables(got: seq<int>, gotRelr: seq<int>, plt: seq<PltEntry>, relaPlt: seq<Rela>,
                           relative: seq<Rela>, general: seq<Rela>, relr: seq<nat>) {
    function Plus(t: Tables): Tables {
      Tables(got + t.got, gotRelr + t.gotRelr, plt + t.plt, relaPlt + t.relaPlt, relative + t.relative,
             general + t.general, relr + t.relr)
    }

    function Size(): Sizes {
      Sizes(|got|, |gotRelr|, |plt|, |relaPlt|, |relative|, |general|, |relr|)
    }
  }

  const EMPTY: Tables := Tables([], [], [], [], [], [], [])

  function One(b: bool): nat {
    if b then 1 else 0
  }

  // ----- The layout: how much ------------------------------------------------------------------

  function PlainNeeds(cfg: Config, f: Flags): Sizes {
    if !f.needsGot || f.NeedsTlsGot() then Sizes(0, 0, 0, 0, 0, 0, 0)
    else
      var isRelr := IsGotRelr(cfg, f);
      var isRelative := !f.isIfunc && !f.HasDynamicSymbol() && f.HasLinkTimeAddress() && cfg.kind.IsPositionIndependent();
      Sizes(One(!isRelr), One(isRelr), One(f.needsPlt), One(f.isIfunc),
            One(isRelative && !cfg.isRelrEnabled), One(!f.isIfunc && f.HasDynamicSymbol()),
            One(isRelative && cfg.isRelrEnabled && !isRelr))
  }

  function IfuncNeeds(cfg: Config, f: Flags): Sizes {
    var isRelative := f.ifuncGotForAddress && cfg.kind.IsPositionIndependent();
    Sizes(One(f.ifuncGotForAddress), 0, 0, 0, One(isRelative && !cfg.isRelrEnabled), 0, One(isRelative && cfg.isRelrEnabled))
  }

  function OffsetNeeds(cfg: Config, f: Flags): Sizes {
    Sizes(One(f.tlsOffset), 0, 0, 0, 0, One(f.tlsOffset && (f.isInterposable || cfg.kind.SharedObject?)), 0)
  }

  function ModuleNeeds(cfg: Config, f: Flags): Sizes {
    Sizes(2 * One(f.tlsModule), 0, 0, 0, 0,
          One(f.tlsModule && (!cfg.kind.IsExecutable() || f.isDynamic)) + One(f.tlsModule && f.HasDynamicSymbol()), 0)
  }

  function DescriptorNeeds(f: Flags): Sizes {
    Sizes(2 * One(f.tlsDescriptor), 0, 0, 0, 0, One(f.tlsDescriptor), 0)
  }

  function TlsNeeds(cfg: Config, f: Flags): Sizes {
    OffsetNeeds(cfg, f).Plus(ModuleNeeds(cfg, f)).Plus(DescriptorNeeds(f))
  }

  function TlsSlots(f: Flags): nat {
    One(f.tlsOffset) + 2 * One(f.tlsModule) + 2 * One(f.tlsDescriptor)
  }

  function Needs(cfg: Config, f: Flags): Sizes {
    PlainNeeds(cfg, f).Plus(IfuncNeeds(cfg, f)).Plus(TlsNeeds(cfg, f))
  }

  class MemSizes {
    var got: nat
    var gotRelr: nat
    var plt: nat
    var relaPlt: nat
    var relative: nat
    var general: nat
    var relr: nat

    function Size(): Sizes
      reads this
    {
      Sizes(got, gotRelr, plt, relaPlt, relative, general, relr)
    }

    constructor ()
      ensures Size().IsNothing()
    {
      got, gotRelr, plt, relaPlt, relative, general, relr := 0, 0, 0, 0, 0, 0, 0;
    }

    method AllocatePlain(cfg: Config, f: Flags)
      modifies this
      ensures Size() == old(Size()).Plus(PlainNeeds(cfg, f))
    {
      var hasDynamicSymbol := f.isDynamic || (f.exportDynamic && f.isInterposable);
      if f.needsGot && !f.NeedsTlsGot() {
        var isGotRelr := IsGotRelr(cfg, f);
        if isGotRelr { gotRelr := gotRelr + 1; } else { got := got + 1; }
        if f.needsPlt { plt := plt + 1; }
        if f.isIfunc {
          relaPlt := relaPlt + 1;
        } else if hasDynamicSymbol {
          general := general + 1;
        } else if f.HasLinkTimeAddress() && cfg.kind.IsPositionIndependent() {
          if cfg.isRelrEnabled && !isGotRelr {
            relr := relr + 1;
          } else if !cfg.isRelrEnabled {
            relative := relative + 1;
          }
        }
      }
    }

    method AllocateIfuncGot(cfg: Config, f: Flags)
      modifies this
      ensures Size() == old(Size()).Plus(IfuncNeeds(cfg, f))
    {
      if f.ifuncGotForAddress {
        got := got + 1;
        if cfg.kind.IsPositionIndependent() {
          if cfg.isRelrEnabled { relr := relr + 1; } else { relative := relative + 1; }
        }
      }
    }

    method AllocateTlsOffset(cfg: Config, f: Flags)
      modifies this
      ensures Size() == old(Size()).Plus(OffsetNeeds(cfg, f))
    {
      if f.tlsOffset {
        got := got + 1;
        if f.isInterposable || cfg.kind.SharedObject? { general := general + 1; }
      }
    }

    method AllocateTlsModule(cfg: Config, f: Flags)
      modifies this
      ensures Size() == old(Size()).Plus(ModuleNeeds(cfg, f))
    {
      if f.tlsModule {
        got := got + 2;
        if !cfg.kind.IsExecutable() || f.isDynamic { general := general + 1; }
        if f.HasDynamicSymbol() { general := general + 1; }
      }
    }

    method AllocateTls(cfg: Config, f: Flags)
      modifies this
      ensures Size() == old(Size()).Plus(TlsNeeds(cfg, f))
    {
      hide OffsetNeeds, ModuleNeeds;
      AllocateTlsOffset(cfg, f);
      AllocateTlsModule(cfg, f);
      if f.tlsDescriptor {
        got := got + 2;
        general := general + 1;
      }
    }

    method AllocateResolution(cfg: Config, f: Flags)
      modifies this
      ensures Size() == old(Size()).Plus(Needs(cfg, f))
    {
      hide PlainNeeds, IfuncNeeds, TlsNeeds;
      AllocatePlain(cfg, f);
      AllocateIfuncGot(cfg, f);
      AllocateTls(cfg, f);
    }
  }

  // ----- The layout: where ---------------------------------------------------------------------

  const PLT_ENTRY_SIZE: nat := 16

  // A symbol as the layout has resolved it.
  datatype Symbol = Symbol(flags: Flags, rawValue: nat, dynamicIndex: Option<nat>)

  datatype Resolution = Resolution(flags: Flags, rawValue: nat, dynamicIndex: Option<nat>,
                                   gotAddress: Option<nat>, pltAddress: Option<nat>)

  datatype Offsets = Offsets(got: nat, gotRelr: nat, plt: nat)

  // How far a resolution moves each offset.
  function Moves(cfg: Config, f: Flags): Offsets {
    if f.needsPlt then
      if f.ifuncGotForAddress then Offsets(2, 0, 1)
      else if IsGotRelr(cfg, f) then Offsets(0, 1, 1)
      else Offsets(1, 0, 1)
    else if f.NeedsTlsGot() then Offsets(TlsSlots(f), 0, 0)
    else if f.needsGot then
      if IsGotRelr(cfg, f) then Offsets(0, 1, 0) else Offsets(1, 0, 0)
    else Offsets(0, 0, 0)
  }

  function Advance(cfg: Config, o: Offsets, f: Flags): Offsets {
    var m := Moves(cfg, f);
    Offsets(o.got + WordBytes(cfg.elfClass, m.got), o.gotRelr + WordBytes(cfg.elfClass, m.gotRelr),
            o.plt + PLT_ENTRY_SIZE * m.plt)
  }

  function GotAddress(cfg: Config, o: Offsets, f: Flags): Option<nat> {
    var m := Moves(cfg, f);
    if m.gotRelr > 0 then Some(o.gotRelr) else if m.got > 0 then Some(o.got) else None
  }

  function Resolve(cfg: Config, o: Offsets, s: Symbol): Resolution {
    Resolution(s.flags, if s.flags.needsPlt && s.flags.isDynamic then o.plt else s.rawValue, s.dynamicIndex,
               GotAddress(cfg, o, s.flags), if s.flags.needsPlt then Some(o.plt) else None)
  }

  class MemoryOffsets {
    var got: nat
    var gotRelr: nat
    var plt: nat

    function Value(): Offsets
      reads this
    {
      Offsets(got, gotRelr, plt)
    }

    constructor (o: Offsets)
      ensures Value() == o
    {
      got, gotRelr, plt := o.got, o.gotRelr, o.plt;
    }

    method AllocateGot(cfg: Config, entries: nat) returns (address: nat)
      modifies this`got
      ensures address == old(got) && got == old(got) + WordBytes(cfg.elfClass, entries)
    {
      address := got;
      got := got + WordBytes(cfg.elfClass, entries);
    }

    method AllocateGotRelr(cfg: Config) returns (address: nat)
      modifies this`gotRelr
      ensures address == old(gotRelr) && gotRelr == old(gotRelr) + WordBytes(cfg.elfClass, 1)
    {
      address := gotRelr;
      gotRelr := gotRelr + WordBytes(cfg.elfClass, 1);
    }

    method CreateResolution(cfg: Config, s: Symbol) returns (r: Resolution)
      modifies this
      ensures r == Resolve(cfg, old(Value()), s)
      ensures Value() == Advance(cfg, old(Value()), s.flags)
    {
      hide IsGotRelr;
      var f := s.flags;
      r := Resolution(f, s.rawValue, s.dynamicIndex, None, None);
      if f.needsPlt {
        var pltAddress := plt;
        plt := plt + PLT_ENTRY_SIZE;
        r := r.(pltAddress := Some(pltAddress));
        if f.isDynamic { r := r.(rawValue := pltAddress); }
        var numGotEntries := if f.ifuncGotForAddress then 2 else 1;
        var address;
        if IsGotRelr(cfg, f) && numGotEntries == 1 {
          address := AllocateGotRelr(cfg);
        } else {
          address := AllocateGot(cfg, numGotEntries);
        }
        r := r.(gotAddress := Some(address));
      } else if f.NeedsTlsGot() {
        var numGotSlots := 0;
        if f.tlsOffset { numGotSlots := numGotSlots + 1; }
        if f.tlsModule { numGotSlots := numGotSlots + 2; }
        if f.tlsDescriptor { numGotSlots := numGotSlots + 2; }
        var address := AllocateGot(cfg, numGotSlots);
        r := r.(gotAddress := Some(address));
      } else if f.needsGot {
        var address;
        if IsGotRelr(cfg, f) { address := AllocateGotRelr(cfg); } else { address := AllocateGot(cfg, 1); }
        r := r.(gotAddress := Some(address));
      }
    }
  }
}
