// The writer's side of GOT and PLT entries.
module GotPltWriter {
  import opened Words
  import opened GotPlt

  const CURRENT_EXE_TLS_MOD: nat := 1

  // ----- What one resolution puts in the tables ------------------------------------------------

  function Combine(a: Result<Tables>, b: Result<Tables>): Result<Tables> {
    if a.Err? then a else if b.Err? then b else Ok(a.value.Plus(b.value))
  }

  function Got(words: seq<int>): Tables {
    EMPTY.(got := words)
  }

  // The word for a place that holds an address, and the relocation that moves it with the output.
  function FlatWord(useRelr: bool, place: nat, address: int): int {
    if useRelr && place % 2 == 0 then address else 0
  }

  function FlatRelocation(useRelr: bool, place: nat, address: int): Tables {
    if useRelr && place % 2 == 0 then EMPTY.(relr := [place])
    else EMPTY.(relative := [Rela(place, 0, Relative, address)])
  }

  function IndexOr0(r: Resolution): nat {
    if r.dynamicIndex.Some? then r.dynamicIndex.value else 0
  }

  function WordTable(isRelr: bool, word: int): Tables {
    if isRelr then EMPTY.(gotRelr := [word]) else Got([word])
  }

  function EmitWord(cfg: Config, useRelr: bool, r: Resolution, address: nat): Result<Tables> {
    var f := r.flags;
    var isRelr := IsGotRelr(cfg, f);
    if f.isDynamic || (f.exportDynamic && f.isInterposable && !f.isIfunc) then
      if r.dynamicIndex.None? then Err("Missing dynamic_symbol_index")
      else Ok(WordTable(isRelr, 0).(general := [Rela(address, r.dynamicIndex.value, GotEntry, 0)]))
    else if f.isIfunc then
      Ok(WordTable(isRelr, 0).(relaPlt := [Rela(address, 0, Irelative, r.rawValue)]))
    else if !isRelr && f.HasLinkTimeAddress() && cfg.kind.IsPositionIndependent() then
      Ok(FlatRelocation(useRelr, address, r.rawValue).(got := [FlatWord(useRelr, address, r.rawValue)]))
    else
      Ok(WordTable(isRelr, r.rawValue))
  }

  function EmitPlt(r: Resolution, address: nat): Result<Tables> {
    Ok(if r.pltAddress.Some? then EMPTY.(plt := [PltEntry(address, r.pltAddress.value)]) else EMPTY)
  }

  // The second entry of an ifunc holds the address of its PLT entry.
  function EmitIfuncGot(cfg: Config, useRelr: bool, r: Resolution, address: nat): Result<Tables> {
    if !r.flags.ifuncGotForAddress then Ok(EMPTY)
    else if r.pltAddress.None? then Err("Missing PLT address")
    else if cfg.kind.IsPositionIndependent() then
      Ok(FlatRelocation(useRelr, address, r.pltAddress.value).(got := [FlatWord(useRelr, address, r.pltAddress.value)]))
    else
      Ok(Got([r.pltAddress.value]))
  }

  function EmitTlsOffset(cfg: Config, r: Resolution, address: nat): Result<Tables> {
    if !r.flags.tlsOffset then Ok(EMPTY)
    else if r.flags.HasDynamicSymbol() then
      if r.dynamicIndex.None? then Err("Missing dynamic_symbol_index")
      else Ok(Got([0]).(general := [Rela(address, r.dynamicIndex.value, TpOff, 0)]))
    else if r.rawValue == 0 then Ok(Got([0]))
    else if !(cfg.tlsStart <= r.rawValue <= cfg.tlsEnd) then Err("GotTlsOffset resolves to address not in TLS segment")
    else if cfg.kind.IsExecutable() then Ok(Got([(r.rawValue - cfg.tpOffsetStart) % TWO_64]))
    else Ok(Got([0]).(general := [Rela(address, 0, TpOff, r.rawValue - cfg.tlsStart)]))
  }

  function EmitTlsModuleId(cfg: Config, r: Resolution, address: nat): Tables {
    if cfg.kind.IsExecutable() && !r.flags.isDynamic then Got([CURRENT_EXE_TLS_MOD])
    else Got([0]).(general := [Rela(address, IndexOr0(r), DtpMod, 0)])
  }

  function EmitTlsModuleOffset(cfg: Config, r: Resolution, address: nat): Result<Tables> {
    if r.dynamicIndex.Some? then
      Ok(Got([0]).(general := if r.flags.isInterposable then [Rela(address, r.dynamicIndex.value, DtpOff, 0)] else []))
    else if !r.flags.HasLinkTimeAddress() then Err("Expected address")
    else Ok(Got([(r.rawValue - cfg.tlsStart - cfg.dtvOffset) % TWO_64]))
  }

  function EmitTlsModule(cfg: Config, r: Resolution, address: nat): Result<Tables> {
    if !r.flags.tlsModule then Ok(EMPTY)
    else Combine(Ok(EmitTlsModuleId(cfg, r, address)), EmitTlsModuleOffset(cfg, r, address + WordSize(cfg.elfClass)))
  }

  function EmitTlsDescriptor(cfg: Config, r: Resolution, address: nat): Result<Tables> {
    if !r.flags.tlsDescriptor then Ok(EMPTY)
    else if cfg.kind.StaticExecutable? then Err("Cannot create dynamic TLSDESC relocation for a static executable")
    else
      var addend := if r.dynamicIndex.None? then r.rawValue - cfg.tlsStart else 0;
      Ok(Got([0, 0]).(general := [Rela(address, IndexOr0(r), TlsDesc, addend)]))
  }

  function EmitTls(cfg: Config, r: Resolution, address: nat): Result<Tables> {
    var afterOffset := address + WordBytes(cfg.elfClass, One(r.flags.tlsOffset));
    var afterModule := afterOffset + WordBytes(cfg.elfClass, 2 * One(r.flags.tlsModule));
    Combine(Combine(EmitTlsOffset(cfg, r, address), EmitTlsModule(cfg, r, afterOffset)),
            EmitTlsDescriptor(cfg, r, afterModule))
  }

  function EmitPlain(cfg: Config, useRelr: bool, r: Resolution, address: nat): Result<Tables> {
    Combine(Combine(EmitWord(cfg, useRelr, r, address), EmitPlt(r, address)),
            EmitIfuncGot(cfg, useRelr, r, address + WordSize(cfg.elfClass)))
  }

  function Emit(cfg: Config, useRelr: bool, r: Resolution): Result<Tables> {
    if r.gotAddress.None? then Ok(EMPTY)
    else if r.flags.NeedsTlsGot() then EmitTls(cfg, r, r.gotAddress.value)
    else EmitPlain(cfg, useRelr, r, r.gotAddress.value)
  }

  // ----- The writer ----------------------------------------------------------------------------

  // A step either puts all of e in the tables, or fails because there is no room or nothing to put.
  ghost predicate Outcome(before: Tables, after: Tables, room: Sizes, e: Result<Tables>, r: Result<()>) {
    && (r.Ok? <==> e.Ok? && before.Plus(e.value).Size().Within(room))
    && (r.Ok? ==> after == before.Plus(e.value))
  }

  lemma Chain(t0: Tables, t1: Tables, t2: Tables, room: Sizes, a: Result<Tables>, b: Result<Tables>, r: Result<()>)
    requires Outcome(t0, t1, room, a, Ok(())) && Outcome(t1, t2, room, b, r)
    ensures Outcome(t0, t2, room, Combine(a, b), r)
  {
    if b.Ok? { assert t0.Plus(a.value).Plus(b.value) == t0.Plus(a.value.Plus(b.value)); }
  }

  lemma ChainFails(t0: Tables, t1: Tables, t2: Tables, room: Sizes, a: Result<Tables>, b: Result<Tables>, r: Result<()>)
    requires Outcome(t0, t1, room, a, r) && r.Err?
    ensures Outcome(t0, t2, room, Combine(a, b), r)
  {}

  class TableWriter {
    const cfg: Config
    const room: Sizes
    const useRelr: bool
    var out: Tables

    constructor (c: Config, r: Sizes)
      ensures cfg == c && room == r && useRelr == (c.isRelrEnabled && r.relr > 0) && out == EMPTY
    {
      cfg, room, useRelr, out := c, r, c.isRelrEnabled && r.relr > 0, EMPTY;
    }

    // The next word of .got, zero until it is set.
    method TakeNextGotEntry() returns (r: Result<nat>)
      modifies this
      ensures r.Ok? <==> |old(out).got| < room.got
      ensures r.Ok? ==> r.value == |old(out).got| && out == old(out).(got := old(out).got + [0])
    {
      if |out.got| >= room.got { return Err("insufficient .got"); }
      r := Ok(|out.got|);
      out := out.(got := out.got + [0]);
    }

    method TakeNextGotRelrEntry() returns (r: Result<nat>)
      modifies this
      ensures r.Ok? <==> |old(out).gotRelr| < room.gotRelr
      ensures r.Ok? ==> r.value == |old(out).gotRelr| && out == old(out).(gotRelr := old(out).gotRelr + [0])
    {
      if |out.gotRelr| >= room.gotRelr { return Err("insufficient .got (relr)"); }
      r := Ok(|out.gotRelr|);
      out := out.(gotRelr := out.gotRelr + [0]);
    }

    method WriteGeneral(rela: Rela) returns (r: Result<()>)
      modifies this
      ensures r.Ok? <==> |old(out).general| < room.general
      ensures r.Ok? ==> out == old(out).(general := old(out).general + [rela])
    {
      if |out.general| >= room.general { return Err("insufficient .rela.dyn (non-relative)"); }
      out := out.(general := out.general + [rela]);
      r := Ok(());
    }

    method WriteIfuncRelocation(rela: Rela) returns (r: Result<()>)
      modifies this
      ensures r.Ok? <==> |old(out).relaPlt| < room.relaPlt
      ensures r.Ok? ==> out == old(out).(relaPlt := old(out).relaPlt + [rela])
    {
      if |out.relaPlt| >= room.relaPlt { return Err("insufficient .rela.plt"); }
      out := out.(relaPlt := out.relaPlt + [rela]);
      r := Ok(());
    }

    method WriteRelrEntryFlat(place: nat, address: int) returns (r: Result<int>)
      modifies this
      ensures r.Ok? <==> if useRelr && place % 2 == 0 then |old(out).relr| < room.relr else |old(out).relative| < room.relative
      ensures r.Ok? ==> r.value == FlatWord(useRelr, place, address)
      ensures r.Ok? ==> out == old(out).(relr := old(out).relr + FlatRelocation(useRelr, place, address).relr,
                                         relative := old(out).relative + FlatRelocation(useRelr, place, address).relative)
    {
      if useRelr && place % 2 == 0 {
        if |out.relr| >= room.relr { return Err("insufficient .relr.dyn"); }
        out := out.(relr := out.relr + [place]);
        r := Ok(address);
      } else {
        if |out.relative| >= room.relative { return Err("insufficient .rela.dyn (relative)"); }
        out := out.(relative := out.relative + [Rela(place, 0, Relative, address)]);
        r := Ok(0);
      }
    }

    // The word at a place that holds an address: the word is taken first and set last.
    method WriteAddressWord(place: nat, address: int) returns (r: Result<()>)
      requires out.Size().Within(room)
      modifies this
      ensures var e := FlatRelocation(useRelr, place, address).(got := [FlatWord(useRelr, place, address)]);
              Outcome(old(out), out, room, Ok(e), r)
    {
      var k := TakeNextGotEntry();
      if k.Err? { return Err(k.message); }
      var value := WriteRelrEntryFlat(place, address);
      if value.Err? { return Err(value.message); }
      out := out.(got := out.got[k.value := value.value]);
      r := Ok(());
    }

    method WriteWord(res: Resolution, address: nat) returns (r: Result<()>)
      requires out.Size().Within(room)
      modifies this
      ensures Outcome(old(out), out, room, EmitWord(cfg, useRelr, res, address), r)
    {
      var f := res.flags;
      var isRelr := IsGotRelr(cfg, f);
      var isDynamic := f.isDynamic || (f.exportDynamic && f.isInterposable && !f.isIfunc);
      if !isDynamic && !f.isIfunc && !isRelr && f.HasLinkTimeAddress() && cfg.kind.IsPositionIndependent() {
        r := WriteAddressWord(address, res.rawValue);
        return;
      }
      var k;
      if isRelr { k := TakeNextGotRelrEntry(); } else { k := TakeNextGotEntry(); }
      if k.Err? { return Err(k.message); }
      if isDynamic {
        if res.dynamicIndex.None? { return Err("Missing dynamic_symbol_index"); }
        r := WriteGeneral(Rela(address, res.dynamicIndex.value, GotEntry, 0));
      } else if f.isIfunc {
        r := WriteIfuncRelocation(Rela(address, 0, Irelative, res.rawValue));
      } else {
        out := if isRelr then out.(gotRelr := out.gotRelr[k.value := res.rawValue])
               else out.(got := out.got[k.value := res.rawValue]);
        r := Ok(());
      }
    }

    method WritePlt(res: Resolution, address: nat) returns (r: Result<()>)
      requires out.Size().Within(room)
      modifies this
      ensures Outcome(old(out), out, room, EmitPlt(res, address), r)
    {
      if res.pltAddress.Some? {
        if |out.plt| >= room.plt { return Err("Didn't allocate enough space in .plt.got"); }
        out := out.(plt := out.plt + [PltEntry(address, res.pltAddress.value)]);
      }
      r := Ok(());
    }

    method WriteIfuncGot(res: Resolution, address: nat) returns (r: Result<()>)
      requires out.Size().Within(room)
      modifies this
      ensures Outcome(old(out), out, room, EmitIfuncGot(cfg, useRelr, res, address), r)
    {
      if !res.flags.ifuncGotForAddress { return Ok(()); }
      if res.pltAddress.None? { return Err("Missing PLT address"); }
      if cfg.kind.IsPositionIndependent() {
        r := WriteAddressWord(address, res.pltAddress.value);
      } else {
        var k := TakeNextGotEntry();
        if k.Err? { return Err(k.message); }
        out := out.(got := out.got[k.value := res.pltAddress.value]);
        r := Ok(());
      }
    }

    method ProcessGotTlsOffset(res: Resolution, address: nat) returns (r: Result<()>)
      requires out.Size().Within(room)
      modifies this
      ensures Outcome(old(out), out, room, EmitTlsOffset(cfg, res, address), r)
    {
      if !res.flags.tlsOffset { return Ok(()); }
      var k := TakeNextGotEntry();
      if k.Err? { return Err(k.message); }
      if res.flags.HasDynamicSymbol() {
        if res.dynamicIndex.None? { return Err("Missing dynamic_symbol_index"); }
        r := WriteGeneral(Rela(address, res.dynamicIndex.value, TpOff, 0));
        return;
      }
      if res.rawValue == 0 { return Ok(()); }
      if !(cfg.tlsStart <= res.rawValue <= cfg.tlsEnd) { return Err("GotTlsOffset resolves to address not in TLS segment"); }
      if cfg.kind.IsExecutable() {
        out := out.(got := out.got[k.value := (res.rawValue - cfg.tpOffsetStart) % TWO_64]);
        r := Ok(());
      } else {
        r := WriteGeneral(Rela(address, 0, TpOff, res.rawValue - cfg.tlsStart));
      }
    }

    method WriteTlsModuleId(res: Resolution, address: nat) returns (r: Result<()>)
      requires out.Size().Within(room)
      modifies this
      ensures Outcome(old(out), out, room, Ok(EmitTlsModuleId(cfg, res, address)), r)
    {
      var k := TakeNextGotEntry();
      if k.Err? { return Err(k.message); }
      if cfg.kind.IsExecutable() && !res.flags.isDynamic {
        out := out.(got := out.got[k.value := CURRENT_EXE_TLS_MOD]);
        r := Ok(());
      } else {
        r := WriteGeneral(Rela(address, IndexOr0(res), DtpMod, 0));
      }
    }

    method WriteTlsModuleOffset(res: Resolution, address: nat) returns (r: Result<()>)
      requires out.Size().Within(room)
      modifies this
      ensures Outcome(old(out), out, room, EmitTlsModuleOffset(cfg, res, address), r)
    {
      var k := TakeNextGotEntry();
      if k.Err? { return Err(k.message); }
      if res.dynamicIndex.Some? {
        r := Ok(());
        if res.flags.isInterposable { r := WriteGeneral(Rela(address, res.dynamicIndex.value, DtpOff, 0)); }
        return;
      }
      if !res.flags.HasLinkTimeAddress() { return Err("Expected address"); }
      out := out.(got := out.got[k.value := (res.rawValue - cfg.tlsStart - cfg.dtvOffset) % TWO_64]);
      r := Ok(());
    }

    method ProcessGotTlsModule(res: Resolution, address: nat) returns (r: Result<()>)
      requires out.Size().Within(room)
      modifies this
      ensures Outcome(old(out), out, room, EmitTlsModule(cfg, res, address), r)
    {
      hide EmitTlsModuleId, EmitTlsModuleOffset;
      if !res.flags.tlsModule { return Ok(()); }
      ghost var t0 := out;
      r := WriteTlsModuleId(res, address);
      if r.Err? { return; }
      ghost var t1 := out;
      r := WriteTlsModuleOffset(res, address + WordSize(cfg.elfClass));
      Chain(t0, t1, out, room, Ok(EmitTlsModuleId(cfg, res, address)),
            EmitTlsModuleOffset(cfg, res, address + WordSize(cfg.elfClass)), r);
    }

    method ProcessGotTlsDescriptor(res: Resolution, address: nat) returns (r: Result<()>)
      requires out.Size().Within(room)
      modifies this
      ensures Outcome(old(out), out, room, EmitTlsDescriptor(cfg, res, address), r)
    {
      if !res.flags.tlsDescriptor { return Ok(()); }
      var first := TakeNextGotEntry();
      if first.Err? { return Err(first.message); }
      var second := TakeNextGotEntry();
      if second.Err? { return Err(second.message); }
      if cfg.kind.StaticExecutable? { return Err("Cannot create dynamic TLSDESC relocation for a static executable"); }
      var addend := if res.dynamicIndex.None? then res.rawValue - cfg.tlsStart else 0;
      r := WriteGeneral(Rela(address, IndexOr0(res), TlsDesc, addend));
    }

    method ProcessTls(res: Resolution, address: nat) returns (r: Result<()>)
      requires out.Size().Within(room)
      modifies this
      ensures Outcome(old(out), out, room, EmitTls(cfg, res, address), r)
    {
      hide Combine, EmitTlsOffset, EmitTlsModule, EmitTlsDescriptor;
      var afterOffset := address + WordBytes(cfg.elfClass, One(res.flags.tlsOffset));
      var afterModule := afterOffset + WordBytes(cfg.elfClass, 2 * One(res.flags.tlsModule));
      ghost var a, b := EmitTlsOffset(cfg, res, address), EmitTlsModule(cfg, res, afterOffset);
      ghost var c, t0 := EmitTlsDescriptor(cfg, res, afterModule), out;
      r := ProcessGotTlsOffset(res, address);
      if r.Err? { ThreeFail(t0, out, room, a, b, c, r); return; }
      ghost var t1 := out;
      r := ProcessGotTlsModule(res, afterOffset);
      Chain(t0, t1, out, room, a, b, r);
      if r.Err? { ChainFails(t0, out, out, room, Combine(a, b), c, r); return; }
      ghost var t2 := out;
      r := ProcessGotTlsDescriptor(res, afterModule);
      Chain(t0, t2, out, room, Combine(a, b), c, r);
    }

    method ProcessPlain(res: Resolution, address: nat) returns (r: Result<()>)
      requires out.Size().Within(room)
      modifies this
      ensures Outcome(old(out), out, room, EmitPlain(cfg, useRelr, res, address), r)
    {
      hide Combine, EmitWord, EmitPlt, EmitIfuncGot;
      ghost var a, b := EmitWord(cfg, useRelr, res, address), EmitPlt(res, address);
      ghost var c, t0 := EmitIfuncGot(cfg, useRelr, res, address + WordSize(cfg.elfClass)), out;
      r := WriteWord(res, address);
      if r.Err? { ThreeFail(t0, out, room, a, b, c, r); return; }
      ghost var t1 := out;
      r := WritePlt(res, address);
      Chain(t0, t1, out, room, a, b, r);
      if r.Err? { ChainFails(t0, out, out, room, Combine(a, b), c, r); return; }
      ghost var t2 := out;
      r := WriteIfuncGot(res, address + WordSize(cfg.elfClass));
      Chain(t0, t2, out, room, Combine(a, b), c, r);
    }

    method ProcessResolution(res: Resolution) returns (r: Result<()>)
      requires out.Size().Within(room)
      modifies this
      ensures Outcome(old(out), out, room, Emit(cfg, useRelr, res), r)
    {
      hide EmitTls, EmitPlain;
      if res.gotAddress.None? { return Ok(()); }
      var address := res.gotAddress.value;
      if res.flags.tlsOffset || res.flags.tlsModule || res.flags.tlsDescriptor {
        r := ProcessTls(res, address);
      } else {
        r := ProcessPlain(res, address);
      }
    }

    // Whether the tables that are checked at the end are full.
    method ValidateEmpty() returns (r: Result<()>)
      requires out.Size().Within(room)
      ensures r.Ok? <==> out.Size().got == room.got && out.Size().gotRelr == room.gotRelr
                         && out.Size().relative == room.relative && out.Size().general == room.general
                         && (useRelr ==> out.Size().relr == room.relr)
    {
      if |out.got| < room.got { return Err("excessive .got"); }
      if |out.gotRelr| < room.gotRelr { return Err("excessive .got (relr)"); }
      if |out.relative| < room.relative { return Err("excessive .rela.dyn (relative)"); }
      if |out.general| < room.general { return Err("excessive .rela.dyn (general)"); }
      if useRelr && |out.relr| < room.relr { return Err("excessive .relr.dyn"); }
      r := Ok(());
    }
  }

  lemma ThreeFail(t0: Tables, t1: Tables, room: Sizes, a: Result<Tables>, b: Result<Tables>, c: Result<Tables>, r: Result<()>)
    requires Outcome(t0, t1, room, a, r) && r.Err?
    ensures Outcome(t0, t1, room, Combine(Combine(a, b), c), r)
  {
    hide Outcome, Combine;
    ChainFails(t0, t1, t1, room, a, b, r);
    ChainFails(t0, t1, t1, room, Combine(a, b), c, r);
  }
}
