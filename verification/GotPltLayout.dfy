// All symbols of a group: the layout's two passes and the writer's one agree.
module GotPltLayout {
  import opened Words
  import opened GotPlt
  import opened GotPltWriter
  import opened GotPltAgreement

  // Consistent flags, and the writer has what it demands of the symbol.
  predicate Ready(cfg: Config, s: Symbol) {
    && WellFormed(s.flags)
    && if s.flags.NeedsTlsGot() then TlsReady(cfg, s) else s.flags.HasDynamicSymbol() ==> s.dynamicIndex.Some?
  }

  // Relocations that are reserved for a symbol and not taken; fewer than none when too few are reserved.
  function Excess(cfg: Config, s: Symbol): int {
    if s.flags.NeedsTlsGot() then OffsetExcess(cfg, s) + ModuleExcess(s) else 0
  }

  lemma OneAgrees(cfg: Config, o: Offsets, s: Symbol)
    requires Ready(cfg, s) && Even(o)
    ensures var e := Emit(cfg, cfg.isRelrEnabled, Resolve(cfg, o, s));
            e.Ok? && LessExcess(e.value.Size(), Needs(cfg, s.flags), Excess(cfg, s))
  {
    hide Emit, Resolve, Needs, TlsReady, OffsetExcess, ModuleExcess, LessExcess;
    if s.flags.NeedsTlsGot() {
      TlsAgreesExactly(cfg, o, s);
    } else {
      PlainAgreesExactly(cfg, o, s);
      NoExcess(Needs(cfg, s.flags));
    }
  }

  lemma NoExcess(a: Sizes)
    ensures LessExcess(a, a, 0)
  {}

  // The two passes of the layout agree with each other.
  lemma NeedsAreMoves(cfg: Config, f: Flags)
    requires WellFormed(f)
    ensures Needs(cfg, f).got == Moves(cfg, f).got && Needs(cfg, f).gotRelr == Moves(cfg, f).gotRelr
            && Needs(cfg, f).plt == Moves(cfg, f).plt
  {
    hide IsGotRelr, TlsNeeds, PlainNeeds, IfuncNeeds;
    if f.NeedsTlsGot() {
      PlainNeedsNothing(cfg, f);
      TlsGot(cfg, f);
    } else {
      TlsNeedsNothing(cfg, f);
      PlainGot(cfg, f);
    }
  }

  lemma TlsGot(cfg: Config, f: Flags)
    ensures TlsNeeds(cfg, f).got == TlsSlots(f) && TlsNeeds(cfg, f).gotRelr == 0 && TlsNeeds(cfg, f).plt == 0
  {
    hide One;
  }

  lemma PlainGot(cfg: Config, f: Flags)
    requires WellFormed(f) && !f.NeedsTlsGot()
    ensures var n := PlainNeeds(cfg, f).Plus(IfuncNeeds(cfg, f));
            n.got == Moves(cfg, f).got && n.gotRelr == Moves(cfg, f).gotRelr && n.plt == Moves(cfg, f).plt
  {
    hide PlainNeeds, IfuncNeeds, Moves, One, IsGotRelr, WellFormed;
    PlainWords(cfg, f);
    IfuncWords(cfg, f);
    PlainMoves(cfg, f);
  }

  lemma PlainWords(cfg: Config, f: Flags)
    requires !f.NeedsTlsGot()
    ensures var n := PlainNeeds(cfg, f);
            n.got == One(f.needsGot && !IsGotRelr(cfg, f)) && n.gotRelr == One(f.needsGot && IsGotRelr(cfg, f))
            && n.plt == One(f.needsGot && f.needsPlt)
  {
    hide IsGotRelr;
  }

  lemma IfuncWords(cfg: Config, f: Flags)
    ensures var n := IfuncNeeds(cfg, f);
            n.got == One(f.ifuncGotForAddress) && n.gotRelr == 0 && n.plt == 0
  {}

  lemma PlainMoves(cfg: Config, f: Flags)
    requires WellFormed(f) && !f.NeedsTlsGot()
    ensures var m := Moves(cfg, f);
            m.got == One(f.needsGot && !IsGotRelr(cfg, f)) + One(f.ifuncGotForAddress)
            && m.gotRelr == One(f.needsGot && IsGotRelr(cfg, f)) && m.plt == One(f.needsGot && f.needsPlt)
  {}

  // ----- Folding over the symbols --------------------------------------------------------------

  function TotalNeeds(cfg: Config, symbols: seq<Symbol>): Sizes {
    if symbols == [] then Sizes(0, 0, 0, 0, 0, 0, 0)
    else TotalNeeds(cfg, symbols[..|symbols| - 1]).Plus(Needs(cfg, symbols[|symbols| - 1].flags))
  }

  function OffsetsAfter(cfg: Config, base: Offsets, symbols: seq<Symbol>): Offsets {
    if symbols == [] then base
    else Advance(cfg, OffsetsAfter(cfg, base, symbols[..|symbols| - 1]), symbols[|symbols| - 1].flags)
  }

  function ResolutionOf(cfg: Config, base: Offsets, symbols: seq<Symbol>, i: nat): Resolution
    requires i < |symbols|
  {
    Resolve(cfg, OffsetsAfter(cfg, base, symbols[..i]), symbols[i])
  }

  function EmitAll(cfg: Config, useRelr: bool, base: Offsets, symbols: seq<Symbol>): Result<Tables> {
    if symbols == [] then Ok(EMPTY)
    else
      var n := |symbols| - 1;
      Combine(EmitAll(cfg, useRelr, base, symbols[..n]), Emit(cfg, useRelr, ResolutionOf(cfg, base, symbols, n)))
  }

  // Where the offsets are once so much has been taken.
  function OffsetsFor(cfg: Config, base: Offsets, s: Sizes): Offsets {
    Offsets(base.got + WordBytes(cfg.elfClass, s.got), base.gotRelr + WordBytes(cfg.elfClass, s.gotRelr),
            base.plt + PLT_ENTRY_SIZE * s.plt)
  }

  lemma AdvanceIsTaking(cfg: Config, base: Offsets, s: Sizes, f: Flags)
    requires WellFormed(f)
    ensures Advance(cfg, OffsetsFor(cfg, base, s), f) == OffsetsFor(cfg, base, s.Plus(Needs(cfg, f)))
  {
    hide Needs, Moves;
    NeedsAreMoves(cfg, f);
  }

  lemma EvenOffsets(cfg: Config, base: Offsets, s: Sizes)
    requires Even(base)
    ensures Even(OffsetsFor(cfg, base, s))
  {
    EvenBytes(cfg.elfClass, s.got);
    EvenBytes(cfg.elfClass, s.gotRelr);
    EvenPlus(base.got, WordBytes(cfg.elfClass, s.got));
    EvenPlus(base.gotRelr, WordBytes(cfg.elfClass, s.gotRelr));
  }

  lemma EvenBytes(c: ElfClass, n: nat)
    ensures WordBytes(c, n) % 2 == 0
  {
    TwiceIsEven(if c == Class32 then 2 * n else 4 * n);
  }

  function TotalExcess(cfg: Config, symbols: seq<Symbol>): int {
    if symbols == [] then 0
    else TotalExcess(cfg, symbols[..|symbols| - 1]) + Excess(cfg, symbols[|symbols| - 1])
  }

  // Whatever the symbols, if each is ready, the writer takes in all exactly what was reserved but for the
  // relocations that the excesses add up to, and the offsets move with the tables.
  lemma {:induction false} AllAgree(cfg: Config, base: Offsets, symbols: seq<Symbol>)
    requires Even(base) && forall s :: s in symbols ==> Ready(cfg, s)
    ensures var e := EmitAll(cfg, cfg.isRelrEnabled, base, symbols);
            && e.Ok? && LessExcess(e.value.Size(), TotalNeeds(cfg, symbols), TotalExcess(cfg, symbols))
            && OffsetsAfter(cfg, base, symbols) == OffsetsFor(cfg, base, e.value.Size())
  {
    hide Ready, Emit, Needs, Advance, Resolve, Combine, Even, Excess, LessExcess;
    if symbols == [] {
      EmptyOffsets(cfg, base);
      NoExcess(EMPTY.Size());
    } else {
      hide OffsetsFor;
      var n := |symbols| - 1;
      var front, s := symbols[..n], symbols[n];
      AllAgree(cfg, base, front);
      var e := EmitAll(cfg, cfg.isRelrEnabled, base, front);
      var one := Emit(cfg, cfg.isRelrEnabled, ResolutionOf(cfg, base, symbols, n));
      assert s in symbols;
      EvenOffsets(cfg, base, e.value.Size());
      OneAgrees(cfg, OffsetsAfter(cfg, base, front), s);
      CombineSizes(e, one);
      LessExcessSum(e.value.Size(), TotalNeeds(cfg, front), one.value.Size(), Needs(cfg, s.flags),
                    TotalExcess(cfg, front), Excess(cfg, s));
      ReadyIsWellFormed(cfg, s);
      AdvanceIsTaking(cfg, base, e.value.Size(), s.flags);
      SameOffsets(cfg, base, e.value.Size().Plus(one.value.Size()), e.value.Size().Plus(Needs(cfg, s.flags)),
                  e.value.Size(), one.value.Size(), Needs(cfg, s.flags), Excess(cfg, s));
    }
  }

  // Relocations move no offset.
  lemma SameOffsets(cfg: Config, base: Offsets, a: Sizes, b: Sizes, before: Sizes, taken: Sizes, needs: Sizes, excess: int)
    requires LessExcess(taken, needs, excess) && a == before.Plus(taken) && b == before.Plus(needs)
    ensures OffsetsFor(cfg, base, a) == OffsetsFor(cfg, base, b)
  {
    hide WordBytes;
    assert a.got == b.got && a.gotRelr == b.gotRelr && a.plt == b.plt;
  }

  // So the tables come out even exactly when the excesses of all symbols cancel out, and there is room
  // exactly when they do not add up to less than nothing.
  lemma AllAgreeExactly(cfg: Config, base: Offsets, symbols: seq<Symbol>)
    requires Even(base) && forall s :: s in symbols ==> Ready(cfg, s)
    ensures var e, excess := EmitAll(cfg, cfg.isRelrEnabled, base, symbols), TotalExcess(cfg, symbols);
            && e.Ok?
            && (e.value.Size() == TotalNeeds(cfg, symbols) <==> excess == 0)
            && (e.value.Size().Within(TotalNeeds(cfg, symbols)) <==> excess >= 0)
  {
    hide Ready, Emit, Needs, Resolve, Even, TotalNeeds, TotalExcess, EmitAll, LessExcess, OffsetsAfter, OffsetsFor;
    AllAgree(cfg, base, symbols);
    ByExcess(EmitAll(cfg, cfg.isRelrEnabled, base, symbols).value.Size(), TotalNeeds(cfg, symbols), TotalExcess(cfg, symbols));
  }

  lemma ByExcess(taken: Sizes, needs: Sizes, excess: int)
    requires LessExcess(taken, needs, excess)
    ensures (taken == needs <==> excess == 0) && (taken.Within(needs) <==> excess >= 0)
  {
    var t, n := taken.(general := 0), needs.(general := 0);
    assert t.got == n.got && t.gotRelr == n.gotRelr && t.plt == n.plt && t.relaPlt == n.relaPlt && t.relative == n.relative
           && t.relr == n.relr;
  }

  lemma ReadyIsWellFormed(cfg: Config, s: Symbol)
    requires Ready(cfg, s)
    ensures WellFormed(s.flags)
  {}

  lemma EmptyOffsets(cfg: Config, base: Offsets)
    ensures OffsetsFor(cfg, base, EMPTY.Size()) == base && EMPTY.Size() == Sizes(0, 0, 0, 0, 0, 0, 0)
  {}

  // ----- Each word is at the address that was handed out ---------------------------------------

  predicate Precedes(t: Tables, u: Tables) {
    t.got <= u.got && t.gotRelr <= u.gotRelr && t.plt <= u.plt && t.relaPlt <= u.relaPlt && t.relative <= u.relative
    && t.general <= u.general && t.relr <= u.relr
  }

  lemma {:induction false} EmittedPrecedes(cfg: Config, useRelr: bool, base: Offsets, symbols: seq<Symbol>, n: nat)
    requires n <= |symbols| && EmitAll(cfg, useRelr, base, symbols).Ok?
    ensures var part := EmitAll(cfg, useRelr, base, symbols[..n]);
            part.Ok? && Precedes(part.value, EmitAll(cfg, useRelr, base, symbols).value)
    decreases |symbols|
  {
    hide Emit, Resolve;
    if n < |symbols| {
      var m := |symbols| - 1;
      assert symbols[..m][..n] == symbols[..n];
      EmittedPrecedes(cfg, useRelr, base, symbols[..m], n);
    } else {
      assert symbols[..n] == symbols;
    }
  }

  // The words that symbol i fills in are those at the address in its resolution, and so is its PLT
  // entry.
  lemma WordsAreAtTheirAddress(cfg: Config, base: Offsets, symbols: seq<Symbol>, i: nat)
    requires Even(base) && i < |symbols| && forall s :: s in symbols ==> Ready(cfg, s)
    ensures var all := EmitAll(cfg, cfg.isRelrEnabled, base, symbols);
            var r, before := ResolutionOf(cfg, base, symbols, i), EmitAll(cfg, cfg.isRelrEnabled, base, symbols[..i]);
            var own := Emit(cfg, cfg.isRelrEnabled, r);
            && all.Ok? && before.Ok? && own.Ok?
            && Precedes(before.value.Plus(own.value), all.value)
            && (|own.value.gotRelr| > 0 ==> r.gotAddress == Some(base.gotRelr + WordBytes(cfg.elfClass, |before.value.gotRelr|)))
            && (|own.value.got| > 0 ==> r.gotAddress == Some(base.got + WordBytes(cfg.elfClass, |before.value.got|)))
            && (|own.value.plt| > 0 ==> r.pltAddress == Some(base.plt + PLT_ENTRY_SIZE * |before.value.plt|))
  {
    hide Ready, Emit, Needs, EmitAll, Even, Resolve, Moves, Precedes, TotalNeeds, OffsetsAfter, WordBytes, WellFormed;
    var s, front := symbols[i], symbols[..i];
    AllAgree(cfg, base, symbols);
    AllAgree(cfg, base, front);
    var before := EmitAll(cfg, cfg.isRelrEnabled, base, front);
    EmittedPrecedes(cfg, cfg.isRelrEnabled, base, symbols, i + 1);
    EmitOneMore(cfg, cfg.isRelrEnabled, base, symbols, i);
    EvenOffsets(cfg, base, before.value.Size());
    OneAgrees(cfg, OffsetsAfter(cfg, base, front), s);
    ReadyIsWellFormed(cfg, s);
    NeedsAreMoves(cfg, s.flags);
    MovesFromAddress(cfg, OffsetsAfter(cfg, base, front), s);
  }

  lemma EmitOneMore(cfg: Config, useRelr: bool, base: Offsets, symbols: seq<Symbol>, i: nat)
    requires i < |symbols|
    ensures EmitAll(cfg, useRelr, base, symbols[..i + 1])
            == Combine(EmitAll(cfg, useRelr, base, symbols[..i]), Emit(cfg, useRelr, ResolutionOf(cfg, base, symbols, i)))
  {
    hide Emit, Resolve, Combine;
    assert symbols[..i + 1][..i] == symbols[..i];
  }

  lemma MovesFromAddress(cfg: Config, o: Offsets, s: Symbol)
    requires WellFormed(s.flags)
    ensures var m, r := Moves(cfg, s.flags), Resolve(cfg, o, s);
            && (m.gotRelr > 0 ==> r.gotAddress == Some(o.gotRelr)) && (m.got > 0 ==> r.gotAddress == Some(o.got))
            && (m.plt > 0 ==> r.pltAddress == Some(o.plt))
  {
    hide IsGotRelr;
  }

  // ----- Without RELR entries ------------------------------------------------------------------

  // The writer only knows that RELR is on when some RELR entry was reserved. When none was, it makes no
  // difference.
  lemma RelrUnused(cfg: Config, o: Offsets, s: Symbol)
    requires Ready(cfg, s) && Even(o) && cfg.isRelrEnabled && Needs(cfg, s.flags).relr == 0
    ensures Emit(cfg, false, Resolve(cfg, o, s)) == Emit(cfg, true, Resolve(cfg, o, s))
  {
    hide Resolve, EmitTls, Needs, GotAddress, Ready, Even;
    var r := Resolve(cfg, o, s);
    OneAgrees(cfg, o, s);
    var e := Emit(cfg, true, r);
    assert |e.value.relr| == 0;
    if r.gotAddress.Some? && !r.flags.NeedsTlsGot() {
      var a := r.gotAddress.value;
      ReadyIsWellFormed(cfg, s);
      EvenAddress(cfg, o, s);
      EvenWord(cfg.elfClass, a);
      WordWithoutRelr(cfg, r, a);
      IfuncWithoutRelr(cfg, r, a + WordSize(cfg.elfClass));
    }
  }

  lemma EvenAddress(cfg: Config, o: Offsets, s: Symbol)
    requires Even(o)
    ensures var a := Resolve(cfg, o, s).gotAddress; a.Some? ==> a.value % 2 == 0
  {
    hide IsGotRelr;
  }

  lemma WordWithoutRelr(cfg: Config, r: Resolution, a: nat)
    requires a % 2 == 0
    ensures var e := EmitWord(cfg, true, r, a);
            e.Ok? && |e.value.relr| == 0 ==> e == EmitWord(cfg, false, r, a)
  {}

  lemma IfuncWithoutRelr(cfg: Config, r: Resolution, a: nat)
    requires a % 2 == 0
    ensures var e := EmitIfuncGot(cfg, true, r, a);
            e.Ok? && |e.value.relr| == 0 ==> e == EmitIfuncGot(cfg, false, r, a)
  {}

  lemma {:induction false} NoRelrAtAll(cfg: Config, base: Offsets, symbols: seq<Symbol>)
    requires Even(base) && cfg.isRelrEnabled && TotalNeeds(cfg, symbols).relr == 0
    requires forall s :: s in symbols ==> Ready(cfg, s)
    ensures EmitAll(cfg, false, base, symbols) == EmitAll(cfg, true, base, symbols)
  {
    hide Ready, Emit, Needs, Advance, Resolve, Combine, Even, OffsetsFor;
    if symbols != [] {
      var n := |symbols| - 1;
      NoRelrAtAll(cfg, base, symbols[..n]);
      AllAgree(cfg, base, symbols[..n]);
      EvenOffsets(cfg, base, EmitAll(cfg, true, base, symbols[..n]).value.Size());
      assert symbols[n] in symbols;
      RelrUnused(cfg, OffsetsAfter(cfg, base, symbols[..n]), symbols[n]);
    }
  }

  // ----- Layout, then writing ------------------------------------------------------------------

  method CountAll(cfg: Config, symbols: seq<Symbol>) returns (room: Sizes)
    ensures room == TotalNeeds(cfg, symbols)
  {
    hide Needs;
    var sizes := new MemSizes();
    assert symbols[..0] == [];
    for i := 0 to |symbols|
      invariant sizes.Size() == TotalNeeds(cfg, symbols[..i])
    {
      assert symbols[..i + 1][..i] == symbols[..i];
      sizes.AllocateResolution(cfg, symbols[i].flags);
    }
    assert symbols[..|symbols|] == symbols;
    room := sizes.Size();
  }

  method ResolveAll(cfg: Config, base: Offsets, symbols: seq<Symbol>) returns (resolutions: seq<Resolution>)
    ensures |resolutions| == |symbols|
    ensures forall i :: 0 <= i < |symbols| ==> resolutions[i] == ResolutionOf(cfg, base, symbols, i)
  {
    hide Advance, Resolve;
    var offsets := new MemoryOffsets(base);
    resolutions := [];
    assert symbols[..0] == [];
    for i := 0 to |symbols|
      invariant |resolutions| == i && offsets.Value() == OffsetsAfter(cfg, base, symbols[..i])
      invariant forall k :: 0 <= k < i ==> resolutions[k] == ResolutionOf(cfg, base, symbols, k)
    {
      assert symbols[..i + 1][..i] == symbols[..i];
      var resolution := offsets.CreateResolution(cfg, symbols[i]);
      resolutions := resolutions + [resolution];
    }
  }

  lemma NothingEmitted(cfg: Config, useRelr: bool, base: Offsets)
    ensures EmitAll(cfg, useRelr, base, []) == Ok(EMPTY) && forall room: Sizes :: EMPTY.Size().Within(room)
  {}

  lemma PrecedesWithin(t: Tables, u: Tables, room: Sizes)
    requires Precedes(t, u) && u.Size().Within(room)
    ensures t.Size().Within(room)
  {}

  // Symbols that have something to put in the tables. No take fails exactly when all of it has room.
  method WriteAll(cfg: Config, base: Offsets, symbols: seq<Symbol>, resolutions: seq<Resolution>, room: Sizes)
    returns (tables: Tables, written: Result<()>, checked: Result<()>)
    requires |resolutions| == |symbols|
    requires forall i :: 0 <= i < |symbols| ==> resolutions[i] == ResolutionOf(cfg, base, symbols, i)
    requires EmitAll(cfg, cfg.isRelrEnabled && room.relr > 0, base, symbols).Ok?
    ensures var all := EmitAll(cfg, cfg.isRelrEnabled && room.relr > 0, base, symbols);
            && (written.Ok? <==> all.value.Size().Within(room))
            && (written.Ok? ==> all == Ok(tables))
    ensures checked.Ok? <==> written.Ok? && Full(tables.Size(), room, cfg.isRelrEnabled && room.relr > 0)
  {
    hide Emit, Resolve, EmitAll, Precedes;
    var writer := new TableWriter(cfg, room);
    ghost var all := EmitAll(cfg, writer.useRelr, base, symbols).value;
    assert symbols[..0] == [] && symbols[..|symbols|] == symbols;
    NothingEmitted(cfg, writer.useRelr, base);
    tables := EMPTY;
    for i := 0 to |symbols|
      invariant Ok(writer.out) == EmitAll(cfg, writer.useRelr, base, symbols[..i]) && writer.out.Size().Within(room)
    {
      EmittedPrecedes(cfg, writer.useRelr, base, symbols, i + 1);
      EmitOneMore(cfg, writer.useRelr, base, symbols, i);
      ghost var part := EmitAll(cfg, writer.useRelr, base, symbols[..i + 1]).value;
      if all.Size().Within(room) { PrecedesWithin(part, all, room); }
      written := writer.ProcessResolution(resolutions[i]);
      if written.Err? { return tables, written, Err(written.message); }
    }
    tables, written := writer.out, Ok(());
    checked := writer.ValidateEmpty();
  }

  // What the final check looks at.
  predicate Full(taken: Sizes, room: Sizes, useRelr: bool) {
    && taken.got == room.got && taken.gotRelr == room.gotRelr && taken.relative == room.relative
    && taken.general == room.general && (useRelr ==> taken.relr == room.relr)
  }

  // The writer takes RELR to be off when nothing was reserved for it, and emits the same.
  lemma EmittedForRoom(cfg: Config, base: Offsets, symbols: seq<Symbol>)
    requires Even(base) && forall s :: s in symbols ==> Ready(cfg, s)
    ensures EmitAll(cfg, cfg.isRelrEnabled && TotalNeeds(cfg, symbols).relr > 0, base, symbols)
            == EmitAll(cfg, cfg.isRelrEnabled, base, symbols)
  {
    hide EmitAll, TotalNeeds, Even, Ready;
    if cfg.isRelrEnabled && TotalNeeds(cfg, symbols).relr == 0 { NoRelrAtAll(cfg, base, symbols); }
  }

  // The two passes of the layout and the writer, over a group. The output is written, and passes the final
  // check, exactly when the excesses of all symbols cancel out.
  method LayoutThenWrite(cfg: Config, base: Offsets, symbols: seq<Symbol>)
    returns (resolutions: seq<Resolution>, tables: Tables, written: Result<()>, checked: Result<()>)
    requires Even(base) && forall s :: s in symbols ==> Ready(cfg, s)
    ensures |resolutions| == |symbols|
    ensures forall i :: 0 <= i < |symbols| ==> resolutions[i] == ResolutionOf(cfg, base, symbols, i)
    ensures written.Ok? <==> TotalExcess(cfg, symbols) >= 0
    ensures written.Ok? ==> EmitAll(cfg, cfg.isRelrEnabled, base, symbols) == Ok(tables)
    ensures checked.Ok? <==> TotalExcess(cfg, symbols) == 0
    ensures checked.Ok? ==> tables.Size() == TotalNeeds(cfg, symbols)
  {
    hide Ready, Even, EmitAll, ResolutionOf, TotalNeeds, TotalExcess, Full, LessExcess;
    var room := CountAll(cfg, symbols);
    resolutions := ResolveAll(cfg, base, symbols);
    EmittedForRoom(cfg, base, symbols);
    AllAgree(cfg, base, symbols);
    AllAgreeExactly(cfg, base, symbols);
    tables, written, checked := WriteAll(cfg, base, symbols, resolutions, room);
    FullByExcess(EmitAll(cfg, cfg.isRelrEnabled, base, symbols).value.Size(), room, TotalExcess(cfg, symbols),
                 cfg.isRelrEnabled && room.relr > 0);
  }

  lemma FullByExcess(taken: Sizes, needs: Sizes, excess: int, useRelr: bool)
    requires LessExcess(taken, needs, excess)
    ensures Full(taken, needs, useRelr) <==> excess == 0
  {
    ByExcess(taken, needs, excess);
  }
}
