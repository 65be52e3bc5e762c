// What the operators of linker-script expressions mean, on numbers of 64 bits.
module ScriptOperators {
  import opened Words
  import opened ScriptSymbols

  // ----- Meanings ------------------------------------------------------------------------------

  predicate IsU64(a: int) {
    0 <= a < 0x1_0000_0000_0000_0000
  }

  function AsSigned(a: int): int
    requires IsU64(a)
  {
    if a < 0x8000_0000_0000_0000 then a else a - 0x1_0000_0000_0000_0000
  }

  // q and r are the quotient and the remainder of x by y, rounded towards zero.
  predicate TruncatedDivision(x: int, y: int, q: int, r: int) {
    x == q * y + r && Magnitude(r) < Magnitude(y) && (r > 0 ==> x > 0) && (r < 0 ==> x < 0)
  }

  // w is the first multiple of n from a on.
  predicate NextMultipleIs(a: int, n: int, w: int)
    requires n != 0
  {
    w % n == 0 && a <= w < a + n
  }

  // v is what the operator makes of its left operand a and its right operand b.
  ghost predicate Means(ctx: Context, op: BinaryOp, a: int, b: int, v: Result<int>)
    requires IsU64(a) && IsU64(b)
  {
    match op
    case Add => v.Ok? && IsU64(v.value) && Congruent(v.value, a + b)
    case Subtract => v.Ok? && IsU64(v.value) && Congruent(v.value, a - b)
    case Multiply => v.Ok? && IsU64(v.value) && Congruent(v.value, a * b)
    case Divide =>
      if b == 0 then v.Err?
      else v.Ok? && IsU64(v.value)
           && exists q, r :: TruncatedDivision(AsSigned(a), AsSigned(b), q, r) && Congruent(v.value, q)
    case Modulo =>
      if b == 0 then v.Err?
      else v.Ok? && IsU64(v.value)
           && exists q, r :: TruncatedDivision(AsSigned(a), AsSigned(b), q, r) && Congruent(v.value, r)
    case Min => v.Ok? && v.value <= a && v.value <= b && (v.value == a || v.value == b)
    case Max => v.Ok? && a <= v.value && b <= v.value && (v.value == a || v.value == b)
    case Align =>
      if a == 0 then v.Err? else v.Ok? && IsU64(v.value) && exists w :: NextMultipleIs(b, a, w) && Congruent(v.value, w)
    case LogicalAnd => v == Ok(if a == 0 || b == 0 then 0 else 1)
    case LogicalOr => v == Ok(if a == 0 && b == 0 then 0 else 1)
    case Bitwise(op) => v == Ok(ctx.bitwise(op, a, b))
  }

  // ----- Binary operators ----------------------------------------------------------------------

  // The kind of value that the other operand leaves: a division looks at its right operand first.
  function KindBefore(ctx: Context, op: BinaryOp, isLeft: bool, other: Expression, loc: Location, table: Table, kind: Kind): Kind {
    if isLeft <==> (op == Divide || op == Modulo) then Value(ctx, other, loc, table, kind).kind else kind
  }

  // Every binary operator means what it should.
  lemma BinaryMeans(ctx: Context, op: BinaryOp, l: Expression, r: Expression, loc: Location, table: Table, kind: Kind)
    requires var a := Value(ctx, l, loc, table, KindBefore(ctx, op, true, r, loc, table, kind)).result;
             a.Ok? && IsU64(a.value)
    requires var b := Value(ctx, r, loc, table, KindBefore(ctx, op, false, l, loc, table, kind)).result;
             b.Ok? && IsU64(b.value)
    ensures var a := Value(ctx, l, loc, table, KindBefore(ctx, op, true, r, loc, table, kind)).result;
            var b := Value(ctx, r, loc, table, KindBefore(ctx, op, false, l, loc, table, kind)).result;
            Means(ctx, op, a.value, b.value, Value(ctx, Binary(op, l, r), loc, table, kind).result)
  {
    hide Means, Early, Compute, Value;
    var a := Value(ctx, l, loc, table, KindBefore(ctx, op, true, r, loc, table, kind)).result.value;
    var b := Value(ctx, r, loc, table, KindBefore(ctx, op, false, l, loc, table, kind)).result.value;
    ComputeMeans(ctx, op, a, b);
    BinaryUnfolds(ctx, op, l, r, loc, table, kind);
  }

  lemma BinaryUnfolds(ctx: Context, op: BinaryOp, l: Expression, r: Expression, loc: Location, table: Table, kind: Kind)
    ensures var first := Value(ctx, if RightFirst(op) then r else l, loc, table, kind);
            Value(ctx, Binary(op, l, r), loc, table, kind)
            == if Decides(op, first) then Decided(op, first)
               else Operate(ctx, op, first, Value(ctx, if RightFirst(op) then l else r, loc, table, first.kind))
  {
    hide Decides, Decided, Operate, RightFirst;
  }

  function Computed(ctx: Context, op: BinaryOp, first: int, second: int): Result<int> {
    if Early(op, first).Some? then Early(op, first).value else Ok(Compute(ctx, op, first, second))
  }

  lemma ComputeMeans(ctx: Context, op: BinaryOp, a: int, b: int)
    requires IsU64(a) && IsU64(b)
    ensures Means(ctx, op, a, b, if RightFirst(op) then Computed(ctx, op, b, a) else Computed(ctx, op, a, b))
  {
    hide Congruent, AlignUp, Quotient, Remainder, TruncatedDivision, NextMultipleIs, AsSigned;
    SignedIs(a);
    SignedIs(b);
    match op {
      case Add => { Wraps(a + b); }
      case Subtract => { Wraps(a - b); }
      case Multiply => { Wraps(a * b); }
      case Divide => { if b != 0 { QuotientMeans(a, b); } }
      case Modulo => { if b != 0 { QuotientMeans(a, b); } }
      case Align => { if a != 0 { AlignMeans(b, a); } }
      case _ => {}
    }
  }

  lemma Wraps(n: int)
    ensures IsU64(n % TWO_64) && Congruent(n % TWO_64, n)
  {}

  lemma SignedIs(a: int)
    requires IsU64(a)
    ensures Signed(a) == AsSigned(a) && (Signed(a) == 0 <==> a == 0)
  {}

  lemma QuotientMeans(a: int, b: int)
    requires IsU64(a) && IsU64(b) && Signed(b) != 0 && Signed(a) == AsSigned(a) && Signed(b) == AsSigned(b)
    ensures exists q, r :: TruncatedDivision(AsSigned(a), AsSigned(b), q, r)
                           && Congruent(Quotient(a, b), q) && Congruent(Remainder(a, b), r)
    ensures IsU64(Quotient(a, b)) && IsU64(Remainder(a, b))
  {
    hide Congruent, Signed, AsSigned, TruncatedDivision, IsU64, SignedQuotient, SignedRemainder;
    var x, y := Signed(a), Signed(b);
    Truncates(x, y);
    Wraps(SignedQuotient(x, y));
    Wraps(SignedRemainder(x, y));
    QuotientIsSigned(a, b);
  }

  function SignedQuotient(x: int, y: int): int
    requires y != 0
  {
    var q: int := Magnitude(x) / Magnitude(y);
    if x < 0 <==> y < 0 then q else -q
  }

  function SignedRemainder(x: int, y: int): int
    requires y != 0
  {
    var r: int := Magnitude(x) % Magnitude(y);
    if x < 0 then -r else r
  }

  lemma QuotientIsSigned(a: int, b: int)
    requires Signed(b) != 0
    ensures Quotient(a, b) == SignedQuotient(Signed(a), Signed(b)) % TWO_64
    ensures Remainder(a, b) == SignedRemainder(Signed(a), Signed(b)) % TWO_64
  {
    hide Signed, Magnitude;
  }

  lemma Truncates(x: int, y: int)
    requires y != 0
    ensures TruncatedDivision(x, y, SignedQuotient(x, y), SignedRemainder(x, y))
  {
    hide Product, TruncatedDivision;
    var m: int, n: int := Magnitude(x), Magnitude(y);
    Divides(m, n);
    SignsApply(x, y, m / n, m % n);
  }

  lemma SignsApply(x: int, y: int, q: int, r: int)
    requires y != 0 && Magnitude(x) == Product(q, Magnitude(y)) + r && 0 <= r < Magnitude(y) && r <= Magnitude(x)
    ensures TruncatedDivision(x, y, if x < 0 <==> y < 0 then q else -q, if x < 0 then -r else r)
  {
    hide Product, TruncatedDivision;
    Signs(q, Magnitude(y));
    IsTruncated(x, y, if x < 0 <==> y < 0 then q else -q, if x < 0 then -r else r);
  }

  lemma IsTruncated(x: int, y: int, q: int, r: int)
    requires x == Product(q, y) + r && Magnitude(r) < Magnitude(y) && (r > 0 ==> x > 0) && (r < 0 ==> x < 0)
    ensures TruncatedDivision(x, y, q, r)
  {}

  function Product(a: int, b: int): int {
    a * b
  }

  lemma Divides(m: int, n: int)
    requires m >= 0 && n > 0
    ensures m == Product(m / n, n) + m % n && 0 <= m % n < n && m % n <= m
  {}

  lemma Signs(q: int, n: int)
    ensures Product(-q, n) == -Product(q, n) && Product(q, -n) == -Product(q, n) && Product(-q, -n) == Product(q, n)
  {}

  lemma AlignMeans(value: int, alignment: int)
    requires IsU64(value) && IsU64(alignment) && alignment != 0
    ensures exists w :: NextMultipleIs(value, alignment, w) && Congruent(AlignUp(value, alignment), w)
    ensures IsU64(AlignUp(value, alignment))
  {
    hide NextMultipleIs, Congruent;
    if value % alignment == 0 {
      assert NextMultipleIs(value, alignment, value) && Congruent(value, value) by { MultipleStays(value, alignment); }
    } else {
      var w := value + (alignment - value % alignment);
      MultipleFollows(value, alignment);
      Wraps(w);
    }
  }

  lemma MultipleStays(value: int, alignment: int)
    requires alignment > 0 && value % alignment == 0
    ensures NextMultipleIs(value, alignment, value) && Congruent(value, value)
  {}

  lemma MultipleFollows(value: int, alignment: int)
    requires alignment > 0 && value % alignment != 0
    ensures NextMultipleIs(value, alignment, value + (alignment - value % alignment))
  {
    var q := value / alignment;
    assert value + (alignment - value % alignment) == (q + 1) * alignment;
    MultipleHasNoRest(q + 1, alignment);
  }

  // ----- Operands that decide alone ------------------------------------------------------------

  // A left operand that settles && or || leaves the right one alone, whatever it is, and an alignment to
  // 0 fails before the right one is looked at, as a division by 0 does before the left one is.
  lemma LeftDecides(ctx: Context, l: Expression, r: Expression, loc: Location, table: Table, kind: Kind)
    ensures Value(ctx, l, loc, table, kind).result == Ok(0) ==>
              && Value(ctx, Binary(LogicalAnd, l, r), loc, table, kind) == Value(ctx, l, loc, table, kind)
              && Value(ctx, Binary(Align, l, r), loc, table, kind).result.Err?
    ensures Value(ctx, l, loc, table, kind).result.Ok? && Value(ctx, l, loc, table, kind).result != Ok(0) ==>
              Value(ctx, Binary(LogicalOr, l, r), loc, table, kind) == Value(ctx, l, loc, table, kind).(result := Ok(1))
  {
    hide Value, Operate;
    BinaryUnfolds(ctx, LogicalAnd, l, r, loc, table, kind);
    BinaryUnfolds(ctx, LogicalOr, l, r, loc, table, kind);
    BinaryUnfolds(ctx, Align, l, r, loc, table, kind);
  }

  lemma RightDecides(ctx: Context, l: Expression, r: Expression, loc: Location, table: Table, kind: Kind)
    requires Value(ctx, r, loc, table, kind).result == Ok(0)
    ensures Value(ctx, Binary(Divide, l, r), loc, table, kind).result.Err?
    ensures Value(ctx, Binary(Modulo, l, r), loc, table, kind).result.Err?
  {
    hide Value, Operate;
    BinaryUnfolds(ctx, Divide, l, r, loc, table, kind);
    BinaryUnfolds(ctx, Modulo, l, r, loc, table, kind);
  }

  // ----- Unary operators and comparisons -------------------------------------------------------

  lemma UnaryMeans(ctx: Context, e: Expression, loc: Location, table: Table, kind: Kind)
    requires var a := Value(ctx, e, loc, table, kind).result; a.Ok? && IsU64(a.value)
    ensures var a := Value(ctx, e, loc, table, kind).result.value;
            var negated := Value(ctx, Unary(Negate, e), loc, table, kind).result;
            && negated.Ok? && IsU64(negated.value) && Congruent(negated.value + a, 0)
            && Value(ctx, Unary(LogicalNot, e), loc, table, kind).result == Ok(if a == 0 then 1 else 0)
            && Value(ctx, Unary(BitwiseNot, e), loc, table, kind).result == Ok(ctx.bitwise(Not, a, 0))
            && Value(ctx, Unary(Assert, e), loc, table, kind).result == if a == 0 then Err("assertion failed") else Ok(a)
  {
    hide Value, Congruent, IsU64;
    Negates(Value(ctx, e, loc, table, kind).result.value);
    UnaryUnfolds(ctx, Negate, e, loc, table, kind);
    UnaryUnfolds(ctx, LogicalNot, e, loc, table, kind);
    UnaryUnfolds(ctx, BitwiseNot, e, loc, table, kind);
    UnaryUnfolds(ctx, Assert, e, loc, table, kind);
  }

  lemma UnaryUnfolds(ctx: Context, op: UnaryOp, e: Expression, loc: Location, table: Table, kind: Kind)
    ensures var a := Value(ctx, e, loc, table, kind);
            Value(ctx, Unary(op, e), loc, table, kind)
            == if a.result.Err? then a else Outcome(ComputeUnary(ctx, op, a.result.value), a.kind)
  {
    hide ComputeUnary;
  }

  lemma Negates(a: int)
    ensures IsU64((-a) % TWO_64) && Congruent((-a) % TWO_64 + a, 0)
  {}

  // Comparisons are of the absolute values of both sides.
  lemma ComparisonMeans(ctx: Context, l: Expression, r: Expression, loc: Location, table: Table, kind: Kind, a: int, b: int)
    requires Whole(ctx, l, loc, table) == Ok(a) && Whole(ctx, r, loc, table) == Ok(b)
    ensures Value(ctx, Compare(LessThan, l, r), loc, table, kind).result == Ok(if a < b then 1 else 0)
    ensures Value(ctx, Compare(GreaterThan, l, r), loc, table, kind).result == Ok(if b < a then 1 else 0)
    ensures Value(ctx, Compare(LessEqual, l, r), loc, table, kind).result == Ok(if b < a then 0 else 1)
    ensures Value(ctx, Compare(GreaterEqual, l, r), loc, table, kind).result == Ok(if a < b then 0 else 1)
    ensures Value(ctx, Compare(Equal, l, r), loc, table, kind).result == Ok(if a == b then 1 else 0)
    ensures Value(ctx, Compare(NotEqual, l, r), loc, table, kind).result == Ok(if a == b then 0 else 1)
  {
    hide Value, Whole, Holds;
    CompareUnfolds(ctx, LessThan, l, r, loc, table, kind);
    CompareUnfolds(ctx, GreaterThan, l, r, loc, table, kind);
    CompareUnfolds(ctx, LessEqual, l, r, loc, table, kind);
    CompareUnfolds(ctx, GreaterEqual, l, r, loc, table, kind);
    CompareUnfolds(ctx, Equal, l, r, loc, table, kind);
    CompareUnfolds(ctx, NotEqual, l, r, loc, table, kind);
    AllHold(a, b);
  }

  lemma AllHold(a: int, b: int)
    ensures (Holds(LessThan, a, b) <==> a < b) && (Holds(GreaterThan, a, b) <==> b < a)
    ensures (Holds(LessEqual, a, b) <==> !(b < a)) && (Holds(GreaterEqual, a, b) <==> !(a < b))
    ensures (Holds(Equal, a, b) <==> a == b) && (Holds(NotEqual, a, b) <==> a != b)
  {}

  lemma CompareUnfolds(ctx: Context, c: Comparison, l: Expression, r: Expression, loc: Location, table: Table, kind: Kind)
    ensures var a, b := Whole(ctx, l, loc, table), Whole(ctx, r, loc, table);
            a.Ok? && b.Ok? ==>
              Value(ctx, Compare(c, l, r), loc, table, kind).result == Ok(if Holds(c, a.value, b.value) then 1 else 0)
  {
    hide Whole, Holds;
  }

  // ----- Facts about sections ------------------------------------------------------------------

  // ADDR and SIZEOF of a section give its end, LOADADDR and ALIGNOF what is laid out for it; SIZEOF and
  // ALIGNOF of a section that is not there are 0, and ADDR and LOADADDR of it fail.
  lemma FactsMean(ctx: Context, section: string, loc: Location, table: Table, kind: Kind)
    ensures var addr := Value(ctx, AboutSection(Addr, section), loc, table, kind).result;
            var size := Value(ctx, AboutSection(Sizeof, section), loc, table, kind).result;
            var alignment := Value(ctx, AboutSection(Alignof, section), loc, table, kind).result;
            var load := Value(ctx, AboutSection(Loadaddr, section), loc, table, kind).result;
            if section !in ctx.sectionIds then addr.Err? && load.Err? && size == Ok(0) && alignment == Ok(0)
            else
              var id := ctx.sectionIds[section];
              && addr.Ok? && size == Ok(Layout(ctx, id).memSize)
              && EvaluateLocation(ctx, SectionEnd(id)) == Ok(addr.value + size.value)
              && load == Ok(Layout(ctx, id).lmaOffset) && alignment == Ok(Layout(ctx, id).alignment)
  {}

  // ----- Symbols wherever they are used --------------------------------------------------------

  // The base of the section that an expression stands in, if it stands in one.
  function BaseAt(ctx: Context, loc: Location): Option<nat> {
    if loc.RelativeSection().Some? then Some(Layout(ctx, Primary(ctx, loc.RelativeSection().value)).memOffset) else None
  }

  predicate StandsIn(ctx: Context, loc: Location, section: nat) {
    loc.RelativeSection().Some? && Primary(ctx, loc.RelativeSection().value) == Primary(ctx, section)
  }

  // A symbol that a script defines in a section has its address as its value exactly where no section
  // base comes in: outside of sections, in its own section unless it is before its start, and in a
  // section at address 0. In any other section the base of that section is added to it.
  lemma SectionSymbolExactly(ctx: Context, name: string, loc: Location, table: Table, section: nat, address: int)
    requires name in table && table[name] == Ok(SectionRelative(section, address)) && IsU64(address)
    requires BaseAt(ctx, loc).Some? ==> IsU64(BaseAt(ctx, loc).value)
    ensures Whole(ctx, Symbol(name), loc, table) == Ok(address)
       <==> var base := BaseAt(ctx, loc);
            base.None? || base.value == 0 || (StandsIn(ctx, loc, section) && base.value <= address)
    ensures var base := BaseAt(ctx, loc);
            base.Some? && !StandsIn(ctx, loc, section) ==>
              Whole(ctx, Symbol(name), loc, table) == Ok((address + base.value) % 0x1_0000_0000_0000_0000)
  {
    SymbolUnfolds(ctx, name, loc, table);
    hide Value;
    if BaseAt(ctx, loc).Some? {
      AddsOnly(address, BaseAt(ctx, loc).value);
    }
  }

  // A symbol of an input object has its address as its value wherever it is used, unless it is used in its
  // own section and before the start of that.
  lemma ObjectSymbolExactly(ctx: Context, name: string, loc: Location, table: Table, part: nat, offset: int)
    requires name in table && table[name] == Ok(PartRelative(part, offset)) && part in ctx.parts
    requires part in ctx.partSections && IsU64(ctx.parts[part] + offset)
    requires BaseAt(ctx, loc).Some? ==> IsU64(BaseAt(ctx, loc).value)
    ensures Whole(ctx, Symbol(name), loc, table) == Ok(ctx.parts[part] + offset)
       <==> (StandsIn(ctx, loc, ctx.partSections[part]) ==> BaseAt(ctx, loc).value <= ctx.parts[part] + offset)
  {
    SymbolUnfolds(ctx, name, loc, table);
    hide Value;
    if BaseAt(ctx, loc).Some? {
      AddsOnly(ctx.parts[part] + offset, BaseAt(ctx, loc).value);
    }
  }

  lemma SymbolUnfolds(ctx: Context, name: string, loc: Location, table: Table)
    requires name in table && table[name].Ok?
    ensures Value(ctx, Symbol(name), loc, table, NO_KIND) == SymbolNumber(ctx, table[name].value, loc, NO_KIND)
  {
    hide SymbolNumber;
  }

  lemma AddsOnly(a: int, base: int)
    requires IsU64(a) && IsU64(base)
    ensures a % TWO_64 == a && ((a + base) % TWO_64 == a <==> base == 0)
  {}

  // ----- Everything else that stands alone -----------------------------------------------------

  // In a section mere numbers count from its base.
  function FromBase(ctx: Context, loc: Location, value: int): int {
    if BaseAt(ctx, loc).Some? then (value + BaseAt(ctx, loc).value) % 0x1_0000_0000_0000_0000 else value
  }

  lemma WholeUnfolds(ctx: Context, e: Expression, loc: Location, table: Table)
    ensures var v := Value(ctx, e, loc, table, NO_KIND);
            Whole(ctx, e, loc, table) == if v.result.Err? then v.result else Ok(Based(ctx, loc, v.result.value, v.kind))
  {
    hide Value;
  }

  lemma BasedExactly(ctx: Context, loc: Location, value: int, kind: Kind)
    ensures Based(ctx, loc, value, kind)
            == if kind.containsSectionRelative || !kind.containsAbsolute then FromBase(ctx, loc, value) else value
  {}

  lemma NumbersMean(ctx: Context, loc: Location, table: Table, n: int, name: string)
    ensures Whole(ctx, Number(n), loc, table) == Ok(FromBase(ctx, loc, n))
    ensures Whole(ctx, SizeofHeaders, loc, table) == Ok(FromBase(ctx, loc, ctx.sizeofHeaders))
    ensures Whole(ctx, Defined(name), loc, table) == Ok(FromBase(ctx, loc, if name in ctx.lookup then 1 else 0))
  {
    WholeUnfolds(ctx, Number(n), loc, table);
    WholeUnfolds(ctx, SizeofHeaders, loc, table);
    WholeUnfolds(ctx, Defined(name), loc, table);
    BasedExactly(ctx, loc, n, NO_KIND);
    BasedExactly(ctx, loc, ctx.sizeofHeaders, NO_KIND);
    BasedExactly(ctx, loc, if name in ctx.lookup then 1 else 0, NO_KIND);
    hide Whole, Based, FromBase;
  }

  // Addresses are the same wherever they are asked for; sizes and alignments are mere numbers.
  lemma SectionsMean(ctx: Context, loc: Location, table: Table, section: string)
    requires section in ctx.sectionIds
    ensures var layout := Layout(ctx, ctx.sectionIds[section]);
            && Whole(ctx, AboutSection(Addr, section), loc, table) == Ok(layout.memOffset)
            && Whole(ctx, AboutSection(Loadaddr, section), loc, table) == Ok(layout.lmaOffset)
            && Whole(ctx, AboutSection(Sizeof, section), loc, table) == Ok(FromBase(ctx, loc, layout.memSize))
            && Whole(ctx, AboutSection(Alignof, section), loc, table) == Ok(FromBase(ctx, loc, layout.alignment))
  {
    var layout := Layout(ctx, ctx.sectionIds[section]);
    WholeUnfolds(ctx, AboutSection(Addr, section), loc, table);
    WholeUnfolds(ctx, AboutSection(Loadaddr, section), loc, table);
    WholeUnfolds(ctx, AboutSection(Sizeof, section), loc, table);
    WholeUnfolds(ctx, AboutSection(Alignof, section), loc, table);
    BasedExactly(ctx, loc, layout.memOffset, WithAbsolute(NO_KIND));
    BasedExactly(ctx, loc, layout.lmaOffset, WithAbsolute(NO_KIND));
    BasedExactly(ctx, loc, layout.memSize, NO_KIND);
    BasedExactly(ctx, loc, layout.alignment, NO_KIND);
    hide Whole, Based, FromBase, Layout;
  }

  // So are the origin of a memory region and the start of a segment, but not the length of a region.
  lemma RegionsMean(ctx: Context, loc: Location, table: Table, region: string, segment: string, e: Expression)
    ensures region !in ctx.regions ==>
              Whole(ctx, Origin(region), loc, table).Err? && Whole(ctx, Length(region), loc, table).Err?
    ensures region in ctx.regions ==>
              && Whole(ctx, Origin(region), loc, table) == Ok(ctx.regions[region].origin)
              && Whole(ctx, Length(region), loc, table) == Ok(FromBase(ctx, loc, ctx.regions[region].length))
    ensures segment in ctx.segmentStarts ==>
              Whole(ctx, SegmentStart(segment, e), loc, table) == Ok(ctx.segmentStarts[segment])
    ensures segment !in ctx.segmentStarts ==>
              Value(ctx, SegmentStart(segment, e), loc, table, NO_KIND) == Value(ctx, e, loc, table, Kind(true, false))
  {
    WholeUnfolds(ctx, Origin(region), loc, table);
    WholeUnfolds(ctx, Length(region), loc, table);
    WholeUnfolds(ctx, SegmentStart(segment, e), loc, table);
    if region in ctx.regions {
      BasedExactly(ctx, loc, ctx.regions[region].origin, WithAbsolute(NO_KIND));
      BasedExactly(ctx, loc, ctx.regions[region].length, NO_KIND);
    }
    if segment in ctx.segmentStarts { BasedExactly(ctx, loc, ctx.segmentStarts[segment], WithAbsolute(NO_KIND)); }
    hide Whole, Based, FromBase;
  }

  // The location counter is the address of the place where the expression stands: the start or the end of
  // its section, or what was recorded there.
  lemma LocationMeans(ctx: Context, loc: Location, table: Table)
    requires BaseAt(ctx, loc).Some? ==> IsU64(BaseAt(ctx, loc).value)
    requires loc.SectionEndRelative? ==> IsU64(Layout(ctx, loc.id).memOffset + Layout(ctx, loc.id).memSize)
    ensures Whole(ctx, LocationCounter, loc, table)
            == match loc
               case SectionStartRelative(id) => Ok(BaseAt(ctx, loc).value)
               case SectionEndRelative(id) => Ok(Layout(ctx, id).memOffset + Layout(ctx, id).memSize)
               case SectionEnd(id) => Ok(Layout(ctx, id).memOffset + Layout(ctx, id).memSize)
               case FirstSection => Ok(0)
               case Nowhere => Ok(0)
               case Counter(index, section) =>
                 if index >= |ctx.counters| then Err("location counter index out of range")
                 else
                   var here := ctx.counters[index];
                   Ok(if section.None? then here.value
                      else FromBase(ctx, loc, if here.sectionOffset.Some? then here.sectionOffset.value else 0))
  {
    WholeUnfolds(ctx, LocationCounter, loc, table);
    var v := EvaluateLocation(ctx, loc);
    if v.Ok? { BasedExactly(ctx, loc, v.value, LocationKind(loc, NO_KIND)); }
    hide Whole, Based;
    if loc.SectionEndRelative? {
      EndFromBase(Layout(ctx, loc.id).memOffset + Layout(ctx, loc.id).memSize, BaseAt(ctx, loc).value);
    }
  }

  lemma EndFromBase(end: int, base: int)
    requires IsU64(end)
    ensures ((end - base) % TWO_64 + base) % TWO_64 == end
  {}

  // ALIGN of one operand is of the location counter.
  lemma AlignLocationMeans(ctx: Context, e: Expression, loc: Location, table: Table, kind: Kind)
    requires var a, here := Value(ctx, e, loc, table, kind).result, EvaluateLocation(ctx, loc);
             a.Ok? && IsU64(a.value) && here.Ok? && IsU64(here.value)
    ensures var a, v := Value(ctx, e, loc, table, kind).result.value, Value(ctx, AlignLocation(e), loc, table, kind).result;
            if a == 0 then v.Err?
            else v.Ok? && exists w :: NextMultipleIs(EvaluateLocation(ctx, loc).value, a, w) && Congruent(v.value, w)
  {
    AlignUnfolds(ctx, e, loc, table, kind);
    var a := Value(ctx, e, loc, table, kind).result.value;
    hide Value, EvaluateLocation;
    if a != 0 { AlignMeans(EvaluateLocation(ctx, loc).value, a); }
  }

  lemma AlignUnfolds(ctx: Context, e: Expression, loc: Location, table: Table, kind: Kind)
    ensures var a := Value(ctx, e, loc, table, kind);
            a.result.Ok? ==> Value(ctx, AlignLocation(e), loc, table, kind).result == AlignedLocation(ctx, loc, a.result.value)
  {
    hide AlignedLocation;
  }

  // ----- Definitions seen from elsewhere -------------------------------------------------------

  // What a symbol was defined as is what an expression outside of sections sees, and one in the same section
  // unless it is before the start of that. A symbol defined outside of sections is the same everywhere.
  lemma DefinitionIsSeen(ctx: Context, e: Expression, loc: Location, table: Table, name: string, users: Table, user: Location, v: int)
    requires Whole(ctx, e, loc, table) == Ok(v) && IsU64(v)
    requires name in users && users[name] == Define(ctx, Redirect(e, loc), table)
    requires BaseAt(ctx, user).Some? ==> IsU64(BaseAt(ctx, user).value)
    requires PrimaryIsPrimary(ctx)
    requires || loc.RelativeSection().None? || user.RelativeSection().None?
             || (StandsIn(ctx, user, loc.RelativeSection().value) && BaseAt(ctx, user).value <= v)
    ensures Whole(ctx, Symbol(name), user, users) == Ok(v)
  {
    hide Whole;
    if loc.RelativeSection().Some? {
      SectionSymbolExactly(ctx, name, user, users, Primary(ctx, loc.RelativeSection().value), v);
    } else {
      AbsoluteSymbol(ctx, name, user, users, v);
    }
  }

  ghost predicate PrimaryIsPrimary(ctx: Context) {
    forall id: nat :: Primary(ctx, Primary(ctx, id)) == Primary(ctx, id)
  }

  lemma AbsoluteSymbol(ctx: Context, name: string, loc: Location, table: Table, v: int)
    requires name in table && table[name] == Ok(Absolute(v))
    ensures Whole(ctx, Symbol(name), loc, table) == Ok(v)
  {
    SymbolUnfolds(ctx, name, loc, table);
    hide Value;
  }

  // The symbols for the start and the end of a section, as seen outside of sections, are as far apart as
  // the section is long, but count from 0.
  lemma StartAndEndSeen(ctx: Context, section: nat, start: string, end: string, loc: Location, table: Table)
    requires loc.RelativeSection().None? && start in table && end in table
    requires table[start] == Define(ctx, StartOf(section), map[]) && table[end] == Define(ctx, EndOf(section), map[])
    requires IsU64(Layout(ctx, section).memSize)
    ensures Whole(ctx, Symbol(start), loc, table) == Ok(0)
    ensures Whole(ctx, Symbol(end), loc, table) == Ok(Layout(ctx, section).memSize)
  {
    SectionSymbolExactly(ctx, start, loc, table, section, 0);
    SectionSymbolExactly(ctx, end, loc, table, section, Layout(ctx, section).memSize);
    hide Whole;
  }
}
