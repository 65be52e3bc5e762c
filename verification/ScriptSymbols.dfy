// Early evaluation of linker-script symbols, with cycles cut.
module ScriptSymbols {
  import opened Words

  // ----- Expressions ---------------------------------------------------------------------------

  datatype BinaryOp = Add | Subtract | Multiply | Divide | Modulo | Min | Max | Align | LogicalAnd | LogicalOr
                    | Bitwise(op: BitwiseOp)

  datatype BitwiseOp = And | Or | Xor | LeftShift | RightShift | Not

  datatype UnaryOp = LogicalNot | BitwiseNot | Negate | Assert

  datatype Comparison = LessThan | GreaterThan | LessEqual | GreaterEqual | Equal | NotEqual

  datatype SectionFact = Sizeof | Alignof | Addr | Loadaddr

  datatype Expression =
    | Number(value: int)
    | Symbol(name: string)
    | LocationCounter
    | Binary(op: BinaryOp, left: Expression, right: Expression)
    | Unary(uop: UnaryOp, operand: Expression)
    | Compare(comparison: Comparison, left: Expression, right: Expression)
    | AboutSection(fact: SectionFact, section: string)
    | AlignLocation(operand: Expression)
    | Origin(region: string)
    | Length(region: string)
    | SegmentStart(segment: string, operand: Expression)
    | SizeofHeaders
    | Ternary(condition: Expression, left: Expression, right: Expression)
    | Defined(name: string)

  // Where an expression stands.
  datatype Location = SectionStartRelative(id: nat) | SectionEndRelative(id: nat) | SectionEnd(id: nat) | FirstSection
                    | Counter(index: nat, section: Option<nat>) | Nowhere {
    function RelativeSection(): Option<nat> {
      match this
      case SectionStartRelative(id) => Some(id)
      case SectionEndRelative(id) => Some(id)
      case Counter(_, section) => section
      case _ => None
    }
  }

  datatype SymbolValue = Absolute(value: int) | PartRelative(part: nat, offset: int) | SectionRelative(section: nat, address: int)

  datatype Definition = Redirect(expression: Expression, loc: Location)
                      | StartOf(section: nat) | EndOf(section: nat) | Unsupported
                      | InObject(resolved: Result<SymbolValue>)

  datatype SectionLayout = SectionLayout(memOffset: nat, memSize: nat, alignment: nat, lmaOffset: nat, primary: nat)

  datatype Region = Region(origin: nat, length: nat)

  datatype ResolvedCounter = ResolvedCounter(value: nat, sectionOffset: Option<nat>)

  // Everything that evaluation reads and does not change. Symbols are looked up by name and defined by
  // id; bitwise operations are left open.
  datatype Context = Context(
    lookup: map<string, nat>, defs: map<nat, Definition>, sections: map<nat, SectionLayout>, sectionIds: map<string, nat>,
    parts: map<nat, nat>, partSections: map<nat, nat>, regions: map<string, Region>, counters: seq<ResolvedCounter>,
    segmentStarts: map<string, nat>, sizeofHeaders: nat, bitwise: (BitwiseOp, int, int) -> int)

  function Layout(ctx: Context, id: nat): SectionLayout {
    if id in ctx.sections then ctx.sections[id] else SectionLayout(0, 0, 1, 0, id)
  }

  function Primary(ctx: Context, id: nat): nat {
    Layout(ctx, id).primary
  }

  // Which kinds of value an expression has met so far.
  datatype Kind = Kind(containsAbsolute: bool, containsSectionRelative: bool) {
    predicate NeedsSectionBase() { containsSectionRelative || !containsAbsolute }
  }

  datatype Outcome = Outcome(result: Result<int>, kind: Kind)

  const NO_KIND: Kind := Kind(false, false)

  function WithAbsolute(kind: Kind): Kind {
    kind.(containsAbsolute := true)
  }

  function Relative(kind: Kind): Kind {
    kind.(containsSectionRelative := true)
  }

  // ----- Arithmetic on 64 bits -----------------------------------------------------------------

  function Signed(a: int): int {
    if a % TWO_64 >= TWO_64 / 2 then a % TWO_64 - TWO_64 else a % TWO_64
  }

  function Magnitude(a: int): nat {
    if a < 0 then -a else a
  }

  // Division that truncates towards zero.
  function Quotient(a: int, b: int): int
    requires Signed(b) != 0
  {
    var q := Magnitude(Signed(a)) / Magnitude(Signed(b));
    (if Signed(a) < 0 <==> Signed(b) < 0 then q else -q) % TWO_64
  }

  function Remainder(a: int, b: int): int
    requires Signed(b) != 0
  {
    var r := Magnitude(Signed(a)) % Magnitude(Signed(b));
    (if Signed(a) < 0 then -r else r) % TWO_64
  }

  predicate Holds(c: Comparison, a: int, b: int) {
    match c
    case LessThan => a < b
    case GreaterThan => a > b
    case LessEqual => a <= b
    case GreaterEqual => a >= b
    case Equal => a == b
    case NotEqual => a != b
  }

  function Truth(b: bool): int {
    if b then 1 else 0
  }

  function AlignUp(value: int, alignment: int): int
    requires alignment != 0
  {
    if value % alignment == 0 then value else (value + (alignment - value % alignment)) % TWO_64
  }

  // Division looks at its right operand first, everything else at its left.
  predicate RightFirst(op: BinaryOp) {
    op == Divide || op == Modulo
  }

  // What the operand that is looked at first may already decide.
  function Early(op: BinaryOp, first: int): Option<Result<int>> {
    match op
    case Divide => if Signed(first) == 0 then Some(Err("Division by zero in linker script expression")) else None
    case Modulo => if Signed(first) == 0 then Some(Err("Modulo by zero in linker script expression")) else None
    case Align => if first == 0 then Some(Err("ALIGN(0) is invalid")) else None
    case LogicalAnd => if first == 0 then Some(Ok(0)) else None
    case LogicalOr => if first != 0 then Some(Ok(1)) else None
    case _ => None
  }

  function Compute(ctx: Context, op: BinaryOp, first: int, second: int): int
    requires Early(op, first).None?
  {
    match op
    case Add => (first + second) % TWO_64
    case Subtract => (first - second) % TWO_64
    case Multiply => (first * second) % TWO_64
    case Divide => Quotient(second, first)
    case Modulo => Remainder(second, first)
    case Min => if first <= second then first else second
    case Max => if first <= second then second else first
    case Align => AlignUp(second, first)
    case LogicalAnd => Truth(second != 0)
    case LogicalOr => Truth(second != 0)
    case Bitwise(op) => ctx.bitwise(op, first, second)
  }

  function ComputeUnary(ctx: Context, op: UnaryOp, a: int): Result<int> {
    match op
    case LogicalNot => Ok(Truth(a == 0))
    case BitwiseNot => Ok(ctx.bitwise(Not, a, 0))
    case Negate => Ok((-a) % TWO_64)
    case Assert => if a == 0 then Err("assertion failed") else Ok(a)
  }

  // ----- Leaves --------------------------------------------------------------------------------

  function EvaluateLocation(ctx: Context, loc: Location): Result<int> {
    match loc
    case SectionStartRelative(_) => Ok(0)
    case SectionEndRelative(id) =>
      Ok((Layout(ctx, id).memOffset + Layout(ctx, id).memSize - Layout(ctx, Primary(ctx, id)).memOffset) % TWO_64)
    case SectionEnd(id) => Ok(Layout(ctx, id).memOffset + Layout(ctx, id).memSize)
    case FirstSection => Ok(0)
    case Counter(index, section) =>
      if index >= |ctx.counters| then Err("location counter index out of range")
      else if section.None? then Ok(ctx.counters[index].value)
      else Ok(if ctx.counters[index].sectionOffset.Some? then ctx.counters[index].sectionOffset.value else 0)
    case Nowhere => Ok(0)
  }

  function SectionNumber(ctx: Context, fact: SectionFact, section: string): Result<int> {
    if section in ctx.sectionIds then
      var layout := Layout(ctx, ctx.sectionIds[section]);
      match fact
      case Sizeof => Ok(layout.memSize)
      case Alignof => Ok(layout.alignment)
      case Addr => Ok(layout.memOffset)
      case Loadaddr => Ok(layout.lmaOffset)
    else if fact == Sizeof || fact == Alignof then Ok(0)
    else Err("section not found")
  }

  function CurrentSection(ctx: Context, loc: Location): Option<nat> {
    var id := loc.RelativeSection();
    if id.Some? then Some(Primary(ctx, id.value)) else None
  }

  function OffsetIn(ctx: Context, section: nat, address: int): Result<int> {
    var base := Layout(ctx, section).memOffset;
    if address < base then Err("address of symbol is before its output section") else Ok(address - base)
  }

  function SymbolNumber(ctx: Context, value: SymbolValue, loc: Location, kind: Kind): Outcome {
    var current := CurrentSection(ctx, loc);
    match value
    case Absolute(v) => Outcome(Ok(v), WithAbsolute(kind))
    case SectionRelative(section, address) =>
      if current == Some(Primary(ctx, section)) then Outcome(OffsetIn(ctx, Primary(ctx, section), address), Relative(kind))
      else if current.Some? then Outcome(Ok((address + Layout(ctx, current.value).memOffset) % TWO_64), WithAbsolute(kind))
      else Outcome(Ok(address), WithAbsolute(kind))
    case PartRelative(part, offset) =>
      if part !in ctx.parts then Outcome(Err("part has not been laid out yet"), kind)
      else
        var address := ctx.parts[part] + offset;
        var section := if part in ctx.partSections then Primary(ctx, ctx.partSections[part]) else 0;
        if current == Some(section) then Outcome(OffsetIn(ctx, section, address), Relative(kind))
        else Outcome(Ok(address), WithAbsolute(kind))
  }

  function LocationKind(loc: Location, kind: Kind): Kind {
    if loc.RelativeSection().Some? then Relative(kind) else WithAbsolute(kind)
  }

  function FactKind(fact: SectionFact, kind: Kind): Kind {
    if fact == Addr || fact == Loadaddr then WithAbsolute(kind) else kind
  }

  function RegionNumber(ctx: Context, isOrigin: bool, region: string): Result<int> {
    if region !in ctx.regions then Err("memory region not found")
    else Ok(if isOrigin then ctx.regions[region].origin else ctx.regions[region].length)
  }

  function AlignedLocation(ctx: Context, loc: Location, alignment: int): Result<int> {
    if alignment == 0 then Err("ALIGN(0) is invalid")
    else
      var here := EvaluateLocation(ctx, loc);
      if here.Err? then here else Ok(AlignUp(here.value, alignment))
  }

  // ----- An expression, given what its symbols are ---------------------------------------------

  predicate Decides(op: BinaryOp, first: Outcome) {
    first.result.Err? || Early(op, first.result.value).Some?
  }

  function Decided(op: BinaryOp, first: Outcome): Outcome
    requires Decides(op, first)
  {
    if first.result.Err? then first else Outcome(Early(op, first.result.value).value, first.kind)
  }

  function Operate(ctx: Context, op: BinaryOp, first: Outcome, second: Outcome): Outcome
    requires !Decides(op, first)
  {
    if second.result.Err? then second
    else Outcome(Ok(Compute(ctx, op, first.result.value, second.result.value)), second.kind)
  }

  type Table = map<string, Result<SymbolValue>>

  function Value(ctx: Context, e: Expression, loc: Location, table: Table, kind: Kind): Outcome
    decreases e, 0
  {
    match e
    case Number(n) => Outcome(Ok(n), kind)
    case Symbol(name) =>
      if name !in table then Outcome(Err("undefined symbol in linker script expression"), kind)
      else if table[name].Err? then Outcome(Err(table[name].message), kind)
      else SymbolNumber(ctx, table[name].value, loc, kind)
    case LocationCounter => Outcome(EvaluateLocation(ctx, loc), LocationKind(loc, kind))
    case Binary(op, l, r) =>
      var first := Value(ctx, if RightFirst(op) then r else l, loc, table, kind);
      if Decides(op, first) then Decided(op, first)
      else Operate(ctx, op, first, Value(ctx, if RightFirst(op) then l else r, loc, table, first.kind))
    case Unary(op, operand) =>
      var a := Value(ctx, operand, loc, table, kind);
      if a.result.Err? then a else Outcome(ComputeUnary(ctx, op, a.result.value), a.kind)
    case Compare(c, l, r) =>
      var a, b := Whole(ctx, l, loc, table), Whole(ctx, r, loc, table);
      if a.Err? then Outcome(a, kind)
      else if b.Err? then Outcome(b, kind)
      else Outcome(Ok(Truth(Holds(c, a.value, b.value))), kind)
    case AboutSection(fact, section) => Outcome(SectionNumber(ctx, fact, section), FactKind(fact, kind))
    case AlignLocation(operand) =>
      var a := Value(ctx, operand, loc, table, kind);
      if a.result.Err? then a else Outcome(AlignedLocation(ctx, loc, a.result.value), a.kind)
    case Origin(region) => Outcome(RegionNumber(ctx, true, region), WithAbsolute(kind))
    case Length(region) => Outcome(RegionNumber(ctx, false, region), kind)
    case SegmentStart(segment, operand) =>
      if segment in ctx.segmentStarts then Outcome(Ok(ctx.segmentStarts[segment]), WithAbsolute(kind))
      else Value(ctx, operand, loc, table, WithAbsolute(kind))
    case SizeofHeaders => Outcome(Ok(ctx.sizeofHeaders), kind)
    case Ternary(condition, l, r) =>
      var c := Value(ctx, condition, loc, table, kind);
      if c.result.Err? then c else Value(ctx, if c.result.value != 0 then l else r, loc, table, c.kind)
    case Defined(name) => Outcome(Ok(Truth(name in ctx.lookup)), kind)
  }

  // The value made absolute: one that is relative to a section, or a mere number, counts from the
  // section that the expression stands in.
  function Based(ctx: Context, loc: Location, value: int, kind: Kind): int {
    var current := CurrentSection(ctx, loc);
    if kind.NeedsSectionBase() && current.Some? then (value + Layout(ctx, current.value).memOffset) % TWO_64 else value
  }

  function Whole(ctx: Context, e: Expression, loc: Location, table: Table): Result<int>
    decreases e, 1
  {
    var v := Value(ctx, e, loc, table, NO_KIND);
    if v.result.Err? then v.result else Ok(Based(ctx, loc, v.result.value, v.kind))
  }

  // ----- What a symbol is ----------------------------------------------------------------------

  function Finish(ctx: Context, loc: Location, value: Result<int>): Result<SymbolValue> {
    if value.Err? then Err(value.message)
    else
      var current := CurrentSection(ctx, loc);
      Ok(if current.Some? then SectionRelative(current.value, value.value) else Absolute(value.value))
  }

  // A definition, given what the other symbols are.
  function Define(ctx: Context, def: Definition, table: Table): Result<SymbolValue> {
    match def
    case Redirect(e, loc) => Finish(ctx, loc, Whole(ctx, e, loc, table))
    case StartOf(section) => Ok(SectionRelative(section, 0))
    case EndOf(section) => Ok(SectionRelative(section, Layout(ctx, section).memSize))
    case Unsupported => Err("Unsupported symbol type")
    case InObject(resolved) => resolved
  }

  function Unvisited(ctx: Context, visited: set<nat>): nat {
    |ctx.defs.Keys - visited|
  }

  lemma OneFewer(ctx: Context, visited: set<nat>, id: nat)
    requires id in ctx.defs && id !in visited
    ensures Unvisited(ctx, visited + {id}) < Unvisited(ctx, visited)
  {
    assert ctx.defs.Keys - (visited + {id}) == (ctx.defs.Keys - visited) - {id};
  }

  // What evaluation makes of a symbol while the symbols visited are being evaluated.
  function Resolve(ctx: Context, id: nat, visited: set<nat>): Result<SymbolValue>
    decreases Unvisited(ctx, visited), 0
  {
    if id !in ctx.defs then Err("symbol is not defined by an input object")
    else if !ctx.defs[id].Redirect? then Define(ctx, ctx.defs[id], map[])
    else if id in visited then Ok(Absolute(0))
    else
      OneFewer(ctx, visited, id);
      Define(ctx, ctx.defs[id], Resolved(ctx, visited + {id}))
  }

  function Resolved(ctx: Context, visited: set<nat>): Table
    decreases Unvisited(ctx, visited), 1
  {
    map name | name in ctx.lookup :: Resolve(ctx, ctx.lookup[name], visited)
  }
}
