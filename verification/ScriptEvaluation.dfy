// The evaluator that keeps a set of visited symbols, and what its answers mean.
module ScriptEvaluation {
  import opened Words
  import opened ScriptSymbols

  function Size(e: Expression): (n: nat)
    ensures n > 0
  {
    match e
    case Binary(_, l, r) => 1 + Size(l) + Size(r)
    case Unary(_, a) => 1 + Size(a)
    case Compare(_, l, r) => 1 + Size(l) + Size(r)
    case AlignLocation(a) => 1 + Size(a)
    case SegmentStart(_, a) => 1 + Size(a)
    case Ternary(c, l, r) => 1 + Size(c) + Size(l) + Size(r)
    case _ => 1
  }

  // Expressions without operands, other than symbols.
  predicate IsLeaf(e: Expression) {
    e.Number? || e.LocationCounter? || e.AboutSection? || e.Origin? || e.Length? || e.SizeofHeaders? || e.Defined?
  }

  class EarlyEvaluator {
    const ctx: Context
    var visited: set<nat>

    constructor (c: Context)
      ensures ctx == c && visited == {}
    {
      ctx, visited := c, {};
    }

    // The symbols visited are the same after every return, errors included.
    method EvaluateExpressionValue(e: Expression, loc: Location, kind: Kind) returns (o: Outcome)
      modifies this
      ensures visited == old(visited)
      ensures o == Value(ctx, e, loc, Resolved(ctx, old(visited)), kind)
      decreases Unvisited(ctx, visited), Size(e), 0
    {
      hide Resolved, Whole, SymbolNumber, EvaluateLocation, SectionNumber, Decides, Decided, Operate, Unvisited,
           RegionNumber, AlignedLocation, ComputeUnary, Holds, FactKind, LocationKind;
      match e {
        case Symbol(name) => {
          TableNames(ctx, visited);
          if name !in ctx.lookup { return Outcome(Err("undefined symbol in linker script expression"), kind); }
          var value := EvaluateInternalSymbol(ctx.lookup[name]);
          if value.Err? { return Outcome(Err(value.message), kind); }
          o := SymbolNumber(ctx, value.value, loc, kind);
        }
        case Binary(op, l, r) => { o := EvaluateBinary(op, l, r, loc, kind); }
        case Unary(op, operand) => {
          var a := EvaluateExpressionValue(operand, loc, kind);
          if a.result.Err? { return a; }
          o := Outcome(ComputeUnary(ctx, op, a.result.value), a.kind);
        }
        case Compare(c, l, r) => { o := EvaluateComparison(c, l, r, loc, kind); }
        case AlignLocation(operand) => {
          var a := EvaluateExpressionValue(operand, loc, kind);
          if a.result.Err? { return a; }
          o := Outcome(AlignedLocation(ctx, loc, a.result.value), a.kind);
        }
        case SegmentStart(segment, operand) => {
          if segment in ctx.segmentStarts { return Outcome(Ok(ctx.segmentStarts[segment]), WithAbsolute(kind)); }
          o := EvaluateExpressionValue(operand, loc, WithAbsolute(kind));
        }
        case Ternary(condition, l, r) => { o := EvaluateTernary(condition, l, r, loc, kind); }
        case _ => { o := EvaluateLeaf(e, loc, kind, Resolved(ctx, visited)); }
      }
    }

    method EvaluateLeaf(e: Expression, loc: Location, kind: Kind, ghost table: Table) returns (o: Outcome)
      requires IsLeaf(e)
      ensures o == Value(ctx, e, loc, table, kind)
    {
      hide EvaluateLocation, SectionNumber, RegionNumber, FactKind, LocationKind;
      match e {
        case Number(n) => { o := Outcome(Ok(n), kind); }
        case LocationCounter => { o := Outcome(EvaluateLocation(ctx, loc), LocationKind(loc, kind)); }
        case AboutSection(fact, section) => { o := Outcome(SectionNumber(ctx, fact, section), FactKind(fact, kind)); }
        case Origin(region) => { o := Outcome(RegionNumber(ctx, true, region), WithAbsolute(kind)); }
        case Length(region) => { o := Outcome(RegionNumber(ctx, false, region), kind); }
        case SizeofHeaders => { o := Outcome(Ok(ctx.sizeofHeaders), kind); }
        case Defined(name) => { o := Outcome(Ok(Truth(name in ctx.lookup)), kind); }
      }
    }

    method EvaluateBinary(op: BinaryOp, l: Expression, r: Expression, loc: Location, kind: Kind) returns (o: Outcome)
      modifies this
      ensures visited == old(visited)
      ensures o == Value(ctx, Binary(op, l, r), loc, Resolved(ctx, old(visited)), kind)
      decreases Unvisited(ctx, visited), Size(l) + Size(r), 2
    {
      hide Resolved, Value, Compute, Early, Unvisited;
      BinaryValue(ctx, op, l, r, loc, Resolved(ctx, visited), kind);
      var first := EvaluateExpressionValue(if RightFirst(op) then r else l, loc, kind);
      if first.result.Err? { return first; }
      var early := Early(op, first.result.value);
      if early.Some? { return Outcome(early.value, first.kind); }
      var second := EvaluateExpressionValue(if RightFirst(op) then l else r, loc, first.kind);
      if second.result.Err? { return second; }
      o := Outcome(Ok(Compute(ctx, op, first.result.value, second.result.value)), second.kind);
    }

    method EvaluateComparison(c: Comparison, l: Expression, r: Expression, loc: Location, kind: Kind) returns (o: Outcome)
      modifies this
      ensures visited == old(visited)
      ensures o == Value(ctx, Compare(c, l, r), loc, Resolved(ctx, old(visited)), kind)
      decreases Unvisited(ctx, visited), Size(l) + Size(r), 2
    {
      hide Resolved, Whole, Holds, Unvisited;
      var a := EvaluateExpression(l, loc);
      if a.Err? { return Outcome(a, kind); }
      var b := EvaluateExpression(r, loc);
      if b.Err? { return Outcome(b, kind); }
      o := Outcome(Ok(Truth(Holds(c, a.value, b.value))), kind);
    }

    method EvaluateTernary(condition: Expression, l: Expression, r: Expression, loc: Location, kind: Kind) returns (o: Outcome)
      modifies this
      ensures visited == old(visited)
      ensures o == Value(ctx, Ternary(condition, l, r), loc, Resolved(ctx, old(visited)), kind)
      decreases Unvisited(ctx, visited), Size(condition) + Size(l) + Size(r), 2
    {
      hide Resolved, Value, Unvisited;
      TernaryValue(ctx, condition, l, r, loc, Resolved(ctx, visited), kind);
      var c := EvaluateExpressionValue(condition, loc, kind);
      if c.result.Err? { return c; }
      o := EvaluateExpressionValue(if c.result.value != 0 then l else r, loc, c.kind);
    }

    method EvaluateExpression(e: Expression, loc: Location) returns (r: Result<int>)
      modifies this
      ensures visited == old(visited)
      ensures r == Whole(ctx, e, loc, Resolved(ctx, old(visited)))
      decreases Unvisited(ctx, visited), Size(e), 1
    {
      hide Resolved, Value, Unvisited;
      var v := EvaluateExpressionValue(e, loc, NO_KIND);
      if v.result.Err? { return v.result; }
      r := Ok(Based(ctx, loc, v.result.value, v.kind));
    }

    method EvaluateInternalSymbol(id: nat) returns (r: Result<SymbolValue>)
      modifies this
      ensures visited == old(visited)
      ensures r == Resolve(ctx, id, old(visited))
      decreases Unvisited(ctx, visited), 0, 0
    {
      hide Resolved, Whole, Unvisited;
      if id !in ctx.defs { return Err("symbol is not defined by an input object"); }
      match ctx.defs[id] {
        case Redirect(e, loc) => {
          if id in visited { return Ok(Absolute(0)); }
          OneFewer(ctx, visited, id);
          ghost var before := visited;
          visited := visited + {id};
          var value := EvaluateExpression(e, loc);
          visited := visited - {id};
          assert visited == before;
          r := Finish(ctx, loc, value);
        }
        case StartOf(section) => { r := Ok(SectionRelative(section, 0)); }
        case EndOf(section) => { r := Ok(SectionRelative(section, Layout(ctx, section).memSize)); }
        case Unsupported => { r := Err("Unsupported symbol type"); }
        case InObject(resolved) => { r := resolved; }
      }
    }
  }

  lemma BinaryValue(ctx: Context, op: BinaryOp, l: Expression, r: Expression, loc: Location, table: Table, kind: Kind)
    ensures var first := Value(ctx, if RightFirst(op) then r else l, loc, table, kind);
            Value(ctx, Binary(op, l, r), loc, table, kind)
            == if Decides(op, first) then Decided(op, first)
               else Operate(ctx, op, first, Value(ctx, if RightFirst(op) then l else r, loc, table, first.kind))
  {
    hide Decides, Decided, Operate, RightFirst;
  }

  lemma TernaryValue(ctx: Context, c: Expression, l: Expression, r: Expression, loc: Location, table: Table, kind: Kind)
    ensures var v := Value(ctx, c, loc, table, kind);
            Value(ctx, Ternary(c, l, r), loc, table, kind)
            == if v.result.Err? then v else Value(ctx, if v.result.value != 0 then l else r, loc, table, v.kind)
  {}

  lemma TableNames(ctx: Context, visited: set<nat>)
    ensures forall name: string :: name in Resolved(ctx, visited) <==> name in ctx.lookup
    ensures forall name: string :: name in ctx.lookup ==>
              Resolved(ctx, visited)[name] == Resolve(ctx, ctx.lookup[name], visited)
  {
    hide Resolve;
  }

  // ----- Only the symbols mentioned matter -----------------------------------------------------

  // The symbols whose value an expression may ask for.
  function Mentions(e: Expression): set<string> {
    match e
    case Symbol(name) => {name}
    case Binary(_, l, r) => Mentions(l) + Mentions(r)
    case Unary(_, a) => Mentions(a)
    case Compare(_, l, r) => Mentions(l) + Mentions(r)
    case AlignLocation(a) => Mentions(a)
    case SegmentStart(_, a) => Mentions(a)
    case Ternary(c, l, r) => Mentions(c) + Mentions(l) + Mentions(r)
    case _ => {}
  }

  ghost predicate SameFor(names: set<string>, t: Table, u: Table) {
    forall name :: name in names ==> (name in t <==> name in u) && (name in t ==> t[name] == u[name])
  }

  lemma {:induction false} ValueDependsOnMentions(ctx: Context, e: Expression, loc: Location, t: Table, u: Table, kind: Kind)
    requires SameFor(Mentions(e), t, u)
    ensures Value(ctx, e, loc, t, kind) == Value(ctx, e, loc, u, kind)
    decreases e, 0
  {
    hide SymbolNumber, EvaluateLocation, SectionNumber, Decides, Decided, Operate, ComputeUnary, Based, Whole, RightFirst,
         RegionNumber, AlignedLocation, Holds, FactKind, LocationKind;
    match e {
      case Binary(op, l, r) => { BinaryDependsOnMentions(ctx, op, l, r, loc, t, u, kind); }
      case Unary(_, a) => { ValueDependsOnMentions(ctx, a, loc, t, u, kind); }
      case Compare(c, l, r) => { ComparisonDependsOnMentions(ctx, c, l, r, loc, t, u, kind); }
      case AlignLocation(a) => { ValueDependsOnMentions(ctx, a, loc, t, u, kind); }
      case SegmentStart(_, a) => { ValueDependsOnMentions(ctx, a, loc, t, u, WithAbsolute(kind)); }
      case Ternary(c, l, r) => { TernaryDependsOnMentions(ctx, c, l, r, loc, t, u, kind); }
      case Symbol(_) => {}
      case _ => { LeafIgnoresTable(ctx, e, loc, t, u, kind); }
    }
  }

  lemma LeafIgnoresTable(ctx: Context, e: Expression, loc: Location, t: Table, u: Table, kind: Kind)
    requires IsLeaf(e)
    ensures Value(ctx, e, loc, t, kind) == Value(ctx, e, loc, u, kind)
  {
    hide EvaluateLocation, SectionNumber, RegionNumber, FactKind, LocationKind;
  }

  lemma {:induction false} ComparisonDependsOnMentions(ctx: Context, c: Comparison, l: Expression, r: Expression,
                                                       loc: Location, t: Table, u: Table, kind: Kind)
    requires SameFor(Mentions(l) + Mentions(r), t, u)
    ensures Value(ctx, Compare(c, l, r), loc, t, kind) == Value(ctx, Compare(c, l, r), loc, u, kind)
    decreases Compare(c, l, r), -1
  {
    hide Whole, Holds;
    WholeDependsOnMentions(ctx, l, loc, t, u);
    WholeDependsOnMentions(ctx, r, loc, t, u);
  }

  lemma {:induction false} TernaryDependsOnMentions(ctx: Context, c: Expression, l: Expression, r: Expression,
                                                    loc: Location, t: Table, u: Table, kind: Kind)
    requires SameFor(Mentions(c) + Mentions(l) + Mentions(r), t, u)
    ensures Value(ctx, Ternary(c, l, r), loc, t, kind) == Value(ctx, Ternary(c, l, r), loc, u, kind)
    decreases Ternary(c, l, r), -1
  {
    hide Value;
    TernaryValue(ctx, c, l, r, loc, t, kind);
    TernaryValue(ctx, c, l, r, loc, u, kind);
    ValueDependsOnMentions(ctx, c, loc, t, u, kind);
    var k := Value(ctx, c, loc, t, kind).kind;
    ValueDependsOnMentions(ctx, l, loc, t, u, k);
    ValueDependsOnMentions(ctx, r, loc, t, u, k);
  }

  lemma {:induction false} BinaryDependsOnMentions(ctx: Context, op: BinaryOp, l: Expression, r: Expression, loc: Location,
                                                   t: Table, u: Table, kind: Kind)
    requires SameFor(Mentions(l) + Mentions(r), t, u)
    ensures Value(ctx, Binary(op, l, r), loc, t, kind) == Value(ctx, Binary(op, l, r), loc, u, kind)
    decreases Binary(op, l, r), -1
  {
    hide Value, Decides, Decided, Operate;
    BinaryValue(ctx, op, l, r, loc, t, kind);
    BinaryValue(ctx, op, l, r, loc, u, kind);
    var a, b := if RightFirst(op) then r else l, if RightFirst(op) then l else r;
    ValueDependsOnMentions(ctx, a, loc, t, u, kind);
    ValueDependsOnMentions(ctx, b, loc, t, u, Value(ctx, a, loc, t, kind).kind);
  }

  lemma {:induction false} WholeDependsOnMentions(ctx: Context, e: Expression, loc: Location, t: Table, u: Table)
    requires SameFor(Mentions(e), t, u)
    ensures Whole(ctx, e, loc, t) == Whole(ctx, e, loc, u)
    decreases e, 1
  {
    hide Value, Based;
    ValueDependsOnMentions(ctx, e, loc, t, u, NO_KIND);
  }

  // ----- Without cycles ------------------------------------------------------------------------

  // The symbols defined by expressions can be put in order, each after those it mentions.
  ghost predicate Acyclic(ctx: Context, rank: map<nat, nat>) {
    && (forall id :: id in ctx.defs ==> id in rank)
    && forall id, name ::
         (id in ctx.defs && ctx.defs[id].Redirect? && name in Mentions(ctx.defs[id].expression)
          && name in ctx.lookup && ctx.lookup[name] in ctx.defs)
         ==> rank[ctx.lookup[name]] < rank[id]
  }

  ghost predicate AllAbove(rank: map<nat, nat>, visited: set<nat>, n: nat) {
    forall v :: v in visited ==> v in rank && n < rank[v]
  }

  // A symbol is the same whatever symbols further up are being evaluated: the cut never fires.
  lemma {:induction false} VisitedDoesNotMatter(ctx: Context, rank: map<nat, nat>, id: nat, v: set<nat>, w: set<nat>)
    requires Acyclic(ctx, rank) && id in ctx.defs && AllAbove(rank, v, rank[id]) && AllAbove(rank, w, rank[id])
    ensures Resolve(ctx, id, v) == Resolve(ctx, id, w)
    decreases rank[id]
  {
    hide Whole, Resolved;
    var def := ctx.defs[id];
    if def.Redirect? {
      var t, u := Resolved(ctx, v + {id}), Resolved(ctx, w + {id});
      forall name | name in Mentions(def.expression)
        ensures (name in t <==> name in u) && (name in t ==> t[name] == u[name])
      {
        TableNames(ctx, v + {id});
        TableNames(ctx, w + {id});
        if name in ctx.lookup && ctx.lookup[name] in ctx.defs {
          VisitedDoesNotMatter(ctx, rank, ctx.lookup[name], v + {id}, w + {id});
        }
      }
      WholeDependsOnMentions(ctx, def.expression, def.loc, t, u);
    }
  }

  // The plain meaning of a script: values for all symbols that satisfy every definition at once.
  type Meaning = map<nat, Result<SymbolValue>>

  function TableOf(ctx: Context, m: Meaning): Table {
    map name | name in ctx.lookup ::
      if ctx.lookup[name] in m then m[ctx.lookup[name]] else Err("symbol is not defined by an input object")
  }

  ghost predicate Satisfies(ctx: Context, m: Meaning) {
    m.Keys == ctx.defs.Keys && forall id :: id in ctx.defs ==> m[id] == Define(ctx, ctx.defs[id], TableOf(ctx, m))
  }

  function Evaluated(ctx: Context): Meaning {
    map id | id in ctx.defs :: Resolve(ctx, id, {})
  }

  lemma AboveItself(ctx: Context, rank: map<nat, nat>, id: nat, name: string)
    requires Acyclic(ctx, rank) && id in ctx.defs && ctx.defs[id].Redirect? && name in Mentions(ctx.defs[id].expression)
    requires name in ctx.lookup && ctx.lookup[name] in ctx.defs
    ensures AllAbove(rank, {id}, rank[ctx.lookup[name]])
  {}

  // Without cycles, evaluation satisfies every definition.
  lemma EvaluationSatisfies(ctx: Context, rank: map<nat, nat>)
    requires Acyclic(ctx, rank)
    ensures Satisfies(ctx, Evaluated(ctx))
  {
    hide Define, Resolve;
    forall id | id in ctx.defs ensures Resolve(ctx, id, {}) == Define(ctx, ctx.defs[id], TableOf(ctx, Evaluated(ctx))) {
      OneSatisfies(ctx, rank, id);
    }
  }

  lemma OneSatisfies(ctx: Context, rank: map<nat, nat>, id: nat)
    requires Acyclic(ctx, rank) && id in ctx.defs
    ensures Resolve(ctx, id, {}) == Define(ctx, ctx.defs[id], TableOf(ctx, Evaluated(ctx)))
  {
    hide Whole, Resolved;
    var def := ctx.defs[id];
    if def.Redirect? {
      var t, u := Resolved(ctx, {} + {id}), TableOf(ctx, Evaluated(ctx));
      forall name | name in Mentions(def.expression)
        ensures (name in t <==> name in u) && (name in t ==> t[name] == u[name])
      {
        hide Resolve;
        TableNames(ctx, {} + {id});
        if name in ctx.lookup && ctx.lookup[name] in ctx.defs {
          AboveItself(ctx, rank, id, name);
          VisitedDoesNotMatter(ctx, rank, ctx.lookup[name], {} + {id}, {});
        } else if name in ctx.lookup {
          UndefinedSymbol(ctx, ctx.lookup[name], {} + {id});
        }
      }
      WholeDependsOnMentions(ctx, def.expression, def.loc, t, u);
    }
  }

  lemma UndefinedSymbol(ctx: Context, id: nat, visited: set<nat>)
    requires id !in ctx.defs
    ensures Resolve(ctx, id, visited) == Err("symbol is not defined by an input object")
  {}

  // And nothing else does: evaluation computes the only meaning there is.
  lemma {:induction false} MeaningIsUnique(ctx: Context, rank: map<nat, nat>, m: Meaning, n: Meaning, id: nat)
    requires Acyclic(ctx, rank) && Satisfies(ctx, m) && Satisfies(ctx, n) && id in ctx.defs
    ensures m[id] == n[id]
    decreases rank[id]
  {
    hide Whole;
    var def := ctx.defs[id];
    if def.Redirect? {
      forall name | name in Mentions(def.expression)
        ensures (name in TableOf(ctx, m) <==> name in TableOf(ctx, n))
                && (name in TableOf(ctx, m) ==> TableOf(ctx, m)[name] == TableOf(ctx, n)[name])
      {
        if name in ctx.lookup && ctx.lookup[name] in ctx.defs { MeaningIsUnique(ctx, rank, m, n, ctx.lookup[name]); }
      }
      WholeDependsOnMentions(ctx, def.expression, def.loc, TableOf(ctx, m), TableOf(ctx, n));
    }
  }

  // ----- With cycles ---------------------------------------------------------------------------

  function Next(name: string): Definition {
    Redirect(Binary(Add, Symbol(name), Number(1)), Nowhere)
  }

  // Places beyond the end of the ring are counted on from its start.
  function Wrap(p: nat, n: nat): nat {
    if p < n then p else p - n
  }

  // Symbols 0, 1, 2 and so on, each one more than the next, and the last one more than the first.
  ghost predicate Ring(ctx: Context, names: seq<string>) {
    && names != []
    && forall i :: 0 <= i < |names| ==>
         && names[i] in ctx.lookup && ctx.lookup[names[i]] == i
         && i in ctx.defs && ctx.defs[i] == Next(names[Wrap(i + 1, |names|)])
  }

  lemma NextValue(ctx: Context, name: string, table: Table, v: int)
    requires name in table && table[name] == Ok(Absolute(v)) && 0 <= v < TWO_64 - 1
    ensures Define(ctx, Next(name), table) == Ok(Absolute(v + 1))
  {
    var e := Binary(Add, Symbol(name), Number(1));
    assert Value(ctx, Symbol(name), Nowhere, table, NO_KIND) == Outcome(Ok(v), Kind(true, false));
    assert Value(ctx, e, Nowhere, table, NO_KIND) == Outcome(Ok((v + 1) % TWO_64), Kind(true, false));
  }

  // The m symbols from place p of the ring on are not being evaluated, and the one after them is.
  ghost predicate FreeFrom(visited: set<nat>, n: nat, p: nat, m: nat) {
    && m <= n && p + m < 2 * n
    && (forall q: nat :: p <= q < p + m ==> Wrap(q, n) !in visited)
    && (m < n ==> Wrap(p + m, n) in visited)
  }

  lemma OneLessFree(visited: set<nat>, n: nat, p: nat, m: nat)
    requires m > 0 && FreeFrom(visited, n, p, m)
    ensures FreeFrom(visited + {Wrap(p, n)}, n, p + 1, m - 1) && Wrap(p, n) !in visited
  {}

  // Evaluation counts the symbols up to the first that is under evaluation.
  lemma {:induction false} RingValue(ctx: Context, names: seq<string>, visited: set<nat>, p: nat, m: nat)
    requires Ring(ctx, names) && |names| < TWO_64 - 1 && FreeFrom(visited, |names|, p, m)
    ensures Resolve(ctx, Wrap(p, |names|), visited) == Ok(Absolute(m))
    decreases m
  {
    hide Whole, Define, Resolved, Value;
    var n := |names|;
    var id := Wrap(p, n);
    if m > 0 {
      var next := names[Wrap(id + 1, n)];
      OneLessFree(visited, n, p, m);
      RingValue(ctx, names, visited + {id}, p + 1, m - 1);
      TableNames(ctx, visited + {id});
      hide FreeFrom;
      NextValue(ctx, next, Resolved(ctx, visited + {id}), m - 1);
    } else {
      assert p + m == p && id in visited;
      assert ctx.defs[id] == Next(names[Wrap(id + 1, n)]) && ctx.defs[id].Redirect?;
    }
  }

  // In a ring every evaluation still ends, but the cut makes the result depend on where it starts: each
  // symbol comes out as the number of symbols, and as one less if the one before it asks for it. So none
  // is one more than the next.
  lemma CutChangesMeaning(ctx: Context, names: seq<string>, i: nat)
    requires Ring(ctx, names) && i < |names| < TWO_64 - 1
    ensures var n, next := |names|, Wrap(i + 1, |names|);
            && Resolve(ctx, i, {}) == Ok(Absolute(n)) && Resolve(ctx, next, {i}) == Ok(Absolute(n - 1))
            && Evaluated(ctx)[i] != Define(ctx, ctx.defs[i], TableOf(ctx, Evaluated(ctx)))
            && !Satisfies(ctx, Evaluated(ctx))
  {
    hide Whole, Define, Resolved, Value, Resolve;
    var n := |names|;
    RingValue(ctx, names, {}, i, n);
    assert {} + {i} == {i};
    OneLessFree({}, n, i, n);
    RingValue(ctx, names, {i}, i + 1, n - 1);
    RingValue(ctx, names, {}, Wrap(i + 1, n), n);
    NextValue(ctx, names[Wrap(i + 1, n)], TableOf(ctx, Evaluated(ctx)), n);
  }

  // a = b + 1; b = a + 1;
  lemma RingOfTwo(ctx: Context)
    requires ctx.lookup == map["a" := 0, "b" := 1] && ctx.defs == map[0 := Next("b"), 1 := Next("a")]
    ensures Ring(ctx, ["a", "b"])
  {}
}
