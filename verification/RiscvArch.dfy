// The architecture string of RISC-V attributes: printed with versions, parsed from the end of each part.
module RiscvArch {
  import opened Words
  import opened Leb128

  const UNDERSCORE: Byte := 95
  const LETTER_P: Byte := 112
  const ZERO: Byte := 48

  datatype Component = Component(name: seq<Byte>, major: nat, minor: nat)

  // ----- Printing ------------------------------------------------------------------------------

  function Decimal(n: nat): seq<Byte> {
    if n < 10 then [ZERO + n] else Decimal(n / 10) + [ZERO + n % 10]
  }

  function PrintComponent(c: Component): seq<Byte> {
    c.name + Decimal(c.major) + [LETTER_P] + Decimal(c.minor)
  }

  function Join(parts: seq<seq<Byte>>): seq<Byte> {
    if parts == [] then [] else if |parts| == 1 then parts[0] else parts[0] + [UNDERSCORE] + Join(parts[1..])
  }

  function Parts(components: seq<Component>): (r: seq<seq<Byte>>)
    ensures |r| == |components| && forall i :: 0 <= i < |r| ==> r[i] == PrintComponent(components[i])
  {
    if components == [] then [] else [PrintComponent(components[0])] + Parts(components[1..])
  }

  function ToAttributeString(components: seq<Component>): seq<Byte> {
    Join(Parts(components))
  }

  // ----- Parsing -------------------------------------------------------------------------------

  function Split(text: seq<Byte>): (r: seq<seq<Byte>>)
    ensures |r| > 0 && forall i :: 0 <= i < |r| ==> Lacks(r[i], UNDERSCORE)
    ensures forall i :: 0 <= i < |r| && Lacks(text, NUL) ==> Lacks(r[i], NUL)
  {
    if text == [] then [[]]
    else if text[0] == UNDERSCORE then [[]] + Split(text[1..])
    else
      var more := Split(text[1..]);
      [[text[0]] + more[0]] + more[1..]
  }

  predicate IsDigit(b: Byte) {
    ZERO <= b < ZERO + 10
  }

  // From the end: one digit, a p, one digit, and the rest is the name.
  function ParseComponent(part: seq<Byte>): Result<Component> {
    var n := |part|;
    if n == 0 then Err("Cannot parse minor")
    else if n == 1 then Err("Cannot parse 'p' separator")
    else if part[n - 2] != LETTER_P then Err("Separator expected")
    else if n == 2 then Err("Cannot parse major")
    else if !IsDigit(part[n - 3]) || !IsDigit(part[n - 1]) then Err("invalid digit found in string")
    else Ok(Component(part[..n - 3], part[n - 3] - ZERO, part[n - 1] - ZERO))
  }

  // An insertion into an ordered map: a name that is there keeps its place and takes the new versions.
  function Put(components: seq<Component>, c: Component): seq<Component> {
    if components == [] then [c]
    else if components[0].name == c.name then [c] + components[1..]
    else [components[0]] + Put(components[1..], c)
  }

  function ParseParts(parts: seq<seq<Byte>>): Result<seq<Component>> {
    if parts == [] then Ok([])
    else
      var front := ParseParts(parts[..|parts| - 1]);
      var last := ParseComponent(parts[|parts| - 1]);
      if front.Err? then front else if last.Err? then Err(last.message) else Ok(Put(front.value, last.value))
  }

  function ParseArch(text: seq<Byte>): Result<seq<Component>> {
    ParseParts(Split(text))
  }

  // ----- What comes back -----------------------------------------------------------------------

  predicate ComponentOk(c: Component) {
    Lacks(c.name, UNDERSCORE) && Lacks(c.name, NUL) && c.major < 10 && c.minor < 10
  }

  ghost predicate Distinct(components: seq<Component>) {
    forall i, j :: 0 <= i < j < |components| ==> components[i].name != components[j].name
  }

  // Some components, distinct names free of separators, and one-digit versions.
  ghost predicate ArchOk(components: seq<Component>) {
    components != [] && Distinct(components) && forall i :: 0 <= i < |components| ==> ComponentOk(components[i])
  }

  lemma ComponentRoundTrip(c: Component)
    requires c.major < 10 && c.minor < 10
    ensures ParseComponent(PrintComponent(c)) == Ok(c)
  {
    var part := PrintComponent(c);
    assert part == c.name + [ZERO + c.major, LETTER_P, ZERO + c.minor];
    assert part[..|part| - 3] == c.name;
  }

  // What becomes of longer versions: all but the last digit of a major go to the name, and a minor cannot
  // be read at all.
  lemma LongVersions(c: Component)
    ensures c.major >= 10 && c.minor < 10 ==>
              ParseComponent(PrintComponent(c)) == Ok(Component(c.name + Decimal(c.major / 10), c.major % 10, c.minor))
    ensures c.minor >= 10 ==> ParseComponent(PrintComponent(c)).Err?
  {
    var part := PrintComponent(c);
    LastDigit(c.major);
    LastDigit(c.minor);
    if c.minor < 10 && c.major >= 10 {
      var name := c.name + Decimal(c.major / 10);
      assert part == name + [ZERO + c.major % 10, LETTER_P, ZERO + c.minor];
      assert part[..|part| - 3] == name;
    } else if c.minor >= 10 {
      var front := Decimal(c.minor / 10);
      LastDigit(c.minor / 10);
      assert part[|part| - 2] == front[|front| - 1];
    }
  }

  lemma LastDigit(n: nat)
    ensures |Decimal(n)| > 0 && IsDigit(Decimal(n)[|Decimal(n)| - 1])
    ensures n >= 10 ==> Decimal(n) == Decimal(n / 10) + [ZERO + n % 10]
  {}

  lemma PrintedLacks(c: Component, b: Byte)
    requires Lacks(c.name, b) && c.major < 10 && c.minor < 10 && !IsDigit(b) && b != LETTER_P
    ensures Lacks(PrintComponent(c), b)
  {
    assert PrintComponent(c) == c.name + [ZERO + c.major, LETTER_P, ZERO + c.minor];
  }

  lemma {:induction false} SplitPart(part: seq<Byte>, rest: seq<Byte>)
    requires Lacks(part, UNDERSCORE)
    ensures Split(part + [UNDERSCORE] + rest) == [part] + Split(rest)
    ensures Split(part) == [part]
  {
    var text := part + [UNDERSCORE] + rest;
    if part == [] {
      assert text[1..] == rest;
    } else {
      assert part[0] in part;
      SplitPart(part[1..], rest);
      assert text[1..] == part[1..] + [UNDERSCORE] + rest;
      assert [part[0]] + part[1..] == part;
    }
  }

  lemma {:induction false} SplitJoin(parts: seq<seq<Byte>>)
    requires parts != [] && forall i :: 0 <= i < |parts| ==> Lacks(parts[i], UNDERSCORE)
    ensures Split(Join(parts)) == parts
  {
    hide Split, Lacks;
    if |parts| == 1 {
      SplitPart(parts[0], []);
    } else {
      SplitPart(parts[0], Join(parts[1..]));
      SplitJoin(parts[1..]);
    }
  }

  lemma {:induction false} JoinLacks(parts: seq<seq<Byte>>, b: Byte)
    requires b != UNDERSCORE && forall i :: 0 <= i < |parts| ==> Lacks(parts[i], b)
    ensures Lacks(Join(parts), b)
  {
    if |parts| > 1 { JoinLacks(parts[1..], b); }
  }

  lemma {:induction false} PutNew(components: seq<Component>, c: Component)
    requires forall i :: 0 <= i < |components| ==> components[i].name != c.name
    ensures Put(components, c) == components + [c]
  {
    if components != [] { PutNew(components[1..], c); }
  }

  // Parts that parse to components with distinct names.
  lemma {:induction false} PartsRoundTrip(components: seq<Component>, n: nat)
    requires n <= |components| && Distinct(components)
    requires forall i :: 0 <= i < |components| ==> ComponentOk(components[i])
    ensures ParseParts(Parts(components)[..n]) == Ok(components[..n])
  {
    hide ParseComponent, PrintComponent, Parts;
    if n > 0 {
      var parts := Parts(components);
      assert parts[..n][..n - 1] == parts[..n - 1];
      PartsRoundTrip(components, n - 1);
      ComponentRoundTrip(components[n - 1]);
      PutNew(components[..n - 1], components[n - 1]);
      assert components[..n] == components[..n - 1] + [components[n - 1]];
    }
  }

  lemma ArchRoundTrip(components: seq<Component>)
    requires ArchOk(components)
    ensures ParseArch(ToAttributeString(components)) == Ok(components) && Lacks(ToAttributeString(components), NUL)
  {
    hide Split, Join, ParseParts, PrintComponent, Lacks;
    var parts := Parts(components);
    forall i | 0 <= i < |parts| ensures Lacks(parts[i], UNDERSCORE) && Lacks(parts[i], NUL) {
      assert ComponentOk(components[i]);
      PrintedLacks(components[i], UNDERSCORE);
      PrintedLacks(components[i], NUL);
    }
    SplitJoin(parts);
    JoinLacks(parts, NUL);
    PartsRoundTrip(components, |components|);
    assert parts[..|parts|] == parts && components[..|components|] == components;
  }

  // ----- What the parser can return ------------------------------------------------------------

  lemma ParsedComponent(part: seq<Byte>)
    requires Lacks(part, UNDERSCORE) && Lacks(part, NUL)
    ensures var r := ParseComponent(part); r.Ok? ==> ComponentOk(r.value)
  {}

  lemma {:induction false} PutKeepsOk(components: seq<Component>, c: Component)
    requires Distinct(components) && ComponentOk(c)
    requires forall i :: 0 <= i < |components| ==> ComponentOk(components[i])
    ensures ArchOk(Put(components, c))
    ensures forall i :: 0 <= i < |Put(components, c)| ==>
              Put(components, c)[i].name == c.name || exists j :: 0 <= j < |components| && components[j].name == Put(components, c)[i].name
  {
    hide ComponentOk;
    if components != [] && components[0].name != c.name {
      var tail := components[1..];
      PutKeepsOk(tail, c);
      var more := Put(tail, c);
      forall i | 0 <= i < |more| ensures more[i].name != components[0].name {
        if j :| 0 <= j < |tail| && tail[j].name == more[i].name {
          assert components[j + 1].name == more[i].name;
        }
      }
      forall i | 0 <= i < |more|
        ensures more[i].name == c.name || exists j :: 0 <= j < |components| && components[j].name == more[i].name
      {
        if j :| 0 <= j < |tail| && tail[j].name == more[i].name {
          assert components[j + 1].name == more[i].name;
        }
      }
    }
  }

  lemma {:induction false} ParsedPartsOk(parts: seq<seq<Byte>>)
    requires forall i :: 0 <= i < |parts| ==> Lacks(parts[i], UNDERSCORE) && Lacks(parts[i], NUL)
    ensures var r := ParseParts(parts);
            r.Ok? ==> (parts == [] ==> r.value == []) && (parts != [] ==> ArchOk(r.value))
  {
    hide ParseComponent, Put, Lacks, ComponentOk;
    if parts != [] {
      ParsedPartsOk(parts[..|parts| - 1]);
      ParsedComponent(parts[|parts| - 1]);
      var front, last := ParseParts(parts[..|parts| - 1]), ParseComponent(parts[|parts| - 1]);
      if front.Ok? && last.Ok? { PutKeepsOk(front.value, last.value); }
    }
  }

  // Whatever the text, the parser returns only what the printer can print back.
  lemma ParsedArchOk(text: seq<Byte>)
    requires Lacks(text, NUL)
    ensures var r := ParseArch(text); r.Ok? ==> ArchOk(r.value)
  {
    ParsedPartsOk(Split(text));
  }
}
