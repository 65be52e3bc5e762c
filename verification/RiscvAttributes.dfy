// The .riscv.attributes section: what is reserved, what is written and what reading it gives.
module RiscvAttributes {
  import opened Words
  import opened Leb128
  import opened RiscvArch

  const WHOLE_FILE: nat := 1
  const STACK_ALIGN: nat := 4
  const ARCH: nat := 5
  const UNALIGNED_ACCESS: nat := 6
  const PRIV_SPEC: nat := 8
  const PRIV_SPEC_MINOR: nat := 10
  const PRIV_SPEC_REVISION: nat := 12

  const LETTER_A: Byte := 65

  function Vendor(): (r: seq<Byte>)
    ensures |r| == 5 && Lacks(r, NUL)
  {
    [114, 105, 115, 99, 118]
  }

  datatype Attribute = StackAlign(align: nat) | Arch(components: seq<Component>) | UnalignedAccess(access: bool)
                     | PrivilegedSpecMajor(version: nat) | PrivilegedSpecMinor(version: nat)
                     | PrivilegedSpecRevision(version: nat)

  // ----- Writing -------------------------------------------------------------------------------

  function WriteAttribute(a: Attribute): seq<Byte> {
    match a
    case StackAlign(align) => WriteUleb(STACK_ALIGN) + WriteUleb(align)
    case Arch(components) => WriteUleb(ARCH) + (ToAttributeString(components) + [NUL])
    case UnalignedAccess(access) => WriteUleb(UNALIGNED_ACCESS) + WriteUleb(if access then 1 else 0)
    case PrivilegedSpecMajor(version) => WriteUleb(PRIV_SPEC) + WriteUleb(version)
    case PrivilegedSpecMinor(version) => WriteUleb(PRIV_SPEC_MINOR) + WriteUleb(version)
    case PrivilegedSpecRevision(version) => WriteUleb(PRIV_SPEC_REVISION) + WriteUleb(version)
  }

  function WriteAttributes(attributes: seq<Attribute>): seq<Byte> {
    if attributes == [] then [] else WriteAttribute(attributes[0]) + WriteAttributes(attributes[1..])
  }

  function Header(sectionSize: nat): seq<Byte> {
    [LETTER_A] + Le32((sectionSize - 1) % TWO_32) + (Vendor() + [NUL]) + WriteUleb(WHOLE_FILE)
    + Le32((sectionSize - 11) % TWO_32)
  }

  // ----- Sizes ---------------------------------------------------------------------------------

  function AttributeSize(a: Attribute): nat {
    match a
    case StackAlign(align) => UlebSize(STACK_ALIGN) + UlebSize(align)
    case Arch(components) => UlebSize(ARCH) + |ToAttributeString(components)| + 1
    case UnalignedAccess(_) => UlebSize(UNALIGNED_ACCESS) + 1
    case PrivilegedSpecMajor(version) => UlebSize(PRIV_SPEC) + UlebSize(version)
    case PrivilegedSpecMinor(version) => UlebSize(PRIV_SPEC_MINOR) + UlebSize(version)
    case PrivilegedSpecRevision(version) => UlebSize(PRIV_SPEC_REVISION) + UlebSize(version)
  }

  function TotalSize(attributes: seq<Attribute>): nat {
    if attributes == [] then 0 else AttributeSize(attributes[0]) + TotalSize(attributes[1..])
  }

  function SectionSize(attributes: seq<Attribute>): nat {
    if attributes == [] then 0
    else 1 + 4 + UlebSize(WHOLE_FILE) + 4 + |Vendor()| + 1 + TotalSize(attributes)
  }

  lemma OneSize(a: Attribute)
    ensures |WriteAttribute(a)| == AttributeSize(a)
  {
    hide WriteUleb, UlebSize, ToAttributeString;
    if a.UnalignedAccess? { BooleanSize(a.access); }
  }

  lemma BooleanSize(b: bool)
    ensures |WriteUleb(if b then 1 else 0)| == 1
  {}

  lemma {:induction false} AllSizes(attributes: seq<Attribute>)
    ensures |WriteAttributes(attributes)| == TotalSize(attributes)
  {
    hide WriteAttribute, AttributeSize;
    if attributes != [] {
      OneSize(attributes[0]);
      AllSizes(attributes[1..]);
    }
  }

  function Section(attributes: seq<Attribute>): seq<Byte> {
    Header(SectionSize(attributes)) + WriteAttributes(attributes)
  }

  // What is written is what was reserved.
  lemma SizesAgree(attributes: seq<Attribute>)
    requires attributes != []
    ensures |Section(attributes)| == SectionSize(attributes) == 16 + TotalSize(attributes)
  {
    hide WriteAttributes, TotalSize;
    AllSizes(attributes);
    SmallTag();
  }

  lemma SmallTag()
    ensures WriteUleb(WHOLE_FILE) == [1] && UlebSize(WHOLE_FILE) == 1
  {}

  // A buffer with a position, as the writer sees the room it was given.
  class Cursor {
    const buffer: array<Byte>
    var pos: nat

    constructor (b: array<Byte>)
      ensures buffer == b && pos == 0
    {
      buffer, pos := b, 0;
    }

    method WriteAll(data: seq<Byte>) returns (r: Result<()>)
      requires pos <= buffer.Length
      modifies this`pos, buffer
      ensures pos <= buffer.Length
      ensures r.Ok? <==> old(pos) + |data| <= buffer.Length
      ensures r.Ok? ==> pos == old(pos) + |data| && buffer[..pos] == old(buffer[..pos]) + data
    {
      if pos + |data| > buffer.Length { return Err("failed to write whole buffer"); }
      var start := pos;
      for i := 0 to |data|
        invariant pos == start && buffer[..start + i] == old(buffer[..pos]) + data[..i]
      {
        buffer[start + i] := data[i];
      }
      pos := pos + |data|;
      r := Ok(());
    }
  }

  method WriteRiscvAttribute(writer: Cursor, a: Attribute) returns (r: Result<()>)
    requires writer.pos <= writer.buffer.Length
    modifies writer`pos, writer.buffer
    ensures writer.pos <= writer.buffer.Length
    ensures r.Ok? <==> old(writer.pos) + |WriteAttribute(a)| <= writer.buffer.Length
    ensures r.Ok? ==> writer.pos == old(writer.pos) + |WriteAttribute(a)|
                      && writer.buffer[..writer.pos] == old(writer.buffer[..writer.pos]) + WriteAttribute(a)
  {
    hide WriteUleb, ToAttributeString;
    var tag, value := 0, [];
    match a {
      case StackAlign(align) => { tag, value := STACK_ALIGN, WriteUleb(align); }
      case Arch(components) => { tag, value := ARCH, ToAttributeString(components) + [NUL]; }
      case UnalignedAccess(access) => { tag, value := UNALIGNED_ACCESS, WriteUleb(if access then 1 else 0); }
      case PrivilegedSpecMajor(version) => { tag, value := PRIV_SPEC, WriteUleb(version); }
      case PrivilegedSpecMinor(version) => { tag, value := PRIV_SPEC_MINOR, WriteUleb(version); }
      case PrivilegedSpecRevision(version) => { tag, value := PRIV_SPEC_REVISION, WriteUleb(version); }
    }
    assert WriteAttribute(a) == WriteUleb(tag) + value;
    r := WriteTagged(writer, WriteUleb(tag), value);
  }

  method WriteTagged(writer: Cursor, tag: seq<Byte>, value: seq<Byte>) returns (r: Result<()>)
    requires writer.pos <= writer.buffer.Length
    modifies writer`pos, writer.buffer
    ensures writer.pos <= writer.buffer.Length
    ensures r.Ok? <==> old(writer.pos) + |tag + value| <= writer.buffer.Length
    ensures r.Ok? ==> writer.pos == old(writer.pos) + |tag + value|
                      && writer.buffer[..writer.pos] == old(writer.buffer[..writer.pos]) + (tag + value)
  {
    r := writer.WriteAll(tag);
    if r.Err? { return; }
    r := writer.WriteAll(value);
  }

  method WriteHeader(writer: Cursor, sectionSize: nat) returns (r: Result<()>)
    requires writer.pos == 0
    modifies writer`pos, writer.buffer
    ensures writer.pos <= writer.buffer.Length
    ensures r.Ok? <==> |Header(sectionSize)| <= writer.buffer.Length
    ensures r.Ok? ==> writer.pos == |Header(sectionSize)| && writer.buffer[..writer.pos] == Header(sectionSize)
  {
    hide WriteUleb, Le32, Vendor;
    var a, b, c, d, e := [LETTER_A], Le32((sectionSize - 1) % TWO_32), Vendor() + [NUL], WriteUleb(WHOLE_FILE),
                         Le32((sectionSize - 11) % TWO_32);
    r := writer.WriteAll(a);
    if r.Err? { return; }
    r := writer.WriteAll(b);
    if r.Err? { return; }
    r := writer.WriteAll(c);
    if r.Err? { return; }
    r := writer.WriteAll(d);
    if r.Err? { return; }
    r := writer.WriteAll(e);
  }

  // The buffer has the reserved size, and the writer fills it.
  method WriteRiscvAttributes(attributes: seq<Attribute>, buffer: array<Byte>) returns (r: Result<()>)
    requires attributes != [] && buffer.Length == SectionSize(attributes)
    modifies buffer
    ensures r.Ok? && buffer[..] == Section(attributes)
  {
    hide WriteAttribute, WriteAttributes, Header, SectionSize, TotalSize;
    var writer := new Cursor(buffer);
    SizesAgree(attributes);
    var header := WriteHeader(writer, SectionSize(attributes));
    NothingWritten();
    assert attributes[..0] == [];
    for i := 0 to |attributes|
      invariant writer.pos <= buffer.Length
      invariant buffer[..writer.pos] == Header(SectionSize(attributes)) + WriteAttributes(attributes[..i])
    {
      OneMore(attributes, i);
      var one := WriteRiscvAttribute(writer, attributes[i]);
    }
    assert attributes[..|attributes|] == attributes && writer.pos == buffer.Length;
    assert buffer[..writer.pos] == buffer[..];
    r := Ok(());
  }

  lemma NothingWritten()
    ensures WriteAttributes([]) == []
  {}

  lemma {:induction false} WriteConcat(a: seq<Attribute>, b: seq<Attribute>)
    ensures WriteAttributes(a + b) == WriteAttributes(a) + WriteAttributes(b)
  {
    hide WriteAttribute;
    if a == [] {
      assert a + b == b;
    } else {
      assert (a + b)[1..] == a[1..] + b;
      WriteConcat(a[1..], b);
    }
  }

  lemma OneMore(attributes: seq<Attribute>, i: nat)
    requires i < |attributes|
    ensures WriteAttributes(attributes[..i + 1]) == WriteAttributes(attributes[..i]) + WriteAttribute(attributes[i])
    ensures |WriteAttributes(attributes[..i])| + |WriteAttribute(attributes[i])| <= |WriteAttributes(attributes)|
  {
    hide WriteAttribute;
    var one := [attributes[i]];
    assert WriteAttributes(one) == WriteAttribute(attributes[i]) + WriteAttributes(one[1..]);
    assert attributes[..i + 1] == attributes[..i] + one && attributes == attributes[..i + 1] + attributes[i + 1..];
    WriteConcat(attributes[..i], one);
    WriteConcat(attributes[..i + 1], attributes[i + 1..]);
  }

  // ----- Reading -------------------------------------------------------------------------------

  function ReadNumber(tag: nat, content: seq<Byte>): (r: Result<Read<Attribute>>)
    requires tag == STACK_ALIGN || tag == UNALIGNED_ACCESS || tag == PRIV_SPEC || tag == PRIV_SPEC_MINOR || tag == PRIV_SPEC_REVISION
    ensures r.Ok? ==> |r.value.rest| < |content|
  {
    var n := ReadUleb(content);
    if n.Err? then Err(n.message)
    else
      var v := n.value.value;
      Ok(Read(if tag == STACK_ALIGN then StackAlign(v)
              else if tag == UNALIGNED_ACCESS then UnalignedAccess(v > 0)
              else if tag == PRIV_SPEC then PrivilegedSpecMajor(v)
              else if tag == PRIV_SPEC_MINOR then PrivilegedSpecMinor(v)
              else PrivilegedSpecRevision(v), n.value.rest))
  }

  function ReadArch(content: seq<Byte>): (r: Result<Read<Attribute>>)
    ensures r.Ok? ==> |r.value.rest| < |content|
  {
    var text := ReadString(content);
    if text.Err? then Err(text.message)
    else
      var components := ParseArch(text.value.value);
      if components.Err? then Err(components.message) else Ok(Read(Arch(components.value), text.value.rest))
  }

  function ReadAttribute(content: seq<Byte>): (r: Result<Read<Attribute>>)
    ensures r.Ok? ==> |r.value.rest| < |content|
  {
    var tag := ReadUleb(content);
    if tag.Err? then Err(tag.message)
    else
      var t := tag.value.value;
      if t == ARCH then ReadArch(tag.value.rest)
      else if t == STACK_ALIGN || t == UNALIGNED_ACCESS || t == PRIV_SPEC || t == PRIV_SPEC_MINOR || t == PRIV_SPEC_REVISION then
        ReadNumber(t, tag.value.rest)
      else Err("Unsupported tag")
  }

  function ReadAttributes(content: seq<Byte>): Result<seq<Attribute>>
    decreases |content|
  {
    if content == [] then Ok([])
    else
      var first := ReadAttribute(content);
      if first.Err? then Err(first.message)
      else
        var more := ReadAttributes(first.value.rest);
        if more.Err? then more else Ok([first.value.value] + more.value)
  }

  // Both sizes are read and not looked at.
  function ReadHeader(content: seq<Byte>): Result<Read<()>> {
    if content == [] || content[0] != LETTER_A then Err("Header must start with 'A'")
    else
      var size := ReadU32(content[1..]);
      if size.Err? then Err(size.message)
      else
        var vendor := ReadString(size.value.rest);
        if vendor.Err? then Err("Cannot read vendor string")
        else if vendor.value.value != Vendor() then Err("Unsupported vendor subsection")
        else
          var tag := ReadUleb(vendor.value.rest);
          if tag.Err? then Err("Cannot read tag of subsection")
          else if tag.value.value != WHOLE_FILE then Err("Whole file tag expected")
          else
            var inner := ReadU32(tag.value.rest);
            if inner.Err? then Err(inner.message) else Ok(Read((), inner.value.rest))
  }

  function ReadSection(content: seq<Byte>): Result<seq<Attribute>> {
    var header := ReadHeader(content);
    if header.Err? then Err(header.message) else ReadAttributes(header.value.rest)
  }

  method ProcessRiscvAttributes(section: seq<Byte>) returns (r: Result<seq<Attribute>>)
    ensures r == ReadSection(section)
  {
    hide ReadHeader, ReadAttribute;
    var header := ReadHeader(section);
    if header.Err? { return Err(header.message); }
    var content, attributes := header.value.rest, [];
    BeforeAny(ReadAttributes(content));
    while content != []
      invariant ReadSection(section) == Before(attributes, ReadAttributes(content))
      decreases |content|
    {
      var attribute := ReadAttribute(content);
      if attribute.Err? { return Err(attribute.message); }
      BeforeOne(attributes, attribute.value.value, ReadAttributes(attribute.value.rest));
      attributes := attributes + [attribute.value.value];
      content := attribute.value.rest;
    }
    assert attributes + [] == attributes;
    r := Ok(attributes);
  }

  function Before(front: seq<Attribute>, more: Result<seq<Attribute>>): Result<seq<Attribute>> {
    if more.Err? then more else Ok(front + more.value)
  }

  lemma BeforeAny(more: Result<seq<Attribute>>)
    ensures Before([], more) == more
  {
    if more.Ok? { assert [] + more.value == more.value; }
  }

  lemma BeforeOne(front: seq<Attribute>, a: Attribute, more: Result<seq<Attribute>>)
    ensures Before(front + [a], more) == if more.Err? then more else Before(front, Ok([a] + more.value))
  {
    if more.Ok? { assert front + [a] + more.value == front + ([a] + more.value); }
  }

  // ----- There and back ------------------------------------------------------------------------

  ghost predicate AttributeOk(a: Attribute) {
    match a
    case StackAlign(align) => align < TWO_64
    case Arch(components) => ArchOk(components)
    case UnalignedAccess(_) => true
    case PrivilegedSpecMajor(version) => version < TWO_64
    case PrivilegedSpecMinor(version) => version < TWO_64
    case PrivilegedSpecRevision(version) => version < TWO_64
  }

  lemma AttributeRoundTrip(a: Attribute, rest: seq<Byte>)
    requires AttributeOk(a)
    ensures ReadAttribute(WriteAttribute(a) + rest) == Ok(Read(a, rest))
  {
    hide ReadUleb, WriteUleb, ToAttributeString, ArchOk, ReadString, ParseArch;
    match a {
      case Arch(components) => {
        var text := ToAttributeString(components);
        assert WriteAttribute(a) + rest == WriteUleb(ARCH) + (text + [NUL] + rest);
        UlebRoundTrip(ARCH, text + [NUL] + rest);
        ArchRoundTrip(components);
        StringRoundTrip(text, rest);
      }
      case StackAlign(align) => { NumberRoundTrip(a, STACK_ALIGN, align, rest); }
      case UnalignedAccess(access) => { NumberRoundTrip(a, UNALIGNED_ACCESS, if access then 1 else 0, rest); }
      case PrivilegedSpecMajor(version) => { NumberRoundTrip(a, PRIV_SPEC, version, rest); }
      case PrivilegedSpecMinor(version) => { NumberRoundTrip(a, PRIV_SPEC_MINOR, version, rest); }
      case PrivilegedSpecRevision(version) => { NumberRoundTrip(a, PRIV_SPEC_REVISION, version, rest); }
    }
  }

  lemma NumberRoundTrip(a: Attribute, tag: nat, n: nat, rest: seq<Byte>)
    requires WriteAttribute(a) == WriteUleb(tag) + WriteUleb(n) && tag < TWO_64 && n < TWO_64
    ensures ReadUleb(WriteAttribute(a) + rest) == Ok(Read(tag, WriteUleb(n) + rest))
    ensures ReadUleb(WriteUleb(n) + rest) == Ok(Read(n, rest))
  {
    hide ReadUleb, WriteUleb, WriteAttribute;
    assert WriteAttribute(a) + rest == WriteUleb(tag) + (WriteUleb(n) + rest);
    UlebRoundTrip(tag, WriteUleb(n) + rest);
    UlebRoundTrip(n, rest);
  }

  lemma WritesSomething(a: Attribute)
    ensures WriteAttribute(a) != []
  {
    hide ToAttributeString;
  }

  lemma {:induction false} AttributesRoundTrip(attributes: seq<Attribute>)
    requires forall i :: 0 <= i < |attributes| ==> AttributeOk(attributes[i])
    ensures ReadAttributes(WriteAttributes(attributes)) == Ok(attributes)
  {
    hide WriteAttribute, ReadAttribute, AttributeOk;
    if attributes != [] {
      AttributeRoundTrip(attributes[0], WriteAttributes(attributes[1..]));
      WritesSomething(attributes[0]);
      AttributesRoundTrip(attributes[1..]);
      assert [attributes[0]] + attributes[1..] == attributes;
    }
  }

  lemma HeaderRoundTrip(sectionSize: nat, rest: seq<Byte>)
    ensures ReadHeader(Header(sectionSize) + rest) == Ok(Read((), rest))
  {
    hide Le32, ReadU32, WriteUleb, ReadUleb, ReadString, Vendor;
    var b, e := Le32((sectionSize - 1) % TWO_32), Le32((sectionSize - 11) % TWO_32);
    var afterTag := e + rest;
    var afterVendor := WriteUleb(WHOLE_FILE) + afterTag;
    var afterSize := Vendor() + [NUL] + afterVendor;
    var content := Header(sectionSize) + rest;
    assert content == [LETTER_A] + (b + afterSize);
    assert content[1..] == b + afterSize;
    U32RoundTrip((sectionSize - 1) % TWO_32, afterSize);
    StringRoundTrip(Vendor(), afterVendor);
    UlebRoundTrip(WHOLE_FILE, afterTag);
    U32RoundTrip((sectionSize - 11) % TWO_32, rest);
  }

  lemma {:induction false} ReadAreOk(content: seq<Byte>)
    ensures var r := ReadAttributes(content);
            r.Ok? ==> forall i :: 0 <= i < |r.value| ==> AttributeOk(r.value[i])
    decreases |content|
  {
    hide ReadAttribute, AttributeOk;
    if content != [] {
      var first := ReadAttribute(content);
      if first.Ok? {
        OneReadIsOk(content);
        ReadAreOk(first.value.rest);
      }
    }
  }

  lemma OneReadIsOk(content: seq<Byte>)
    ensures var r := ReadAttribute(content); r.Ok? ==> AttributeOk(r.value.value)
  {
    hide ReadUleb, ReadString, ParseArch, ArchOk;
    var tag := ReadUleb(content);
    if tag.Ok? && tag.value.value == ARCH {
      var text := ReadString(tag.value.rest);
      if text.Ok? { ParsedArchOk(text.value.value); }
    }
  }

  // Reading what was written gives back the same attributes exactly when every number has 64 bits and
  // every architecture has components, distinct names without separators, and one-digit versions.
  lemma RoundTripExactly(attributes: seq<Attribute>)
    ensures ReadSection(Section(attributes)) == Ok(attributes)
       <==> forall i :: 0 <= i < |attributes| ==> AttributeOk(attributes[i])
  {
    hide Header, ReadHeader, AttributeOk, SectionSize;
    HeaderRoundTrip(SectionSize(attributes), WriteAttributes(attributes));
    ReadAreOk(WriteAttributes(attributes));
    if forall i :: 0 <= i < |attributes| ==> AttributeOk(attributes[i]) { AttributesRoundTrip(attributes); }
  }

  // The first length counts from itself to the end, the second from the tag of the whole file.
  lemma NestedLengths(attributes: seq<Attribute>)
    requires attributes != [] && SectionSize(attributes) < TWO_32
    ensures var s := Section(attributes);
            && |s| > 16 && s[11] == WHOLE_FILE
            && ReadU32(s[1..]) == Ok(Read(|s[1..]|, s[5..])) && ReadU32(s[12..]) == Ok(Read(|s[11..]|, s[16..]))
  {
    hide ReadU32, WriteAttributes, TotalSize, SectionSize, Header;
    var n, s := SectionSize(attributes), Section(attributes);
    SizesAgree(attributes);
    SmallTag();
    SomeSize(attributes);
    HeaderParts(n, WriteAttributes(attributes));
    U32RoundTrip(n - 1, s[5..]);
    U32RoundTrip(n - 11, s[16..]);
  }

  lemma HeaderParts(n: nat, rest: seq<Byte>)
    requires 11 <= n < TWO_32
    ensures var s := Header(n) + rest;
            && |s| == 16 + |rest| && s[11] == WHOLE_FILE
            && s[1..] == Le32(n - 1) + s[5..] && s[12..] == Le32(n - 11) + s[16..]
  {
    hide Le32, Vendor, WriteUleb;
    SmallTag();
    var s, first, second := Header(n) + rest, Le32(n - 1), Le32(n - 11);
    assert s == [LETTER_A] + first + (Vendor() + [NUL]) + [WHOLE_FILE] + second + rest;
    assert s[5..] == Vendor() + [NUL] + [WHOLE_FILE] + second + rest;
    assert s[16..] == rest;
  }

  lemma SomeSize(attributes: seq<Attribute>)
    requires attributes != []
    ensures TotalSize(attributes) > 0
  {
    hide ToAttributeString;
  }

  // ----- The bytes -----------------------------------------------------------------------------

  const RV64I: seq<Byte> := [114, 118, 54, 52, 105]
  const M: seq<Byte> := [109]

  // The bytes of a section with one attribute of each kind: 'A' and the length of the rest, the vendor
  // "riscv", the tag of the whole file and the length from that tag on, then the tags 4, 5, 6, 8, 10 and
  // 12, each with its value: 16, "rv64i2p1_m2p0", 1, 300, 11 and 0.
  lemma SectionBytes()
    ensures Section([StackAlign(16), Arch([Component(RV64I, 2, 1), Component(M, 2, 0)]), UnalignedAccess(true),
                     PrivilegedSpecMajor(300), PrivilegedSpecMinor(11), PrivilegedSpecRevision(0)])
            == [65, 41, 0, 0, 0] + [114, 105, 115, 99, 118, 0] + [1, 31, 0, 0, 0] + [4, 16]
               + [5, 114, 118, 54, 52, 105, 50, 112, 49, 95, 109, 50, 112, 48, 0] + [6, 1] + [8, 172, 2] + [10, 11] + [12, 0]
  {
    hide Header, WriteAttribute, WriteAttributes, TotalSize, ToAttributeString, WriteUleb;
    var a, b, c := StackAlign(16), Arch([Component(RV64I, 2, 1), Component(M, 2, 0)]), UnalignedAccess(true);
    var d, e, f := PrivilegedSpecMajor(300), PrivilegedSpecMinor(11), PrivilegedSpecRevision(0);
    var all := [a, b, c, d, e, f];
    SixAttributes(a, b, c, d, e, f);
    NumberBytes();
    ArchBytes();
    SizesAgree(all);
    AllSizes(all);
    HeaderBytes();
  }

  lemma SixAttributes(a: Attribute, b: Attribute, c: Attribute, d: Attribute, e: Attribute, f: Attribute)
    ensures WriteAttributes([a, b, c, d, e, f])
            == (WriteAttribute(a) + WriteAttribute(b)) + (WriteAttribute(c) + WriteAttribute(d))
               + (WriteAttribute(e) + WriteAttribute(f))
  {
    hide WriteAttribute, WriteAttributes;
    WriteConcat([a, b] + [c, d], [e, f]);
    assert [a, b] + [c, d] + [e, f] == [a, b, c, d, e, f];
    WriteConcat([a, b], [c, d]);
    TwoAttributes(a, b);
    TwoAttributes(c, d);
    TwoAttributes(e, f);
  }

  lemma TwoAttributes(a: Attribute, b: Attribute)
    ensures WriteAttributes([a, b]) == WriteAttribute(a) + WriteAttribute(b)
  {
    hide WriteAttribute;
    assert [a, b][1..] == [b] && [b][1..] == [];
    assert WriteAttributes([b]) == WriteAttribute(b) + WriteAttributes([]);
  }

  lemma NumberBytes()
    ensures WriteAttribute(StackAlign(16)) == [4, 16]
    ensures WriteAttribute(UnalignedAccess(true)) == [6, 1]
    ensures WriteAttribute(PrivilegedSpecMajor(300)) == [8, 172, 2]
    ensures WriteAttribute(PrivilegedSpecMinor(11)) == [10, 11]
    ensures WriteAttribute(PrivilegedSpecRevision(0)) == [12, 0]
  {
    hide WriteUleb;
    SmallNumbers();
    TwoGroups();
  }

  lemma SmallNumbers()
    ensures forall n: nat :: n < 128 ==> WriteUleb(n) == [n]
  {}

  lemma TwoGroups()
    ensures WriteUleb(300) == [172, 2]
  {
    assert WriteUleb(300) == [300 % 128 + 128] + WriteUleb(300 / 128);
  }

  lemma ArchBytes()
    ensures WriteAttribute(Arch([Component(RV64I, 2, 1), Component(M, 2, 0)]))
            == [5, 114, 118, 54, 52, 105, 50, 112, 49, 95, 109, 50, 112, 48, 0]
  {
    hide WriteUleb, ToAttributeString;
    DigitBytes();
    TextBytes();
  }

  lemma TextBytes()
    ensures ToAttributeString([Component(RV64I, 2, 1), Component(M, 2, 0)])
            == [114, 118, 54, 52, 105, 50, 112, 49, 95, 109, 50, 112, 48]
  {
    hide PrintComponent, ToAttributeString;
    ComponentBytes();
    TwoComponents(Component(RV64I, 2, 1), Component(M, 2, 0));
  }

  lemma ComponentBytes()
    ensures PrintComponent(Component(RV64I, 2, 1)) == [114, 118, 54, 52, 105, 50, 112, 49]
    ensures PrintComponent(Component(M, 2, 0)) == [109, 50, 112, 48]
  {
    hide Decimal;
    DigitBytes();
  }

  lemma TwoComponents(one: Component, two: Component)
    ensures ToAttributeString([one, two]) == PrintComponent(one) + [95] + PrintComponent(two)
  {
    hide PrintComponent;
    var parts := Parts([one, two]);
    assert Join(parts) == parts[0] + [95] + Join(parts[1..]);
  }

  lemma DigitBytes()
    ensures Decimal(0) == [48] && Decimal(1) == [49] && Decimal(2) == [50] && WriteUleb(ARCH) == [5]
  {}

  lemma HeaderBytes()
    ensures Header(42) == [65, 41, 0, 0, 0] + [114, 105, 115, 99, 118, 0] + [1, 31, 0, 0, 0]
  {
    SmallTag();
    assert Le32(41) == [41, 0, 0, 0] && Le32(31) == [31, 0, 0, 0];
  }
}
