// Bytes, unsigned LEB128 numbers (section 7.6 of DWARF 5), 32-bit words and NUL-terminated strings.
module Leb128 {
  import opened Words

  const NUL: Byte := 0

  // What was read, and what is left.
  datatype Read<+T> = Read(value: T, rest: seq<Byte>)

  // ----- Numbers -------------------------------------------------------------------------------

  function WriteUleb(n: nat): seq<Byte> {
    if n < 128 then [n] else [n % 128 + 128] + WriteUleb(n / 128)
  }

  function UlebSize(n: nat): (size: nat)
    ensures size == |WriteUleb(n)|
  {
    if n < 128 then 1 else 1 + UlebSize(n / 128)
  }

  // The largest number that still fits in 64 bits after k groups of seven.
  function Limit(k: nat): nat
    requires k <= 9
    decreases 9 - k
  {
    if k == 9 then 2 else 128 * Limit(k + 1)
  }

  lemma LimitOfAll()
    ensures Limit(0) == TWO_64
  {
    assert Limit(8) == 128 * Limit(9) && Limit(7) == 128 * Limit(8) && Limit(6) == 128 * Limit(7);
    assert Limit(5) == 128 * Limit(6) && Limit(4) == 128 * Limit(5) && Limit(3) == 128 * Limit(4);
    assert Limit(2) == 128 * Limit(3) && Limit(1) == 128 * Limit(2) && Limit(0) == 128 * Limit(1);
  }

  // The tenth group has room for one bit.
  function ReadUlebFrom(content: seq<Byte>, k: nat): (r: Result<Read<nat>>)
    requires k <= 9
    ensures r.Ok? ==> |r.value.rest| < |content| && r.value.value < Limit(k)
    decreases 9 - k
  {
    if content == [] then Err("unexpected end of data")
    else if k == 9 then
      if content[0] <= 1 then Ok(Read(content[0], content[1..])) else Err("overflow")
    else if content[0] < 128 then
      SmallFits(k);
      Ok(Read(content[0], content[1..]))
    else
      var more := ReadUlebFrom(content[1..], k + 1);
      if more.Err? then more else Ok(Read(content[0] - 128 + 128 * more.value.value, more.value.rest))
  }

  lemma {:induction false} SmallFits(k: nat)
    requires k < 9
    ensures Limit(k) >= 128
    decreases 9 - k
  {
    if k < 8 { SmallFits(k + 1); }
  }

  function ReadUleb(content: seq<Byte>): (r: Result<Read<nat>>)
    ensures r.Ok? ==> |r.value.rest| < |content| && r.value.value < TWO_64
  {
    LimitOfAll();
    ReadUlebFrom(content, 0)
  }

  lemma {:induction false} UlebFromRoundTrip(n: nat, rest: seq<Byte>, k: nat)
    requires k <= 9 && n < Limit(k)
    ensures ReadUlebFrom(WriteUleb(n) + rest, k) == Ok(Read(n, rest))
    decreases 9 - k
  {
    var bytes := WriteUleb(n) + rest;
    if n < 128 {
      assert bytes[1..] == rest;
    } else {
      assert n < 128 * Limit(k + 1);
      UlebFromRoundTrip(n / 128, rest, k + 1);
      assert bytes[1..] == WriteUleb(n / 128) + rest;
    }
  }

  lemma UlebRoundTrip(n: nat, rest: seq<Byte>)
    requires n < TWO_64
    ensures ReadUleb(WriteUleb(n) + rest) == Ok(Read(n, rest))
  {
    LimitOfAll();
    UlebFromRoundTrip(n, rest, 0);
  }

  // ----- Words ---------------------------------------------------------------------------------

  function ReadU32(content: seq<Byte>): (r: Result<Read<nat>>)
    ensures r.Ok? ==> |r.value.rest| < |content|
  {
    if |content| < 4 then Err("Not enough bytes to read u32")
    else Ok(Read(U32(content, 0), content[4..]))
  }

  lemma U32RoundTrip(n: nat, rest: seq<Byte>)
    requires n < TWO_32
    ensures ReadU32(Le32(n) + rest) == Ok(Read(n, rest))
  {
    Le32RoundTrip(n);
    var text := Le32(n) + rest;
    assert text[4..] == rest && forall k :: 0 <= k < 4 ==> text[k] == Le32(n)[k];
  }

  // ----- Strings -------------------------------------------------------------------------------

  predicate Lacks(text: seq<Byte>, b: Byte) {
    b !in text
  }

  function ReadString(content: seq<Byte>): (r: Result<Read<seq<Byte>>>)
    ensures r.Ok? ==> |r.value.rest| < |content| && Lacks(r.value.value, NUL)
  {
    if content == [] then Err("No null terminator found in string")
    else if content[0] == NUL then Ok(Read([], content[1..]))
    else
      var more := ReadString(content[1..]);
      if more.Err? then more else Ok(Read([content[0]] + more.value.value, more.value.rest))
  }

  lemma {:induction false} StringRoundTrip(text: seq<Byte>, rest: seq<Byte>)
    requires Lacks(text, NUL)
    ensures ReadString(text + [NUL] + rest) == Ok(Read(text, rest))
  {
    var content := text + [NUL] + rest;
    if text == [] {
      assert content[1..] == rest;
    } else {
      assert content[1..] == text[1..] + [NUL] + rest;
      StringRoundTrip(text[1..], rest);
      assert text[0] in text && text == [text[0]] + text[1..];
    }
  }
}
