// Machine words seen bit by bit. RELR bitmaps and the .gnu.hash bloom filter both build words with
// `w | (1 << k)` and both are read back one bit at a time.
module Words {
  datatype Option<+T> = None | Some(value: T)

  datatype Result<+T> = Ok(value: T) | Err(message: string)

  type Byte = b: int | 0 <= b < 256

  const TWO_32: nat := 0x1_0000_0000
  const TWO_64: nat := 0x1_0000_0000_0000_0000

  // The same number on 64 bits.
  predicate Congruent(a: int, b: int) {
    (a - b) % 0x1_0000_0000_0000_0000 == 0
  }

  // The two ELF classes. Everything that depends on the class goes through these functions.
  datatype ElfClass = Class32 | Class64

  // Bytes in an address, in a GOT entry and in a RELR entry.
  function WordSize(c: ElfClass): nat {
    match c case Class32 => 4 case Class64 => 8
  }

  // Bytes in n words.
  function WordBytes(c: ElfClass, n: nat): nat {
    match c case Class32 => 4 * n case Class64 => 8 * n
  }

  function Pow2(k: nat): (p: nat)
    ensures p >= 1
  {
    if k == 0 then 1 else 2 * Pow2(k - 1)
  }

  // The smallest power of two that is at least n, and 1 for 0.
  function NextPowerOfTwo(n: nat): (r: nat)
    ensures r >= 1 && r >= n
    ensures exists k: nat :: r == Pow2(k)
    ensures n > 0 ==> r < 2 * n
  {
    if n <= 1 then
      assert Pow2(0) == 1;
      1
    else
      var half := NextPowerOfTwo((n + 1) / 2);
      assert var k: nat :| half == Pow2(k); 2 * half == Pow2(k + 1);
      2 * half
  }

  predicate Bit(w: nat, k: nat) {
    if k == 0 then w % 2 == 1 else Bit(w / 2, k - 1)
  }

  // w | (1 << k)
  function SetBit(w: nat, k: nat): (r: nat) {
    if k == 0 then 2 * (w / 2) + 1 else 2 * SetBit(w / 2, k - 1) + w % 2
  }

  // Setting bit k sets bit k and leaves every other bit alone.
  lemma {:induction false} SetBitBits(w: nat, k: nat, j: nat)
    ensures Bit(SetBit(w, k), j) <==> Bit(w, j) || j == k
  {
    if k > 0 && j > 0 {
      SetBitBits(w / 2, k - 1, j - 1);
      assert SetBit(w, k) / 2 == SetBit(w / 2, k - 1);
    } else if j > 0 {
      assert SetBit(w, k) / 2 == w / 2;
    }
  }

  lemma {:induction false} ZeroHasNoBits(k: nat)
    ensures !Bit(0, k)
  {
    if k > 0 { ZeroHasNoBits(k - 1); }
  }

  // A word of n bits stays a word of n bits when one of its own bits is set.
  lemma {:induction false} SetBitFits(w: nat, k: nat, n: nat)
    requires w < Pow2(n) && k < n
    ensures SetBit(w, k) < Pow2(n)
  {
    var half := Pow2(n - 1);
    assert w < 2 * half;
    if k > 0 {
      SetBitFits(w / 2, k - 1, n - 1);
      assert SetBit(w / 2, k - 1) < half;
    }
  }

  lemma TwiceIsEven(k: nat)
    ensures (2 * k) % 2 == 0
  {}

  // An even base does not change parity.
  lemma EvenPlus(base: nat, n: nat)
    requires base % 2 == 0
    ensures (base + n) % 2 == n % 2
  {
    assert base == 2 * (base / 2);
  }

  lemma {:induction false} Pow2Monotone(a: nat, b: nat)
    requires a <= b
    ensures Pow2(a) <= Pow2(b)
  {
    if a < b {
      Pow2Monotone(a, b - 1);
    }
  }

  // ----- Multiples -----------------------------------------------------------------------------

  // The least multiple of a that is not below p.
  function NextMultiple(p: int, a: nat): int
    requires a > 0
  {
    if p % a == 0 then p else p + (a - p % a)
  }

  lemma FactorGrows(k: int, a: nat)
    requires k > 0
    ensures k * a >= a
  {
    assert (k - 1) * a >= 0;
    assert k * a == (k - 1) * a + a;
  }

  lemma ZeroFactor(k: int, a: nat)
    requires 0 <= k * a < a
    ensures k == 0
  {
    if k > 0 { FactorGrows(k, a); }
  }

  lemma MultipleHasNoRest(q: int, a: nat)
    requires a > 0
    ensures (q * a) % a == 0
  {
    var x := q * a;
    assert x == a * (x / a) + x % a;
    assert (q - x / a) * a == q * a - a * (x / a);
    ZeroFactor(q - x / a, a);
  }

  lemma NextMultipleIsNext(p: int, a: nat)
    requires a > 0
    ensures NextMultiple(p, a) % a == 0 && p <= NextMultiple(p, a) < p + a
  {
    if p % a != 0 {
      assert p == a * (p / a) + p % a;
      assert NextMultiple(p, a) == (p / a + 1) * a;
      MultipleHasNoRest(p / a + 1, a);
    }
  }

  function Sum(sizes: seq<nat>): nat {
    if sizes == [] then 0 else Sum(sizes[..|sizes| - 1]) + sizes[|sizes| - 1]
  }

  // ----- Little-endian words -------------------------------------------------------------------

  // The word of 32 bits at `at`.
  function U32(data: seq<Byte>, at: nat): nat
    requires at + 4 <= |data|
  {
    var b0: int, b1: int, b2: int, b3: int := data[at], data[at + 1], data[at + 2], data[at + 3];
    b0 + 0x100 * b1 + 0x1_0000 * b2 + 0x100_0000 * b3
  }

  function Le32(n: nat): (r: seq<Byte>)
    requires n < TWO_32
    ensures |r| == 4
  {
    [n % 0x100, n / 0x100 % 0x100, n / 0x1_0000 % 0x100, n / 0x100_0000]
  }

  lemma Le32RoundTrip(n: nat)
    requires n < TWO_32
    ensures U32(Le32(n), 0) == n
  {
    var a, b := n / 0x100, n / 0x1_0000;
    assert n == 0x100 * a + n % 0x100;
    assert a / 0x100 == b && a == 0x100 * b + a % 0x100;
    assert b / 0x100 == n / 0x100_0000;
  }
}
