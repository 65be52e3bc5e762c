// The closed form that packs the GOT block: its slots are contiguous, so every bitmap but the last is
// full. It is proved to be what the run encoder would have produced.
module RelrGot {
  import opened Words
  import opened Relr

  // got_relr_bitmap_relr_count
  function GotCount(c: ElfClass, n: nat): nat {
    if n == 0 then 0 else 1 + (n - 1 + Slots(c) - 1) / Slots(c)
  }

  // A bitmap with its marker and its first `slots` slots set.
  function LowSlots(slots: nat): nat {
    Pow2(slots + 1) - 1
  }

  function GotBitmaps(c: ElfClass, remaining: nat): (r: seq<nat>) {
    if remaining == 0 then []
    else
      var slots := if remaining < Slots(c) then remaining else Slots(c);
      [LowSlots(slots)] + GotBitmaps(c, remaining - slots)
  }

  function GotEntries(c: ElfClass, n: nat, base: nat): seq<nat>
    requires n > 0
  {
    [base] + GotBitmaps(c, n - 1)
  }

  // The writer takes exactly the entries that layout counted.
  lemma {:induction false} GotBitmapsCount(c: ElfClass, remaining: nat)
    ensures |GotBitmaps(c, remaining)| == (remaining + Slots(c) - 1) / Slots(c)
  {
    if remaining > Slots(c) {
      GotBitmapsCount(c, remaining - Slots(c));
    }
  }

  lemma GotEntriesCount(c: ElfClass, n: nat, base: nat)
    requires n > 0
    ensures |GotEntries(c, n, base)| == GotCount(c, n)
  {
    GotBitmapsCount(c, n - 1);
  }

  // The slots of the block.
  function GotSlots(c: ElfClass, n: nat, base: nat): (r: seq<nat>)
    ensures |r| == n && forall i :: 0 <= i < n ==> r[i] == base + WordBytes(c, i)
  {
    if n == 0 then [] else GotSlots(c, n - 1, base) + [base + WordBytes(c, n - 1)]
  }

  // Slots of q full bitmaps.
  function FullSlots(c: ElfClass, q: nat): nat {
    match c case Class32 => 31 * q case Class64 => 63 * q
  }

  function Full(c: ElfClass, q: nat): seq<nat> {
    if q == 0 then [] else [LowSlots(Slots(c))] + Full(c, q - 1)
  }

  lemma {:induction false} FullAppend(c: ElfClass, q: nat)
    ensures Full(c, q + 1) == Full(c, q) + [LowSlots(Slots(c))]
  {
    if q > 0 { FullAppend(c, q - 1); }
  }

  // q full bitmaps and one with r slots.
  lemma {:induction false} GotBitmapsShape(c: ElfClass, q: nat, r: nat)
    requires 1 <= r <= Slots(c)
    ensures GotBitmaps(c, FullSlots(c, q) + r) == Full(c, q) + [LowSlots(r)]
  {
    hide LowSlots;
    if q > 0 {
      GotBitmapsShape(c, q - 1, r);
      assert FullSlots(c, q) + r - Slots(c) == FullSlots(c, q - 1) + r;
    } else {
      assert GotBitmaps(c, r) == [LowSlots(r)] + GotBitmaps(c, 0);
    }
  }

  lemma {:induction false} SetNextBit(k: nat)
    ensures SetBit(Pow2(k) - 1, k) == Pow2(k + 1) - 1
  {
    if k > 0 {
      SetNextBit(k - 1);
      assert (Pow2(k) - 1) / 2 == Pow2(k - 1) - 1 && (Pow2(k) - 1) % 2 == 1;
    }
  }

  // The window after q full bitmaps, with its first r slots set.
  function Window(c: ElfClass, base: nat, q: nat, r: nat): Bitmap {
    var lo := base + WordSize(c) + WordBytes(c, FullSlots(c, q));
    Bitmap(lo, lo + Span(c), LowSlots(r))
  }

  lemma NextSlotInWindow(c: ElfClass, base: nat, q: nat, r: nat)
    requires r < Slots(c)
    ensures Insert(c, Window(c, base, q, r), Window(c, base, q, r).lo + WordBytes(c, r))
            == Some(Window(c, base, q, r + 1))
  {
    hide Pow2;
    SetNextBit(r + 1);
    var w := WordSize(c);
    assert WordBytes(c, r) < Span(c) && WordBytes(c, r) % w == 0 && WordBytes(c, r) / w == r;
  }

  lemma NextSlotPastWindow(c: ElfClass, base: nat, q: nat)
    ensures var b := Window(c, base, q, Slots(c));
            && Insert(c, b, b.lo + Span(c)) == None
            && Following(c, b) == Window(c, base, q + 1, 0)
            && Window(c, base, q + 1, 0).lo == b.lo + Span(c)
  {
    assert Pow2(1) == 2;
  }

  // Slot number 1 + q * slots + r - 1 of the block is the r-th word of window q.
  lemma SlotInWindow(c: ElfClass, base: nat, q: nat, r: nat)
    requires r >= 1
    ensures base + WordBytes(c, FullSlots(c, q) + r) == Window(c, base, q, r).lo + WordBytes(c, r - 1)
  {
    match c
    case Class32 =>
    case Class64 =>
  }

  // What the encoder holds after one word, q full windows and r words of the next.
  function GotShape(c: ElfClass, base: nat, q: nat, r: nat): Run {
    Run(WithBitmap(Window(c, base, q, r)), [base] + Full(c, q) + [LowSlots(r)])
  }

  // A second word in the same window.
  lemma ShapeGrows(c: ElfClass, base: nat, q: nat, r: nat)
    requires 1 <= r < Slots(c)
    ensures var t := Encode(c, GotShape(c, base, q, r).state, Window(c, base, q, r).lo + WordBytes(c, r));
            && t.step.Update? && GotShape(c, base, q, r).entries != []
            && Run(t.state, Apply(GotShape(c, base, q, r).entries, t.step)) == GotShape(c, base, q, r + 1)
  {
    NextSlotInWindow(c, base, q, r);
    var entries := GotShape(c, base, q, r).entries;
    assert entries[..|entries| - 1] == [base] + Full(c, q);
  }

  // The first word of the next window.
  lemma ShapeOpens(c: ElfClass, base: nat, q: nat)
    ensures var full := GotShape(c, base, q, Slots(c));
            var t := Encode(c, full.state, Window(c, base, q + 1, 1).lo);
            && t.step.New? && full.entries != []
            && Run(t.state, Apply(full.entries, t.step)) == GotShape(c, base, q + 1, 1)
  {
    NextSlotPastWindow(c, base, q);
    NextSlotInWindow(c, base, q + 1, 0);
    FullAppend(c, q);
    assert [base] + Full(c, q) + [LowSlots(Slots(c))] == [base] + Full(c, q + 1);
  }

  lemma ShapeStarts(c: ElfClass, base: nat)
    ensures RunOver(c, GotSlots(c, 1, base)) == Run(AddressOnly(Window(c, base, 0, 0)), [base])
    ensures var t := Encode(c, AddressOnly(Window(c, base, 0, 0)), base + WordSize(c));
            && t.step.New? && Run(t.state, Apply([base], t.step)) == GotShape(c, base, 0, 1)
  {
    RunOverAppend(c, [], base);
    assert GotSlots(c, 1, base) == [] + [base];
    NextSlotInWindow(c, base, 0, 0);
    assert Pow2(1) == 2;
    assert [base] + Full(c, 0) == [base];
  }

  lemma GotSlotsAppend(c: ElfClass, n: nat, base: nat, before: Run, after: Run)
    requires RunOver(c, GotSlots(c, n, base)) == before
    requires var t := Encode(c, before.state, base + WordBytes(c, n));
             (t.step.Update? ==> before.entries != []) && Run(t.state, Apply(before.entries, t.step)) == after
    ensures RunOver(c, GotSlots(c, n + 1, base)) == after
  {
    hide Encode, RunOver;
    RunOverAppend(c, GotSlots(c, n, base), base + WordBytes(c, n));
  }

  lemma {:induction false} GotRun(c: ElfClass, base: nat, q: nat, r: nat, n: nat)
    requires 1 <= r <= Slots(c) && n == FullSlots(c, q) + r
    ensures RunOver(c, GotSlots(c, n + 1, base)) == GotShape(c, base, q, r)
    decreases q, r
  {
    hide Encode, RunOver, GotSlots, GotShape, Apply, LowSlots, Full, Pow2;
    var after := GotShape(c, base, q, r);
    SlotInWindow(c, base, q, r);
    if r > 1 {
      GotRun(c, base, q, r - 1, n - 1);
      ShapeGrows(c, base, q, r - 1);
      GotSlotsAppend(c, n, base, GotShape(c, base, q, r - 1), after);
    } else if q == 0 {
      ShapeStarts(c, base);
      GotSlotsAppend(c, 1, base, Run(AddressOnly(Window(c, base, 0, 0)), [base]), after);
    } else {
      FullWindowsBefore(c, q, n);
      GotRun(c, base, q - 1, Slots(c), n - 1);
      ShapeOpens(c, base, q - 1);
      GotSlotsAppend(c, n, base, GotShape(c, base, q - 1, Slots(c)), after);
    }
  }

  lemma FullWindowsBefore(c: ElfClass, q: nat, n: nat)
    requires q > 0 && n == FullSlots(c, q) + 1
    ensures n - 1 == FullSlots(c, q - 1) + Slots(c)
  {}

  lemma GotSlotsOrder(c: ElfClass, n: nat, base: nat)
    requires base % 2 == 0
    ensures AllEven(GotSlots(c, n, base)) && Increasing(GotSlots(c, n, base))
  {
    hide GotSlots, WordBytes;
    var slots := GotSlots(c, n, base);
    forall i | 0 <= i < |slots| ensures slots[i] % 2 == 0 {
      EvenWords(c, i);
      EvenPlus(base, WordBytes(c, i));
    }
    forall i, j | 0 <= i < j < |slots| ensures slots[i] < slots[j] {
      MoreWords(c, i, j);
    }
  }

  lemma EvenWords(c: ElfClass, n: nat)
    ensures WordBytes(c, n) % 2 == 0
  {
    match c
    case Class32 => TwiceIsEven(2 * n);
    case Class64 => TwiceIsEven(4 * n);
  }

  lemma MoreWords(c: ElfClass, i: nat, j: nat)
    requires i < j
    ensures WordBytes(c, i) < WordBytes(c, j)
  {}

  lemma Split(c: ElfClass, m: nat) returns (q: nat, r: nat)
    requires m > 0
    ensures 1 <= r <= Slots(c) && m == FullSlots(c, q) + r
  {
    q, r := (m - 1) / Slots(c), (m - 1) % Slots(c) + 1;
  }

  lemma NoBitmaps(c: ElfClass)
    ensures GotBitmaps(c, 0) == []
  {}

  // The closed form is the encoder's answer, so it decodes to the slots of the block.
  lemma GotIsRun(c: ElfClass, n: nat, base: nat)
    requires n > 0 && base % 2 == 0
    ensures RunOver(c, GotSlots(c, n, base)).entries == GotEntries(c, n, base)
    ensures Decode(c, GotEntries(c, n, base), 0).places == GotSlots(c, n, base)
  {
    hide Encode, RunOver, Decode, GotBitmaps, LowSlots, Full;
    if n == 1 {
      ShapeStarts(c, base);
      NoBitmaps(c);
    } else {
      var q, r := Split(c, n - 1);
      GotRun(c, base, q, r, n - 1);
      GotBitmapsShape(c, q, r);
      assert [base] + Full(c, q) + [LowSlots(r)] == [base] + (Full(c, q) + [LowSlots(r)]);
    }
    GotSlotsOrder(c, n, base);
    RoundTripInOrder(c, GotSlots(c, n, base));
  }
}
