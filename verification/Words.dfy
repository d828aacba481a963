// Machine words of the dictionary: `unsigned long` is 64 bits wide.
module Words {
  type Word = bv64

  const ONES: Word := 0xFFFF_FFFF_FFFF_FFFF

  // ------------------------------------------------------------------ bit reversal

  // One round of the parallel swap: exchange neighbouring groups of s bits.
  function Swap(v: Word, s: bv64, mask: Word): Word
    requires s <= 64
  {
    ((v >> s) & mask) | ((v << s) & !mask)
  }

  // The rounds still to come when groups of s bits are swapped next.
  function Rounds1(v: Word): Word { Swap(v, 1, 0x5555_5555_5555_5555) }
  function Rounds2(v: Word): Word { Rounds1(Swap(v, 2, 0x3333_3333_3333_3333)) }
  function Rounds4(v: Word): Word { Rounds2(Swap(v, 4, 0x0F0F_0F0F_0F0F_0F0F)) }
  function Rounds8(v: Word): Word { Rounds4(Swap(v, 8, 0x00FF_00FF_00FF_00FF)) }
  function Rounds16(v: Word): Word { Rounds8(Swap(v, 16, 0x0000_FFFF_0000_FFFF)) }
  function Rounds32(v: Word): Word { Rounds16(Swap(v, 32, 0x0000_0000_FFFF_FFFF)) }

  // The bits of v in reverse order.
  function Reverse(v: Word): Word {
    var a := ((v >> 32) & 0x0000_0000_FFFF_FFFF) | ((v << 32) & 0xFFFF_FFFF_0000_0000);
    var b := ((a >> 16) & 0x0000_FFFF_0000_FFFF) | ((a << 16) & 0xFFFF_0000_FFFF_0000);
    var c := ((b >> 8) & 0x00FF_00FF_00FF_00FF) | ((b << 8) & 0xFF00_FF00_FF00_FF00);
    var d := ((c >> 4) & 0x0F0F_0F0F_0F0F_0F0F) | ((c << 4) & 0xF0F0_F0F0_F0F0_F0F0);
    var e := ((d >> 2) & 0x3333_3333_3333_3333) | ((d << 2) & 0xCCCC_CCCC_CCCC_CCCC);
    ((e >> 1) & 0x5555_5555_5555_5555) | ((e << 1) & 0xAAAA_AAAA_AAAA_AAAA)
  }

  // Where the loop of `rev` stands: the mask of the last round and what is left to do.
  ghost predicate AtRound(s: bv64, mask: Word, v: Word, result: Word) {
    || (s == 32 && mask == ONES && Rounds32(v) == result)
    || (s == 16 && mask == 0x0000_0000_FFFF_FFFF && Rounds16(v) == result)
    || (s == 8 && mask == 0x0000_FFFF_0000_FFFF && Rounds8(v) == result)
    || (s == 4 && mask == 0x00FF_00FF_00FF_00FF && Rounds4(v) == result)
    || (s == 2 && mask == 0x0F0F_0F0F_0F0F_0F0F && Rounds2(v) == result)
    || (s == 1 && mask == 0x3333_3333_3333_3333 && Rounds1(v) == result)
    || (s == 0 && v == result)
  }

  lemma NextMask(s: bv64, mask: Word, v: Word, result: Word)
    requires s != 0 && AtRound(s, mask, v, result)
    ensures mask ^ (mask << s) ==
            if s == 32 then 0x0000_0000_FFFF_FFFF
            else if s == 16 then 0x0000_FFFF_0000_FFFF
            else if s == 8 then 0x00FF_00FF_00FF_00FF
            else if s == 4 then 0x0F0F_0F0F_0F0F_0F0F
            else if s == 2 then 0x3333_3333_3333_3333
            else 0x5555_5555_5555_5555
  {
  }

  method Rev(value: Word) returns (v: Word)
    ensures v == Reverse(value)
  {
    v := value;
    var s: bv64 := 64;
    var mask: Word := ONES;
    s := s >> 1;
    while s > 0
      invariant AtRound(s, mask, v, Rounds32(value))
      decreases s
    {
      NextMask(s, mask, v, Rounds32(value));
      mask := mask ^ (mask << s);
      v := Swap(v, s, mask);
      s := s >> 1;
    }
    RoundsReverse(value);
  }

  lemma RoundsReverse(v: Word)
    ensures Rounds32(v) == Reverse(v)
  {
  }

  lemma ReverseMirrorsBits(v: Word, i: bv64)
    requires i < 64
    ensures (Reverse(v) >> i) & 1 == (v >> (63 - i)) & 1
  {
  }

  lemma ReverseTwice(v: Word)
    ensures Reverse(Reverse(v)) == v
  {
  }

  // ------------------------------------------------------------------ masks and bucket numbers

  function Pow2(k: nat): (r: nat)
    ensures r >= 1
  {
    if k == 0 then 1 else 2 * Pow2(k - 1)
  }

  lemma {:induction false} Pow2Increases(j: nat, k: nat)
    requires j < k
    ensures Pow2(j) < Pow2(k)
  {
    if j + 1 < k {
      Pow2Increases(j, k - 1);
    }
  }

  lemma {:induction false} Pow2Sum(j: nat, k: nat)
    ensures Pow2(j + k) == Pow2(j) * Pow2(k)
  {
    if j > 0 {
      Pow2Sum(j - 1, k);
      assert 2 * (Pow2(j - 1) * Pow2(k)) == (2 * Pow2(j - 1)) * Pow2(k);
    }
  }

  function Half(v: Word): Word { v >> 1 }

  function Bit(v: Word): nat { if v & 1 == 1 then 1 else 0 }

  // The number written in the n lowest bits of v.
  function Number(v: Word, n: nat): nat {
    if n == 0 then 0 else 2 * Number(Half(v), n - 1) + Bit(v)
  }

  // A word used as an array index.
  function Index(v: Word): nat { Number(v, 64) }

  // The bucket that a hash or a cursor selects in a table with this mask.
  function Slot(h: Word, mask: Word): nat { Index(h & mask) }

  // Two words select the same bucket.
  ghost predicate SameSlot(v: Word, h: Word, m: Word) { v & m == h & m }

  lemma SameSlotSame(v: Word, h: Word, m: Word)
    requires SameSlot(v, h, m)
    ensures Slot(v, m) == Slot(h, m)
  {
  }

  function OnesAfter(shift: nat): Word {
    if shift == 0 then ONES else Half(OnesAfter(shift - 1))
  }

  // The word 2^k - 1.
  function LowBits(k: nat): Word
    requires k <= 64
  {
    OnesAfter(64 - k)
  }

  ghost predicate IsMask(m: Word) { m & (m + 1) == 0 }

  lemma {:induction false} OnesAfterIsMask(shift: nat)
    ensures IsMask(OnesAfter(shift))
  {
    if shift > 0 {
      OnesAfterIsMask(shift - 1);
      HalfOfMask(OnesAfter(shift - 1));
    }
  }

  lemma HalfOfMask(m: Word)
    requires IsMask(m)
    ensures IsMask(Half(m))
  {
  }

  lemma EightHalves(v: Word)
    ensures Half(Half(Half(Half(Half(Half(Half(Half(v)))))))) == v >> 8
  {
  }

  lemma ShiftBytewise(shift: nat)
    ensures OnesAfter(shift + 8) == OnesAfter(shift) >> 8
  {
    var v := OnesAfter(shift);
    EightHalves(v);
    assert OnesAfter(shift + 2) == Half(Half(v));
    assert OnesAfter(shift + 4) == Half(Half(OnesAfter(shift + 2)));
    assert OnesAfter(shift + 6) == Half(Half(OnesAfter(shift + 4)));
    assert OnesAfter(shift + 8) == Half(Half(OnesAfter(shift + 6)));
  }

  lemma SmallMasks()
    ensures LowBits(0) == 0 && LowBits(1) == 1 && LowBits(2) == 3
  {
    ShiftBytewise(0);
    ShiftBytewise(8);
    ShiftBytewise(16);
    ShiftBytewise(24);
    ShiftBytewise(32);
    ShiftBytewise(40);
    ShiftBytewise(48);
    ShiftBytewise(56);
    assert OnesAfter(56) == 0xFF;
    assert OnesAfter(58) == 0x3F;
    assert OnesAfter(60) == 0xF;
    assert OnesAfter(62) == 0x3;
  }

  // Doubling a table adds one bit to its mask.
  lemma {:induction false} NextLowBits(k: nat)
    requires k < 64
    ensures LowBits(k + 1) == (LowBits(k) << 1) | 1
  {
    SmallMasks();
    LowBitsNonZero(k + 1);
    OnesAfterIsMask(64 - k - 1);
    DoubleOfHalf(LowBits(k + 1));
    assert LowBits(k) == Half(LowBits(k + 1));
  }

  lemma {:induction false} LowBitsNonZero(k: nat)
    requires 1 <= k <= 64
    ensures LowBits(k) != 0
  {
    SmallMasks();
    if k > 1 {
      LowBitsNonZero(k - 1);
      assert Half(LowBits(k)) == LowBits(k - 1);
    }
  }

  lemma DoubleOfHalf(m: Word)
    requires IsMask(m) && m != 0
    ensures m == (Half(m) << 1) | 1
  {
  }

  // Every bit of v is a bit of m.
  ghost predicate Within(v: Word, m: Word) { v & m == v }

  lemma HalfKeepsWithin(v: Word, m: Word)
    requires Within(v, m)
    ensures Within(Half(v), Half(m))
  {
  }

  lemma {:induction false} NumberOfZero(n: nat)
    ensures Number(0, n) == 0
  {
    if n > 0 {
      NumberOfZero(n - 1);
    }
  }

  lemma {:induction false} NumberBelow(v: Word, k: nat, n: nat)
    requires k <= 64 && Within(v, LowBits(k))
    ensures Number(v, n) < Pow2(k)
  {
    if k == 0 {
      SmallMasks();
      NumberOfZero(n);
    } else if n > 0 {
      HalfKeepsWithin(v, LowBits(k));
      assert Half(LowBits(k)) == LowBits(k - 1);
      NumberBelow(Half(v), k - 1, n - 1);
    }
  }

  // Masking with 2^k - 1 gives a bucket number of a table of 2^k buckets.
  lemma SlotBelow(v: Word, k: nat)
    requires k <= 64
    ensures Slot(v, LowBits(k)) < Pow2(k)
  {
    MaskedWithin(v, LowBits(k));
    NumberBelow(v & LowBits(k), k, 64);
  }

  lemma MaskedWithin(v: Word, m: Word)
    ensures Within(v & m, m)
  {
  }

  // The mask of a smaller table is part of the mask of a larger one.
  lemma {:induction false} MaskWithin(j: nat, k: nat)
    requires j <= k <= 64
    ensures Within(LowBits(j), LowBits(k))
  {
    if j < k {
      MaskWithin(j, k - 1);
      OnesAfterIsMask(64 - k);
      HalfOfMaskWithin(LowBits(k));
      WithinTrans(LowBits(j), LowBits(k - 1), LowBits(k));
    }
  }

  lemma HalfOfMaskWithin(m: Word)
    requires IsMask(m)
    ensures Within(Half(m), m)
  {
  }

  lemma WithinTrans(a: Word, b: Word, c: Word)
    requires Within(a, b) && Within(b, c)
    ensures Within(a, c)
  {
  }
}
