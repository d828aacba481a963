// The substitution tables of AES and the arithmetic of its columns.
module AesField {
  import opened Bytes

  // ------------------------------------------------------------------ the tables

  // Entry k of a row.
  function Pick(k: Byte, a: Byte, b: Byte, c: Byte, d: Byte, e: Byte, f: Byte, g: Byte, h: Byte, i: Byte,
                j: Byte, l: Byte, m: Byte, n: Byte, o: Byte, p: Byte, q: Byte): Byte {
    if k < 8 then
      if k < 4 then
        if k < 2 then
          if k < 1 then a else b
        else
          if k < 3 then c else d
      else
        if k < 6 then
          if k < 5 then e else f
        else
          if k < 7 then g else h
    else
      if k < 12 then
        if k < 10 then
          if k < 9 then i else j
        else
          if k < 11 then l else m
      else
        if k < 14 then
          if k < 13 then n else o
        else
          if k < 15 then p else q
  }

  // aes->Sbox, by the high and the low half of the index
  function Sbox(r: Byte, k: Byte): Byte {
    if r < 8 then
      if r < 4 then
        if r < 2 then
          if r < 1 then
            Pick(k, 0x63, 0x7c, 0x77, 0x7b, 0xf2, 0x6b, 0x6f, 0xc5, 0x30, 0x01, 0x67, 0x2b, 0xfe, 0xd7, 0xab, 0x76)
          else
            Pick(k, 0xca, 0x82, 0xc9, 0x7d, 0xfa, 0x59, 0x47, 0xf0, 0xad, 0xd4, 0xa2, 0xaf, 0x9c, 0xa4, 0x72, 0xc0)
        else
          if r < 3 then
            Pick(k, 0xb7, 0xfd, 0x93, 0x26, 0x36, 0x3f, 0xf7, 0xcc, 0x34, 0xa5, 0xe5, 0xf1, 0x71, 0xd8, 0x31, 0x15)
          else
            Pick(k, 0x04, 0xc7, 0x23, 0xc3, 0x18, 0x96, 0x05, 0x9a, 0x07, 0x12, 0x80, 0xe2, 0xeb, 0x27, 0xb2, 0x75)
      else
        if r < 6 then
          if r < 5 then
            Pick(k, 0x09, 0x83, 0x2c, 0x1a, 0x1b, 0x6e, 0x5a, 0xa0, 0x52, 0x3b, 0xd6, 0xb3, 0x29, 0xe3, 0x2f, 0x84)
          else
            Pick(k, 0x53, 0xd1, 0x00, 0xed, 0x20, 0xfc, 0xb1, 0x5b, 0x6a, 0xcb, 0xbe, 0x39, 0x4a, 0x4c, 0x58, 0xcf)
        else
          if r < 7 then
            Pick(k, 0xd0, 0xef, 0xaa, 0xfb, 0x43, 0x4d, 0x33, 0x85, 0x45, 0xf9, 0x02, 0x7f, 0x50, 0x3c, 0x9f, 0xa8)
          else
            Pick(k, 0x51, 0xa3, 0x40, 0x8f, 0x92, 0x9d, 0x38, 0xf5, 0xbc, 0xb6, 0xda, 0x21, 0x10, 0xff, 0xf3, 0xd2)
    else
      if r < 12 then
        if r < 10 then
          if r < 9 then
            Pick(k, 0xcd, 0x0c, 0x13, 0xec, 0x5f, 0x97, 0x44, 0x17, 0xc4, 0xa7, 0x7e, 0x3d, 0x64, 0x5d, 0x19, 0x73)
          else
            Pick(k, 0x60, 0x81, 0x4f, 0xdc, 0x22, 0x2a, 0x90, 0x88, 0x46, 0xee, 0xb8, 0x14, 0xde, 0x5e, 0x0b, 0xdb)
        else
          if r < 11 then
            Pick(k, 0xe0, 0x32, 0x3a, 0x0a, 0x49, 0x06, 0x24, 0x5c, 0xc2, 0xd3, 0xac, 0x62, 0x91, 0x95, 0xe4, 0x79)
          else
            Pick(k, 0xe7, 0xc8, 0x37, 0x6d, 0x8d, 0xd5, 0x4e, 0xa9, 0x6c, 0x56, 0xf4, 0xea, 0x65, 0x7a, 0xae, 0x08)
      else
        if r < 14 then
          if r < 13 then
            Pick(k, 0xba, 0x78, 0x25, 0x2e, 0x1c, 0xa6, 0xb4, 0xc6, 0xe8, 0xdd, 0x74, 0x1f, 0x4b, 0xbd, 0x8b, 0x8a)
          else
            Pick(k, 0x70, 0x3e, 0xb5, 0x66, 0x48, 0x03, 0xf6, 0x0e, 0x61, 0x35, 0x57, 0xb9, 0x86, 0xc1, 0x1d, 0x9e)
        else
          if r < 15 then
            Pick(k, 0xe1, 0xf8, 0x98, 0x11, 0x69, 0xd9, 0x8e, 0x94, 0x9b, 0x1e, 0x87, 0xe9, 0xce, 0x55, 0x28, 0xdf)
          else
            Pick(k, 0x8c, 0xa1, 0x89, 0x0d, 0xbf, 0xe6, 0x42, 0x68, 0x41, 0x99, 0x2d, 0x0f, 0xb0, 0x54, 0xbb, 0x16)
  }

  // aes->InvSbox
  function InvSbox(r: Byte, k: Byte): Byte {
    if r < 8 then
      if r < 4 then
        if r < 2 then
          if r < 1 then
            Pick(k, 0x52, 0x09, 0x6a, 0xd5, 0x30, 0x36, 0xa5, 0x38, 0xbf, 0x40, 0xa3, 0x9e, 0x81, 0xf3, 0xd7, 0xfb)
          else
            Pick(k, 0x7c, 0xe3, 0x39, 0x82, 0x9b, 0x2f, 0xff, 0x87, 0x34, 0x8e, 0x43, 0x44, 0xc4, 0xde, 0xe9, 0xcb)
        else
          if r < 3 then
            Pick(k, 0x54, 0x7b, 0x94, 0x32, 0xa6, 0xc2, 0x23, 0x3d, 0xee, 0x4c, 0x95, 0x0b, 0x42, 0xfa, 0xc3, 0x4e)
          else
            Pick(k, 0x08, 0x2e, 0xa1, 0x66, 0x28, 0xd9, 0x24, 0xb2, 0x76, 0x5b, 0xa2, 0x49, 0x6d, 0x8b, 0xd1, 0x25)
      else
        if r < 6 then
          if r < 5 then
            Pick(k, 0x72, 0xf8, 0xf6, 0x64, 0x86, 0x68, 0x98, 0x16, 0xd4, 0xa4, 0x5c, 0xcc, 0x5d, 0x65, 0xb6, 0x92)
          else
            Pick(k, 0x6c, 0x70, 0x48, 0x50, 0xfd, 0xed, 0xb9, 0xda, 0x5e, 0x15, 0x46, 0x57, 0xa7, 0x8d, 0x9d, 0x84)
        else
          if r < 7 then
            Pick(k, 0x90, 0xd8, 0xab, 0x00, 0x8c, 0xbc, 0xd3, 0x0a, 0xf7, 0xe4, 0x58, 0x05, 0xb8, 0xb3, 0x45, 0x06)
          else
            Pick(k, 0xd0, 0x2c, 0x1e, 0x8f, 0xca, 0x3f, 0x0f, 0x02, 0xc1, 0xaf, 0xbd, 0x03, 0x01, 0x13, 0x8a, 0x6b)
    else
      if r < 12 then
        if r < 10 then
          if r < 9 then
            Pick(k, 0x3a, 0x91, 0x11, 0x41, 0x4f, 0x67, 0xdc, 0xea, 0x97, 0xf2, 0xcf, 0xce, 0xf0, 0xb4, 0xe6, 0x73)
          else
            Pick(k, 0x96, 0xac, 0x74, 0x22, 0xe7, 0xad, 0x35, 0x85, 0xe2, 0xf9, 0x37, 0xe8, 0x1c, 0x75, 0xdf, 0x6e)
        else
          if r < 11 then
            Pick(k, 0x47, 0xf1, 0x1a, 0x71, 0x1d, 0x29, 0xc5, 0x89, 0x6f, 0xb7, 0x62, 0x0e, 0xaa, 0x18, 0xbe, 0x1b)
          else
            Pick(k, 0xfc, 0x56, 0x3e, 0x4b, 0xc6, 0xd2, 0x79, 0x20, 0x9a, 0xdb, 0xc0, 0xfe, 0x78, 0xcd, 0x5a, 0xf4)
      else
        if r < 14 then
          if r < 13 then
            Pick(k, 0x1f, 0xdd, 0xa8, 0x33, 0x88, 0x07, 0xc7, 0x31, 0xb1, 0x12, 0x10, 0x59, 0x27, 0x80, 0xec, 0x5f)
          else
            Pick(k, 0x60, 0x51, 0x7f, 0xa9, 0x19, 0xb5, 0x4a, 0x0d, 0x2d, 0xe5, 0x7a, 0x9f, 0x93, 0xc9, 0x9c, 0xef)
        else
          if r < 15 then
            Pick(k, 0xa0, 0xe0, 0x3b, 0x4d, 0xae, 0x2a, 0xf5, 0xb0, 0xc8, 0xeb, 0xbb, 0x3c, 0x83, 0x53, 0x99, 0x61)
          else
            Pick(k, 0x17, 0x2b, 0x04, 0x7e, 0xba, 0x77, 0xd6, 0x26, 0xe1, 0x69, 0x14, 0x63, 0x55, 0x21, 0x0c, 0x7d)
  }

  function SubByte(x: Byte): Byte { Sbox(x >> 4, x & 0x0f) }

  function InvSubByte(x: Byte): Byte { InvSbox(x >> 4, x & 0x0f) }

  // The inverse table undoes the table.
  lemma SubBack(x: Byte)
    ensures InvSubByte(SubByte(x)) == x
  {
  }

  // ------------------------------------------------------------------ the field

  // Multiplication by x modulo x^8 + x^4 + x^3 + x + 1.
  function Double(b: Byte): Byte { Xor(Shifted(b), Reduction(b)) }

  function Shifted(b: Byte): Byte { b << 1 }

  function Reduction(b: Byte): Byte { if b & 0x80 != 0 then 0x1b else 0 }

  function Pow(b: Byte, i: nat): Byte { if i == 0 then b else Double(Pow(b, i - 1)) }

  function Bit(a: Byte, i: nat): bool
    requires i < 8
  {
    (a >> i) & 1 == 1
  }

  function When(c: bool, b: Byte): Byte { if c then b else 0 }

  function Xor(a: Byte, b: Byte): Byte { a ^ b }

  // The product with the number made of the low k bits of a.
  function Times(a: Byte, b: Byte, k: nat): Byte
    requires k <= 8
  {
    if k == 0 then 0 else Xor(Times(a, b, k - 1), When(Bit(a, k - 1), Pow(b, k - 1)))
  }

  function Product(a: Byte, b: Byte): Byte { Times(a, b, 4) }

  // _ztl_aes_FFmul
  method FFmul(a: Byte, b: Byte) returns (res: Byte)
    ensures res == Product(a, b)
  {
    hide Double, Bit, Xor, Times;
    var bw := new Byte[4];
    bw[0] := b;
    for i := 1 to 4
      invariant forall j :: 0 <= j < i ==> bw[j] == Pow(b, j)
    {
      bw[i] := bw[i - 1] << 1;
      if bw[i - 1] & 0x80 != 0 {
        bw[i] := bw[i] ^ 0x1b;
      }
      Doubled(bw[i - 1], bw[i]);
    }
    res := 0;
    TimesNext(a, b, 0);
    for i := 0 to 4
      invariant res == Times(a, b, i)
      modifies {}
    {
      TimesNext(a, b, i);
      XorZero(res, bw[i]);
      if Bit(a, i) {
        res := Xor(res, bw[i]);
      }
    }
  }

  lemma TimesNext(a: Byte, b: Byte, k: nat)
    requires k < 8
    ensures Times(a, b, 0) == 0 && Times(a, b, k + 1) == Xor(Times(a, b, k), When(Bit(a, k), Pow(b, k)))
  {
  }

  lemma Doubled(x: Byte, y: Byte)
    requires y == if x & 0x80 != 0 then (x << 1) ^ 0x1b else x << 1
    ensures y == Double(x)
  {
  }

  lemma XorZero(a: Byte, b: Byte)
    ensures Xor(a, 0) == a && Xor(0, b) == b && Xor(a, a) == 0 && Xor(Xor(a, b), b) == a
  {
  }

  // ------------------------------------------------------------------ linearity

  lemma Swap(a: Byte, b: Byte)
    ensures Xor(a, b) == Xor(b, a)
  {
  }

  lemma Group(a: Byte, b: Byte, c: Byte)
    ensures Xor(Xor(a, b), c) == Xor(a, Xor(b, c))
  {
  }

  lemma Exchange(a: Byte, b: Byte, c: Byte, d: Byte)
    ensures Xor(Xor(a, b), Xor(c, d)) == Xor(Xor(a, c), Xor(b, d))
  {
    hide Xor;
    Group(a, b, Xor(c, d));
    Group(b, c, d);
    Swap(b, c);
    Group(c, b, d);
    Group(a, c, Xor(b, d));
  }

  lemma ShiftedSum(a: Byte, b: Byte)
    ensures Shifted(Xor(a, b)) == Xor(Shifted(a), Shifted(b))
  {
  }

  lemma ReductionSum(a: Byte, b: Byte)
    ensures Reduction(Xor(a, b)) == Xor(Reduction(a), Reduction(b))
  {
  }

  lemma DoubleSum(a: Byte, b: Byte)
    ensures Double(Xor(a, b)) == Xor(Double(a), Double(b))
  {
    hide Xor, Shifted, Reduction;
    ShiftedSum(a, b);
    ReductionSum(a, b);
    Exchange(Shifted(a), Shifted(b), Reduction(a), Reduction(b));
  }

  lemma {:induction false} PowSum(a: Byte, b: Byte, i: nat)
    ensures Pow(Xor(a, b), i) == Xor(Pow(a, i), Pow(b, i))
    decreases i
  {
    hide Double, Xor;
    if i > 0 {
      PowSum(a, b, i - 1);
      DoubleSum(Pow(a, i - 1), Pow(b, i - 1));
    }
  }

  lemma {:induction false} TimesSum(m: Byte, a: Byte, b: Byte, k: nat)
    requires k <= 8
    ensures Times(m, Xor(a, b), k) == Xor(Times(m, a, k), Times(m, b, k))
    decreases k
  {
    hide Pow, Bit, Xor;
    XorZero(0, 0);
    if k > 0 {
      TimesSum(m, a, b, k - 1);
      PowSum(a, b, k - 1);
      Exchange(Times(m, a, k - 1), When(Bit(m, k - 1), Pow(a, k - 1)), Times(m, b, k - 1),
        When(Bit(m, k - 1), Pow(b, k - 1)));
    }
  }

  // ------------------------------------------------------------------ columns

  function Four(a: Byte, b: Byte, c: Byte, d: Byte): Byte { Xor(Xor(Xor(a, b), c), d) }

  // One byte of a column mixed with the four factors.
  function Mixed(p: Byte, q: Byte, r: Byte, s: Byte, a: Byte, b: Byte, c: Byte, d: Byte): Byte {
    Four(Product(p, a), Product(q, b), Product(r, c), Product(s, d))
  }

  lemma ProductFour(m: Byte, a: Byte, b: Byte, c: Byte, d: Byte)
    ensures Product(m, Four(a, b, c, d)) == Four(Product(m, a), Product(m, b), Product(m, c), Product(m, d))
  {
    hide Xor, Times;
    TimesSum(m, Xor(Xor(a, b), c), d, 4);
    TimesSum(m, Xor(a, b), c, 4);
    TimesSum(m, a, b, 4);
  }

  // The bits of a factor.
  lemma Factor(m: Byte, b: Byte)
    ensures Product(m, b) == Four(When(Bit(m, 0), b), When(Bit(m, 1), Double(b)), When(Bit(m, 2), Double(Double(b))),
      When(Bit(m, 3), Double(Double(Double(b)))))
  {
    hide Double, Bit, Xor;
    assert Pow(b, 1) == Double(b);
    assert Pow(b, 2) == Double(Double(b));
    assert Pow(b, 3) == Double(Double(Double(b)));
    TimesNext(m, b, 0);
    TimesNext(m, b, 1);
    TimesNext(m, b, 2);
    TimesNext(m, b, 3);
    XorZero(0, When(Bit(m, 0), b));
  }

  lemma Bits()
    ensures Bit(1, 0) && !Bit(1, 1) && !Bit(1, 2) && !Bit(1, 3)
    ensures !Bit(2, 0) && Bit(2, 1) && !Bit(2, 2) && !Bit(2, 3)
    ensures Bit(3, 0) && Bit(3, 1) && !Bit(3, 2) && !Bit(3, 3)
    ensures Bit(9, 0) && !Bit(9, 1) && !Bit(9, 2) && Bit(9, 3)
    ensures Bit(0x0b, 0) && Bit(0x0b, 1) && !Bit(0x0b, 2) && Bit(0x0b, 3)
    ensures Bit(0x0d, 0) && !Bit(0x0d, 1) && Bit(0x0d, 2) && Bit(0x0d, 3)
    ensures !Bit(0x0e, 0) && Bit(0x0e, 1) && Bit(0x0e, 2) && Bit(0x0e, 3)
  {
  }

  lemma Factors(b: Byte)
    ensures var (x, y, z) := (Double(b), Double(Double(b)), Double(Double(Double(b))));
      && Product(1, b) == b && Product(2, b) == x && Product(3, b) == Xor(b, x) && Product(9, b) == Xor(b, z)
      && Product(0x0b, b) == Xor(Xor(b, x), z) && Product(0x0d, b) == Xor(Xor(b, y), z)
      && Product(0x0e, b) == Xor(Xor(x, y), z)
  {
    hide Double, Product, Bit, Xor;
    Bits();
    Factor(1, b);
    Factor(2, b);
    Factor(3, b);
    Factor(9, b);
    Factor(0x0b, b);
    Factor(0x0d, b);
    Factor(0x0e, b);
    XorZero(b, 0);
    XorZero(Double(b), 0);
    XorZero(Xor(b, Double(b)), 0);
    XorZero(0, Double(b));
    XorZero(0, 0);
    XorZero(b, Double(Double(b)));
  }

  lemma DoubledTwice(a: Byte, b: Byte)
    ensures Double(Double(Xor(a, b))) == Xor(Double(Double(a)), Double(Double(b)))
    ensures Double(Double(Double(Xor(a, b)))) == Xor(Double(Double(Double(a))), Double(Double(Double(b))))
  {
    hide Double, Xor;
    DoubleSum(a, b);
    DoubleSum(Double(a), Double(b));
    DoubleSum(Double(Double(a)), Double(Double(b)));
  }

  // The inverse factors against the factors: only a byte's own contribution remains.
  lemma Unmixed(x: Byte)
    ensures Four(Product(0x0e, Product(2, x)), Product(0x0b, x), Product(0x0d, x), Product(9, Product(3, x))) == x
    ensures Four(Product(0x0e, Product(3, x)), Product(0x0b, Product(2, x)), Product(0x0d, x), Product(9, x)) == 0
    ensures Four(Product(0x0e, x), Product(0x0b, Product(3, x)), Product(0x0d, Product(2, x)), Product(9, x)) == 0
    ensures Four(Product(0x0e, x), Product(0x0b, x), Product(0x0d, Product(3, x)), Product(9, Product(2, x))) == 0
  {
    hide Product, Double, Four, Xor;
    var d := Double(x);
    Factors(x);
    Factors(d);
    Factors(Xor(x, d));
    DoubleSum(x, d);
    DoubledTwice(x, d);
    var (e, f, g) := (Double(d), Double(Double(d)), Double(Double(Double(d))));
    Meet(d, e, f);
    Meet(x, d, e);
    Meet(e, f, g);
    Group(Xor(x, d), Xor(e, f), Xor(f, g));
    Cancelled0(x, d, e, f, g);
    Cancelled1(x, d, e, f, g);
    Cancelled2(x, d, e, f, g);
    Cancelled3(x, d, e, f, g);
  }

  lemma Meet(a: Byte, b: Byte, c: Byte)
    ensures Xor(Xor(a, b), Xor(b, c)) == Xor(a, c)
  {
  }

  lemma Cancelled0(x: Byte, d: Byte, e: Byte, f: Byte, g: Byte)
    ensures Four(Xor(Xor(e, f), g), Xor(Xor(x, d), f), Xor(Xor(x, e), f), Xor(Xor(x, d), Xor(f, g))) == x
  {
  }

  lemma Cancelled1(x: Byte, d: Byte, e: Byte, f: Byte, g: Byte)
    ensures Four(Xor(Xor(d, f), Xor(f, g)), Xor(Xor(d, e), g), Xor(Xor(x, e), f), Xor(x, f)) == 0
  {
  }

  lemma Cancelled2(x: Byte, d: Byte, e: Byte, f: Byte, g: Byte)
    ensures Four(Xor(Xor(d, e), f), Xor(Xor(x, e), Xor(f, g)), Xor(Xor(d, f), g), Xor(x, f)) == 0
  {
  }

  lemma Cancelled3(x: Byte, d: Byte, e: Byte, f: Byte, g: Byte)
    ensures Four(Xor(Xor(d, e), f), Xor(Xor(x, d), f), Xor(Xor(x, d), Xor(e, g)), Xor(d, g)) == 0
  {
  }

  lemma FourSum(a: Byte, b: Byte, c: Byte, d: Byte, e: Byte, f: Byte, g: Byte, h: Byte)
    ensures Xor(Four(a, b, c, d), Four(e, f, g, h)) == Four(Xor(a, e), Xor(b, f), Xor(c, g), Xor(d, h))
  {
    hide Xor;
    Exchange(Xor(Xor(a, b), c), d, Xor(Xor(e, f), g), h);
    Exchange(Xor(a, b), c, Xor(e, f), g);
    Exchange(a, b, e, f);
  }

  lemma Rotated(a: Byte, b: Byte, c: Byte, d: Byte)
    ensures Four(a, b, c, d) == Four(d, a, b, c)
  {
    hide Xor;
    Swap(Xor(Xor(a, b), c), d);
    Group(d, Xor(a, b), c);
    Group(d, a, b);
  }

  lemma Transposed(a: Byte, b: Byte, c: Byte, d: Byte, e: Byte, f: Byte, g: Byte, h: Byte,
                   i: Byte, j: Byte, k: Byte, l: Byte, m: Byte, n: Byte, o: Byte, p: Byte)
    ensures Four(Four(a, b, c, d), Four(e, f, g, h), Four(i, j, k, l), Four(m, n, o, p))
      == Four(Four(a, e, i, m), Four(b, f, j, n), Four(c, g, k, o), Four(d, h, l, p))
  {
    hide Xor, Four;
    FourSum(a, b, c, d, e, f, g, h);
    FourSum(Xor(a, e), Xor(b, f), Xor(c, g), Xor(d, h), i, j, k, l);
    FourSum(Xor(Xor(a, e), i), Xor(Xor(b, f), j), Xor(Xor(c, g), k), Xor(Xor(d, h), l), m, n, o, p);
    FourIs(Four(a, b, c, d), Four(e, f, g, h), Four(i, j, k, l), Four(m, n, o, p));
    FourIs(a, e, i, m);
    FourIs(b, f, j, n);
    FourIs(c, g, k, o);
    FourIs(d, h, l, p);
  }

  lemma FourIs(a: Byte, b: Byte, c: Byte, d: Byte)
    ensures Four(a, b, c, d) == Xor(Xor(Xor(a, b), c), d)
  {
  }

  function MixByte(a: Byte, b: Byte, c: Byte, d: Byte): Byte {
    Four(Product(2, a), Product(3, b), Product(1, c), Product(1, d))
  }

  function UnmixByte(a: Byte, b: Byte, c: Byte, d: Byte): Byte {
    Four(Product(0x0e, a), Product(0x0b, b), Product(0x0d, c), Product(9, d))
  }

  // Mixing a column and mixing it back.
  lemma ColumnBack(a: Byte, b: Byte, c: Byte, d: Byte)
    ensures UnmixByte(MixByte(a, b, c, d), MixByte(b, c, d, a), MixByte(c, d, a, b), MixByte(d, a, b, c)) == a
  {
    var (a2, a3, b2, b3) := (Product(2, a), Product(3, a), Product(2, b), Product(3, b));
    var (c2, c3, d2, d3) := (Product(2, c), Product(3, c), Product(2, d), Product(3, d));
    hide Xor, Four, Product;
    Factors(a);
    Factors(b);
    Factors(c);
    Factors(d);
    Rotated(b2, c3, d, a);
    Rotated(c2, d3, a, b);
    Rotated(b, c2, d3, a);
    Rotated(d2, a3, b, c);
    Rotated(c, d2, a3, b);
    Rotated(b, c, d2, a3);
    ProductFour(0x0e, a2, b3, c, d);
    ProductFour(0x0b, a, b2, c3, d);
    ProductFour(0x0d, a, b, c2, d3);
    ProductFour(9, a3, b, c, d2);
    Transposed(Product(0x0e, a2), Product(0x0e, b3), Product(0x0e, c), Product(0x0e, d),
      Product(0x0b, a), Product(0x0b, b2), Product(0x0b, c3), Product(0x0b, d),
      Product(0x0d, a), Product(0x0d, b), Product(0x0d, c2), Product(0x0d, d3),
      Product(9, a3), Product(9, b), Product(9, c), Product(9, d2));
    Unmixed(a);
    Unmixed(b);
    Unmixed(c);
    Unmixed(d);
    OnlyOne(a);
  }

  lemma OnlyOne(a: Byte)
    ensures Four(a, 0, 0, 0) == a
  {
  }
}
