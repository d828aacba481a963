// The substitution table of AES by its definition: the inverse in the field, then an affine map.
module AesTable {
  import opened AesField
  import opened Bytes

  // The product in the field of 256 elements.
  function FieldProduct(a: Byte, b: Byte): Byte { Times(a, b, 8) }

  // The affine map of section 5.1.1 of FIPS 197.
  function Affine(x: Byte): Byte {
    x ^ ((x << 1) | (x >> 7)) ^ ((x << 2) | (x >> 6)) ^ ((x << 3) | (x >> 5)) ^ ((x << 4) | (x >> 4)) ^ 0x63
  }

  // As that section has it, bit by bit.
  lemma AffineBit(x: Byte, i: nat)
    requires i < 8
    ensures Bit(Affine(x), i) == (Bit(x, i) != (Bit(x, (i + 4) % 8) != (Bit(x, (i + 5) % 8) !=
      (Bit(x, (i + 6) % 8) != (Bit(x, (i + 7) % 8) != Bit(0x63, i))))))
  {
    match i
    case 0 =>
    case 1 =>
    case 2 =>
    case 3 =>
    case 4 =>
    case 5 =>
    case 6 =>
    case 7 =>
  }

  // ------------------------------------------------------------------ the product without recursion

  function Twice(b: Byte): Byte { if b & 0x80 != 0 then (b << 1) ^ 0x1b else b << 1 }

  function Flat(a: Byte, b: Byte): Byte {
    var c := Twice(b);
    var d := Twice(c);
    var e := Twice(d);
    var f := Twice(e);
    var g := Twice(f);
    var h := Twice(g);
    var i := Twice(h);
    Xor(Xor(Xor(Xor(Xor(Xor(Xor(When(a & 0x01 != 0, b), When(a & 0x02 != 0, c)), When(a & 0x04 != 0, d)),
      When(a & 0x08 != 0, e)), When(a & 0x10 != 0, f)), When(a & 0x20 != 0, g)), When(a & 0x40 != 0, h)),
      When(a & 0x80 != 0, i))
  }

  lemma TwiceIs(b: Byte)
    ensures Twice(b) == Double(b)
  {
    Doubled(b, Twice(b));
  }

  lemma BitsByMask(a: Byte)
    ensures Bit(a, 0) == (a & 0x01 != 0) && Bit(a, 1) == (a & 0x02 != 0) && Bit(a, 2) == (a & 0x04 != 0)
    ensures Bit(a, 3) == (a & 0x08 != 0) && Bit(a, 4) == (a & 0x10 != 0) && Bit(a, 5) == (a & 0x20 != 0)
    ensures Bit(a, 6) == (a & 0x40 != 0) && Bit(a, 7) == (a & 0x80 != 0)
  {
  }

  lemma PowTwice(b: Byte, k: nat)
    ensures Pow(b, 0) == b && Pow(b, k + 1) == Twice(Pow(b, k))
  {
    hide Double, Twice;
    TwiceIs(Pow(b, k));
  }

  lemma FlatIs(a: Byte, b: Byte)
    ensures Flat(a, b) == FieldProduct(a, b)
  {
    hide Bit, Double, Twice, Xor, When, Times, Pow;
    BitsByMask(a);
    PowTwice(b, 0);
    PowTwice(b, 1);
    PowTwice(b, 2);
    PowTwice(b, 3);
    PowTwice(b, 4);
    PowTwice(b, 5);
    PowTwice(b, 6);
    TimesNext(a, b, 0);
    TimesNext(a, b, 1);
    TimesNext(a, b, 2);
    TimesNext(a, b, 3);
    TimesNext(a, b, 4);
    TimesNext(a, b, 5);
    TimesNext(a, b, 6);
    TimesNext(a, b, 7);
    XorZero(0, When(Bit(a, 0), Pow(b, 0)));
  }

  lemma NoZeroDivisors(a: Byte, b: Byte)
    requires Flat(a, b) == 0
    ensures a == 0 || b == 0
  {
  }

  function Untwisted(y: Byte): Byte { ((y << 1) | (y >> 7)) ^ ((y << 3) | (y >> 5)) ^ ((y << 6) | (y >> 2)) ^ 0x05 }

  lemma AffineBack(x: Byte)
    ensures Affine(Untwisted(x)) == x && Untwisted(Affine(x)) == x
  {
  }

  lemma TableInverts(b: Byte)
    requires b != 0
    ensures Flat(b, Untwisted(SubByte(b))) == 1
  {
  }

  // ------------------------------------------------------------------ the table

  // Byte b becomes the affine map of its inverse in the field, and 0 that of 0.
  lemma SubByteIs(b: Byte, x: Byte)
    ensures SubByte(0) == Affine(0)
    ensures b != 0 ==> (FieldProduct(b, x) == 1 <==> SubByte(b) == Affine(x))
  {
    hide SubByte, Flat, FieldProduct, Affine, Untwisted, Xor;
    assert SubByte(0) == Affine(0) by {
      ZeroEntry();
    }
    if b != 0 {
      var y := Untwisted(SubByte(b));
      AffineBack(SubByte(b));
      AffineBack(x);
      TableInverts(b);
      FlatIs(b, x);
      if Flat(b, x) == 1 {
        FlatIs(b, y);
        FlatIs(b, Xor(x, y));
        OnlyInverse(b, x, y);
      }
    }
  }

  lemma ZeroEntry()
    ensures SubByte(0) == Affine(0)
  {
  }

  lemma OnlyInverse(b: Byte, x: Byte, y: Byte)
    requires b != 0 && Flat(b, x) == Flat(b, y)
    ensures x == y
  {
    hide Flat, Times;
    FlatIs(b, x);
    FlatIs(b, y);
    FlatIs(b, Xor(x, y));
    TimesSum(b, x, y, 8);
    XorZero(Times(b, x, 8), 0);
    NoZeroDivisors(b, Xor(x, y));
  }

  // Every byte but 0 has an inverse.
  lemma HasInverse(b: Byte) returns (x: Byte)
    requires b != 0
    ensures FieldProduct(b, x) == 1
  {
    x := Untwisted(SubByte(b));
    TableInverts(b);
    FlatIs(b, x);
  }
}
