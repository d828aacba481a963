// The \u sequences of a string against UTF-16 and UTF-8.
module JsonUnicode {
  import opened Common
  import opened Octets
  import opened JsonText
  import opened JsonParse
  import opened JsonRoundTrip

  // A code point that is no surrogate.
  predicate Scalar(n: nat) { n < 0xD800 || 0xE000 <= n < 0x110000 }

  function Digit(d: nat, upper: bool): Byte
    requires d < 16
  {
    if d < 10 then 48 + d else if upper then 55 + d else 87 + d
  }

  // Which of four digits are upper case.
  datatype Cases = Cases(a: bool, b: bool, c: bool, d: bool)

  // \uXXXX
  function Unit16(n: nat, upper: Cases): seq<Byte>
    requires n < 0x10000
  {
    [BACKSLASH, 117, Digit(n / 4096, upper.a), Digit(n / 256 % 16, upper.b), Digit(n / 16 % 16, upper.c),
      Digit(n % 16, upper.d)]
  }

  // One unit, or a surrogate pair.
  function Utf16Text(n: nat, upper: Cases, low: Cases): seq<Byte>
    requires Scalar(n)
  {
    if n < 0x10000 then Unit16(n, upper)
    else Unit16(0xD800 + (n - 0x10000) / 0x400, upper) + Unit16(0xDC00 + (n - 0x10000) % 0x400, low)
  }

  // Decoding by section 3 of RFC 3629: the number that the bytes spell, if the lead byte fits their count.
  function Decoded(b: seq<Byte>): Option<nat> {
    if |b| == 1 && b[0] < 0x80 then Some(b[0])
    else if |b| == 2 && 0xC0 <= b[0] < 0xE0 && Trail(b[1]) then Some(Spelled(b[0] % 0x20, b[1..]))
    else if |b| == 3 && 0xE0 <= b[0] < 0xF0 && Trail(b[1]) && Trail(b[2]) then
      Some(Spelled(b[0] % 0x10, b[1..]))
    else if |b| == 4 && 0xF0 <= b[0] < 0xF8 && Trail(b[1]) && Trail(b[2]) && Trail(b[3]) then
      Some(Spelled(b[0] % 8, b[1..]))
    else None
  }

  // The number with six more bits from each trailing byte.
  function Spelled(n: nat, trail: seq<Byte>): nat
    decreases |trail|
  {
    if trail == [] then n else Spelled(n * 64 + trail[0] % 64, trail[1..])
  }

  predicate Trail(b: Byte) { 0x80 <= b < 0xC0 }

  lemma Utf8Back(n: nat)
    requires n < 0x110000
    ensures Decoded(Utf8(n)) == Some(n)
  {
    hide Spelled;
    if 0x80 <= n < 0x800 {
      assert Utf8(n)[1..] == [0x80 + n % 64];
      SpelledOne(n);
    } else if 0x800 <= n < 0x10000 {
      assert Utf8(n)[1..] == [0x80 + n / 64 % 64, 0x80 + n % 64];
      SpelledTwo(n);
    } else if 0x10000 <= n {
      assert Utf8(n)[1..] == [0x80 + n / 4096 % 64, 0x80 + n / 64 % 64, 0x80 + n % 64];
      SpelledThree(n);
    }
  }

  lemma SpelledOne(n: nat)
    ensures Spelled(n / 64, [0x80 + n % 64]) == n
  {
    SpelledNext(n / 64, n, []);
    assert Spelled(n, []) == n;
    hide Spelled;
    assert [0x80 + n % 64] + [] == [0x80 + n % 64];
  }

  lemma SpelledTwo(n: nat)
    ensures Spelled(n / 4096, [0x80 + n / 64 % 64, 0x80 + n % 64]) == n
  {
    assert n / 64 / 64 == n / 4096;
    SpelledNext(n / 4096, n / 64, [0x80 + n % 64]);
    SpelledOne(n);
    hide Spelled;
    assert [0x80 + n / 64 % 64] + [0x80 + n % 64] == [0x80 + n / 64 % 64, 0x80 + n % 64];
  }

  lemma SpelledThree(n: nat)
    ensures Spelled(n / 262144, [0x80 + n / 4096 % 64, 0x80 + n / 64 % 64, 0x80 + n % 64]) == n
  {
    hide Spelled;
    assert n / 4096 / 64 == n / 262144;
    var rest := [0x80 + n / 64 % 64, 0x80 + n % 64];
    SpelledNext(n / 262144, n / 4096, rest);
    SpelledTwo(n);
    assert [0x80 + n / 4096 % 64] + rest == [0x80 + n / 4096 % 64, 0x80 + n / 64 % 64, 0x80 + n % 64];
  }

  lemma SpelledNext(high: nat, n: nat, rest: seq<Byte>)
    requires high == n / 64
    ensures Spelled(high, [0x80 + n % 64] + rest) == Spelled(n, rest)
  {
    assert ([0x80 + n % 64] + rest)[1..] == rest;
    assert high * 64 + (0x80 + n % 64) % 64 == n;
  }

  lemma DigitBack(d: nat, upper: bool)
    requires d < 16
    ensures HexValue(Digit(d, upper)) == Some(d)
  {
  }

  lemma UnitBack(c: seq<Byte>, p: nat, n: nat, upper: Cases)
    requires n < 0x10000 && At(c, p, Unit16(n, upper))
    ensures p + 6 <= |c| && c[p] == BACKSLASH && c[p + 1] == 117 && Hex4(c, p + 2) == n
  {
    var u := Unit16(n, upper);
    forall i | 0 <= i < 6
      ensures c[p + i] == u[i]
    {
      AtByte(c, p, u, i);
    }
    AtByte(c, p, u, 5);
    DigitBack(n / 4096, upper.a);
    DigitBack(n / 256 % 16, upper.b);
    DigitBack(n / 16 % 16, upper.c);
    DigitBack(n % 16, upper.d);
    assert n / 16 / 16 == n / 256 && n / 256 / 16 == n / 4096;
    assert c[p + 2] == u[2] && c[p + 3] == u[3] && c[p + 4] == u[4] && c[p + 5] == u[5];
  }

  // The sequence for a code point is read as that code point, and its bytes spell it in UTF-8.
  lemma CodePointBack(c: seq<Byte>, p: nat, end: nat, n: nat, upper: Cases, low: Cases)
    requires Scalar(n) && p < end < |c| && At(c, p, Utf16Text(n, upper, low)) && p + |Utf16Text(n, upper, low)| <= end
    ensures Literal(c, p, end).Some? && Literal(c, p, end).value.1 == |Utf16Text(n, upper, low)|
    ensures Literal(c, p, end).value.0 == Utf8(n) && Decoded(Utf8(n)) == Some(n)
  {
    hide Hex4, At, Unit16, Utf8, Decoded;
    Utf8Back(n);
    UnitSize(upper);
    UnitSize(low);
    if n < 0x10000 {
      UnitBack(c, p, n, upper);
    } else {
      var (first, second) := (0xD800 + (n - 0x10000) / 0x400, 0xDC00 + (n - 0x10000) % 0x400);
      AtParts(c, p, Unit16(first, upper), Unit16(second, low));
      UnitBack(c, p, first, upper);
      UnitBack(c, p + 6, second, low);
      assert 0x10000 + (first - 0xD800) * 0x400 + (second - 0xDC00) == n;
    }
  }

  lemma UnitSize(upper: Cases)
    ensures forall n: nat :: n < 0x10000 ==> |Unit16(n, upper)| == 6
  {
  }

  // Whatever is accepted stands for a code point that is no surrogate.
  lemma NoSurrogates(c: seq<Byte>, p: nat, end: nat)
    requires p < end < |c| && Literal(c, p, end).Some?
    ensures Decoded(Literal(c, p, end).value.0).Some? && Scalar(Decoded(Literal(c, p, end).value.0).value)
  {
    hide Hex4, Utf8, Decoded;
    var first := Hex4(c, p + 2);
    if 0xD800 <= first <= 0xDBFF {
      Utf8Back(0x10000 + (first - 0xD800) * 0x400 + (Hex4(c, p + 8) - 0xDC00));
    } else {
      Utf8Back(first);
    }
  }
}
