// Base64 as ztl_base64.c reads and writes it.
module Base64 {
  import opened Common
  import opened Bytes

  const PAD: Byte := 61
  const FIRST: Byte := 43
  const LAST: Byte := 122
  const NO_DIGIT: Byte := 255

  // ------------------------------------------------------------------ the tables

  function EncodeRow(r: nat): (s: seq<nat>)
    requires r < 8
    ensures |s| == 8
  {
    match r
    case 0 => [65, 66, 67, 68, 69, 70, 71, 72]
    case 1 => [73, 74, 75, 76, 77, 78, 79, 80]
    case 2 => [81, 82, 83, 84, 85, 86, 87, 88]
    case 3 => [89, 90, 97, 98, 99, 100, 101, 102]
    case 4 => [103, 104, 105, 106, 107, 108, 109, 110]
    case 5 => [111, 112, 113, 114, 115, 116, 117, 118]
    case 6 => [119, 120, 121, 122, 48, 49, 50, 51]
    case _ => [52, 53, 54, 55, 56, 57, 43, 47]
  }

  // base64en
  function Digit(n: nat): nat
    requires n < 64
  {
    EncodeRow(n / 8)[n % 8]
  }

  function DecodeRow(r: nat): (s: seq<nat>)
    requires r < 16
    ensures |s| == 8
  {
    match r
    case 5 => [255, 255, 255, 62, 255, 255, 255, 63]
    case 6 => [52, 53, 54, 55, 56, 57, 58, 59]
    case 7 => [60, 61, 255, 255, 255, 255, 255, 255]
    case 8 => [255, 0, 1, 2, 3, 4, 5, 6]
    case 9 => [7, 8, 9, 10, 11, 12, 13, 14]
    case 10 => [15, 16, 17, 18, 19, 20, 21, 22]
    case 11 => [23, 24, 25, 255, 255, 255, 255, 255]
    case 12 => [255, 26, 27, 28, 29, 30, 31, 32]
    case 13 => [33, 34, 35, 36, 37, 38, 39, 40]
    case 14 => [41, 42, 43, 44, 45, 46, 47, 48]
    case 15 => [49, 50, 51, 255, 255, 255, 255, 255]
    case _ => [255, 255, 255, 255, 255, 255, 255, 255]
  }

  // base64de
  function Value(n: nat): nat
    requires n < 128
  {
    DecodeRow(n / 8)[n % 8]
  }

  // The alphabet of table 1 of RFC 4648.
  lemma DigitIs(n: nat)
    requires n < 64
    ensures Digit(n) == if n < 26 then 65 + n else if n < 52 then 97 + (n - 26) else if n < 62 then 48 + (n - 52)
                        else if n == 62 then 43 else 47
  {
  }

  // The digits of a row, from the k-th on, are read back.
  predicate RowBack(r: nat, k: nat)
    requires r < 8 && k <= 8
    decreases 8 - k
  {
    k == 8 ||
    var d := EncodeRow(r)[k];
    43 <= d <= 122 && d != 61 && DecodeRow(d / 8)[d % 8] == 8 * r + k && RowBack(r, k + 1)
  }

  lemma Row0()
    ensures RowBack(0, 0)
  {
  }

  lemma Row1()
    ensures RowBack(1, 0)
  {
  }

  lemma Row2()
    ensures RowBack(2, 0)
  {
  }

  lemma Row3()
    ensures RowBack(3, 0)
  {
  }

  lemma Row4()
    ensures RowBack(4, 0)
  {
  }

  lemma Row5()
    ensures RowBack(5, 0)
  {
  }

  lemma Row6()
    ensures RowBack(6, 0)
  {
  }

  lemma Row7()
    ensures RowBack(7, 0)
  {
  }

  lemma RowsBack(r: nat)
    requires r < 8
    ensures RowBack(r, 0)
  {
    hide RowBack;
    Row0();
    Row1();
    Row2();
    Row3();
    Row4();
    Row5();
    Row6();
    Row7();
  }

  lemma {:induction false} RowAt(r: nat, k: nat, j: nat)
    requires r < 8 && k <= j < 8 && RowBack(r, k)
    ensures RowBack(r, j)
    decreases j - k
  {
    hide EncodeRow, DecodeRow;
    if k < j {
      RowAt(r, k + 1, j);
    }
  }

  lemma DigitRange(n: nat)
    requires n < 64
    ensures 43 <= Digit(n) <= 122 && Digit(n) != 61 && Value(Digit(n)) == n
  {
    hide EncodeRow, DecodeRow;
    RowsBack(n / 8);
    RowAt(n / 8, 0, n % 8);
  }

  lemma Below64(x: Byte)
    ensures x < 64 <==> x as nat < 64
  {
  }

  lemma Below128(x: Byte)
    ensures x < 128 <==> x as nat < 128
  {
  }

  // ------------------------------------------------------------------ single characters

  function En(x: Byte): Byte
    requires x < 64
  {
    Below64(x);
    DigitRange(x as nat);
    Digit(x as nat) as Byte
  }

  // The value of a character, or NO_DIGIT.
  function De(c: Byte): Byte
    requires c < 128
  {
    Below128(c);
    ValueRange(c as nat);
    Value(c as nat) as Byte
  }

  lemma ValueRange(n: nat)
    requires n < 128
    ensures Value(n) < 256
  {
  }

  predicate IsDigit(c: Byte) { FIRST <= c <= LAST && De(c) != NO_DIGIT }

  lemma DigitBack(x: Byte)
    requires x < 64
    ensures IsDigit(En(x)) && En(x) != PAD && De(En(x)) == x
  {
    hide EncodeRow, DecodeRow, Digit, Value;
    Below64(x);
    var n := x as nat;
    DigitRange(n);
    ByteBack(Digit(n));
    NatBack(x);
    InRange(Digit(n));
  }

  lemma InRange(d: nat)
    requires 43 <= d <= 122 && d != 61
    ensures FIRST <= d as Byte <= LAST && d as Byte != PAD
  {
  }

  // Six bits of three bytes, and back.
  function Six0(a: Byte): (r: Byte)
    ensures r < 64
  {
    a >> 2
  }

  function Six1(a: Byte, b: Byte): (r: Byte)
    ensures r < 64
  {
    ((a & 3) << 4) | (b >> 4)
  }

  function Six2(b: Byte, c: Byte): (r: Byte)
    ensures r < 64
  {
    ((b & 15) << 2) | (c >> 6)
  }

  function Six3(c: Byte): (r: Byte)
    ensures r < 64
  {
    c & 63
  }

  function Byte0(x: Byte, y: Byte): Byte { (x << 2) | ((y >> 4) & 3) }

  function Byte1(y: Byte, z: Byte): Byte { ((y & 15) << 4) | ((z >> 2) & 15) }

  function Byte2(z: Byte, w: Byte): Byte { ((z & 3) << 6) | w }

  lemma BytesBack(a: Byte, b: Byte, c: Byte)
    ensures Byte0(Six0(a), Six1(a, b)) == a && Byte1(Six1(a, b), Six2(b, c)) == b && Byte2(Six2(b, c), Six3(c)) == c
  {
  }

  // ------------------------------------------------------------------ encoding

  function EncodedLength(n: nat): nat { 4 * ((n + 2) / 3) }

  function Or0(m: seq<Byte>, i: nat): Byte { if i < |m| then m[i] else 0 }

  // Character n of the encoding, by section 4 of RFC 4648.
  function CharOf(m: seq<Byte>, n: nat): Byte
    requires n < EncodedLength(|m|)
  {
    var q := 3 * (n / 4);
    if n % 4 == 0 then En(Six0(m[q]))
    else if n % 4 == 1 then En(Six1(m[q], Or0(m, q + 1)))
    else if n % 4 == 2 then if q + 1 < |m| then En(Six2(m[q + 1], Or0(m, q + 2))) else PAD
    else if q + 2 < |m| then En(Six3(m[q + 2])) else PAD
  }

  function Encoded(m: seq<Byte>): (t: seq<Byte>)
    ensures |t| == EncodedLength(|m|) && forall n :: 0 <= n < |t| ==> t[n] == CharOf(m, n)
  {
    seq(EncodedLength(|m|), n requires 0 <= n < EncodedLength(|m|) => CharOf(m, n))
  }

  lemma FourChars(m: seq<Byte>, q: nat)
    requires 3 * q < |m|
    ensures 4 * q + 4 <= EncodedLength(|m|) && CharOf(m, 4 * q) == En(Six0(m[3 * q]))
    ensures CharOf(m, 4 * q + 1) == En(Six1(m[3 * q], Or0(m, 3 * q + 1)))
    ensures CharOf(m, 4 * q + 2) == if 3 * q + 1 < |m| then En(Six2(m[3 * q + 1], Or0(m, 3 * q + 2))) else PAD
    ensures CharOf(m, 4 * q + 3) == if 3 * q + 2 < |m| then En(Six3(m[3 * q + 2])) else PAD
  {
    hide En, Six0, Six1, Six2, Six3;
  }

  // Three bytes and four values of six bits, as one number of 24 bits.
  function Joined8(a: Byte, b: Byte, c: Byte): bv24 { ((a as bv24) << 16) | ((b as bv24) << 8) | (c as bv24) }

  function Joined6(w: Byte, x: Byte, y: Byte, z: Byte): bv24 {
    ((w as bv24) << 18) | ((x as bv24) << 12) | ((y as bv24) << 6) | (z as bv24)
  }

  lemma SameBits(a: Byte, b: Byte, c: Byte)
    ensures Joined6(Six0(a), Six1(a, b), Six2(b, c), Six3(c)) == Joined8(a, b, c)
  {
  }

  // Four characters stand for the bits of three bytes, the first on top; missing bytes count as 0, and characters that
  // hold no bit of the data are padding.
  lemma GroupIs(m: seq<Byte>, q: nat) returns (w: Byte, x: Byte, y: Byte, z: Byte)
    requires 3 * q < |m|
    ensures w < 64 && x < 64 && y < 64 && z < 64 && 4 * q + 4 <= |Encoded(m)|
    ensures Joined6(w, x, y, z) == Joined8(m[3 * q], Or0(m, 3 * q + 1), Or0(m, 3 * q + 2))
    ensures Encoded(m)[4 * q..4 * q + 4] ==
      [En(w), En(x), if 3 * q + 1 < |m| then En(y) else PAD, if 3 * q + 2 < |m| then En(z) else PAD]
  {
    hide En, Six0, Six1, Six2, Six3, CharOf, Joined6, Joined8, Or0;
    FourChars(m, q);
    var (a, b, c) := (m[3 * q], Or0(m, 3 * q + 1), Or0(m, 3 * q + 2));
    w, x, y, z := Six0(a), Six1(a, b), Six2(b, c), Six3(c);
    SameBits(a, b, c);
    Or0Is(m, 3 * q);
  }

  lemma Or0Is(m: seq<Byte>, i: nat)
    ensures i + 1 < |m| ==> Or0(m, i + 1) == m[i + 1]
    ensures i + 2 < |m| ==> Or0(m, i + 2) == m[i + 2]
  {
  }

  // ztl_base64_encode, with the NUL behind the text
  method Encode(m: seq<Byte>, out: array<Byte>) returns (length: nat)
    requires EncodedLength(|m|) < out.Length
    modifies out
    ensures length == EncodedLength(|m|) && out[..length] == Encoded(m) && out[length] == 0
  {
    hide En, Six0, Six1, Six2, Six3, CharOf;
    var s, j, l := 0, 0, 0 as Byte;
    ghost var q := 0;
    for i := 0 to |m|
      invariant 0 <= s < 3 && i == 3 * q + s && j == 4 * q + s && (s > 0 ==> l == m[i - 1])
      invariant forall n :: 0 <= n < j ==> out[n] == CharOf(m, n)
    {
      FourChars(m, q);
      var c := m[i];
      if s == 0 {
        s := 1;
        out[j] := En(Six0(c));
        j := j + 1;
      } else if s == 1 {
        s := 2;
        out[j] := En(Six1(l, c));
        j := j + 1;
      } else {
        s, q := 0, q + 1;
        out[j] := En(Six2(l, c));
        out[j + 1] := En(Six3(c));
        j := j + 2;
      }
      l := c;
    }
    if s == 1 {
      FourChars(m, q);
      out[j] := En(Six1(l, 0));
      out[j + 1], out[j + 2] := PAD, PAD;
      j := j + 3;
    } else if s == 2 {
      FourChars(m, q);
      out[j] := En(Six2(l, 0));
      out[j + 1] := PAD;
      j := j + 2;
    }
    out[j] := 0;
    length := j;
  }

  // ------------------------------------------------------------------ decoding

  // The first padding character, or the end.
  function Stop(t: seq<Byte>, i: nat): (k: nat)
    requires i <= |t|
    ensures i <= k <= |t| && (k < |t| ==> t[k] == PAD) && forall n :: i <= n < k ==> t[n] != PAD
    decreases |t| - i
  {
    if i == |t| || t[i] == PAD then i else Stop(t, i + 1)
  }

  predicate AllDigits(t: seq<Byte>, k: nat)
    requires k <= |t|
  {
    forall n :: 0 <= n < k ==> IsDigit(t[n])
  }

  function DeAt(t: seq<Byte>, i: nat): Byte { if i < |t| && t[i] < 128 then De(t[i]) else 0 }

  // Byte n of the data that the characters stand for.
  function ByteOf(t: seq<Byte>, n: nat): Byte {
    var q := 4 * (n / 3);
    if n % 3 == 0 then Byte0(DeAt(t, q), DeAt(t, q + 1))
    else if n % 3 == 1 then Byte1(DeAt(t, q + 1), DeAt(t, q + 2))
    else Byte2(DeAt(t, q + 2), DeAt(t, q + 3))
  }

  function Data(t: seq<Byte>, k: nat): (m: seq<Byte>)
    ensures |m| == 3 * k / 4 && forall n :: 0 <= n < |m| ==> m[n] == ByteOf(t, n)
  {
    seq(3 * k / 4, n => if n >= 0 then ByteOf(t, n) else 0)
  }

  // What the decoder makes of a text: its digits up to the first padding; nothing if the length or a character is
  // wrong.
  function Decoded(t: seq<Byte>): Option<seq<Byte>> {
    var k := Stop(t, 0);
    if |t| % 4 == 0 && AllDigits(t, k) then Some(Data(t, k)) else None
  }

  lemma ThreeBytes(t: seq<Byte>, q: nat)
    ensures ByteOf(t, 3 * q) == Byte0(DeAt(t, 4 * q), DeAt(t, 4 * q + 1))
    ensures ByteOf(t, 3 * q + 1) == Byte1(DeAt(t, 4 * q + 1), DeAt(t, 4 * q + 2))
    ensures ByteOf(t, 3 * q + 2) == Byte2(DeAt(t, 4 * q + 2), DeAt(t, 4 * q + 3))
  {
    hide Byte0, Byte1, Byte2, DeAt;
  }

  // The bits of a digit that begin the next byte.
  function Carry(s: nat, x: Byte): Byte {
    if s == 1 then x << 2 else if s == 2 then (x & 15) << 4 else (x & 3) << 6
  }

  // The bits of a digit that end the byte before.
  function Rest(s: nat, y: Byte): Byte {
    if s == 1 then (y >> 4) & 3 else if s == 2 then (y >> 2) & 15 else y
  }

  function Or(x: Byte, y: Byte): Byte { x | y }

  lemma Carried(x: Byte, y: Byte)
    ensures Or(Carry(1, x), Rest(1, y)) == Byte0(x, y)
    ensures Or(Carry(2, x), Rest(2, y)) == Byte1(x, y)
    ensures Or(Carry(3, x), Rest(3, y)) == Byte2(x, y)
  {
  }

  // One digit: s tells which of its group. The byte at j holds the bits carried over.
  method DecodeDigit(c: Byte, s: nat, out: array<Byte>, j: nat, ghost before: Byte) returns (k: nat)
    requires s < 4 && (if 1 <= s < 3 then j + 1 else j) < out.Length
    requires s > 0 ==> out[j] == Carry(s, before)
    modifies out
    ensures k == if s == 0 then j else j + 1
    ensures forall n :: 0 <= n < j ==> out[n] == old(out[n])
    ensures s == 1 ==> out[j] == Byte0(before, c)
    ensures s == 2 ==> out[j] == Byte1(before, c)
    ensures s == 3 ==> out[j] == Byte2(before, c)
    ensures s < 3 ==> out[k] == Carry(s + 1, c)
  {
    hide Byte0, Byte1, Byte2, Carry, Rest, Or;
    Carried(before, c);
    k := j;
    match s
    case 0 =>
      out[k] := Carry(1, c);
    case 1 =>
      out[k] := Or(out[k], Rest(1, c));
      k := k + 1;
      out[k] := Carry(2, c);
    case 2 =>
      out[k] := Or(out[k], Rest(2, c));
      k := k + 1;
      out[k] := Carry(3, c);
    case _ =>
      out[k] := Or(out[k], Rest(3, c));
      k := k + 1;
  }

  lemma DigitTest(c: Byte)
    ensures FIRST <= c <= LAST ==> c < 128 && (IsDigit(c) <==> De(c) != NO_DIGIT)
    ensures c < FIRST || c > LAST ==> !IsDigit(c)
  {
    hide De;
  }

  lemma DigitAt(t: seq<Byte>, i: nat)
    requires i < |t| && t[i] < 128
    ensures DeAt(t, i) == De(t[i])
  {
  }

  // ztl_base64_decode: the length is left alone if something is wrong.
  method Decode(t: seq<Byte>, out: array<Byte>) returns (length: Option<nat>)
    requires out.Length >= 3 * (|t| / 4)
    modifies out
    ensures Decoded(t) == None ==> length == None
    ensures Decoded(t).Some? ==>
      var m := Decoded(t).value; length == Some(|m|) && |m| <= out.Length && out[..|m|] == m
  {
    hide De, IsDigit, Byte0, Byte1, Byte2, Carry, ByteOf, DeAt;
    if |t| % 4 != 0 {
      return None;
    }
    var i, j, s := 0, 0, 0;
    ghost var q := 0;
    while i < |t|
      invariant 0 <= i <= |t| && Stop(t, i) == Stop(t, 0) && AllDigits(t, i)
      invariant 0 <= s < 4 && i == 4 * q + s && j == 3 * q + (if s == 0 then 0 else s - 1)
      invariant forall n :: 0 <= n < j ==> out[n] == ByteOf(t, n)
      invariant s > 0 ==> out[j] == Carry(s, DeAt(t, i - 1))
    {
      if t[i] == PAD {
        break;
      }
      DigitTest(t[i]);
      if t[i] < FIRST || t[i] > LAST {
        return None;
      }
      var c := De(t[i]);
      if c == NO_DIGIT {
        return None;
      }
      ThreeBytes(t, q);
      DigitAt(t, i);
      j := DecodeDigit(c, s, out, j, DeAt(t, if i > 0 then i - 1 else 0));
      i := i + 1;
      if s == 3 {
        s, q := 0, q + 1;
      } else {
        s := s + 1;
      }
    }
    length := Some(j);
  }

  // ------------------------------------------------------------------ there and back

  // How many of the characters are digits.
  function DigitCount(n: nat): nat { 4 * (n / 3) + if n % 3 == 0 then 0 else n % 3 + 1 }

  predicate Kind(c: Byte, digit: bool) { if digit then IsDigit(c) && c != PAD else c == PAD }

  lemma GroupKind(m: seq<Byte>, q: nat)
    requires 3 * q < |m|
    ensures 4 * q + 4 <= EncodedLength(|m|) && Kind(CharOf(m, 4 * q), true) && Kind(CharOf(m, 4 * q + 1), true)
    ensures Kind(CharOf(m, 4 * q + 2), 3 * q + 1 < |m|) && Kind(CharOf(m, 4 * q + 3), 3 * q + 2 < |m|)
  {
    hide En, Six0, Six1, Six2, Six3, IsDigit, CharOf;
    FourChars(m, q);
    DigitBack(Six0(m[3 * q]));
    DigitBack(Six1(m[3 * q], Or0(m, 3 * q + 1)));
    if 3 * q + 1 < |m| {
      DigitBack(Six2(m[3 * q + 1], Or0(m, 3 * q + 2)));
    }
    if 3 * q + 2 < |m| {
      DigitBack(Six3(m[3 * q + 2]));
    }
  }

  lemma CharKind(m: seq<Byte>, n: nat)
    requires n < EncodedLength(|m|)
    ensures Kind(CharOf(m, n), n < DigitCount(|m|))
  {
    hide CharOf, Kind;
    var q := n / 4;
    GroupKind(m, q);
    assert n == 4 * q + n % 4;
  }

  lemma EncodedStop(m: seq<Byte>)
    ensures Stop(Encoded(m), 0) == DigitCount(|m|) && AllDigits(Encoded(m), DigitCount(|m|))
  {
    hide IsDigit, CharOf;
    var t, d := Encoded(m), DigitCount(|m|);
    forall n | 0 <= n < |t|
      ensures Kind(t[n], n < d)
    {
      CharKind(m, n);
    }
    assert Stop(t, 0) < |t| ==> Kind(t[Stop(t, 0)], Stop(t, 0) < d);
    assert d < |t| ==> Kind(t[d], false);
  }

  lemma ByteAtBack(m: seq<Byte>, n: nat)
    requires n < |m|
    ensures ByteOf(Encoded(m), n) == m[n]
  {
    hide En, De, Six0, Six1, Six2, Six3, Byte0, Byte1, Byte2, CharOf, ByteOf, IsDigit;
    var t, q := Encoded(m), n / 3;
    FourChars(m, q);
    ThreeBytes(t, q);
    var (a, b, c) := (m[3 * q], Or0(m, 3 * q + 1), Or0(m, 3 * q + 2));
    BytesBack(a, b, c);
    DeBack(t, 4 * q, Six0(a));
    DeBack(t, 4 * q + 1, Six1(a, b));
    if 3 * q + 1 < |m| {
      DeBack(t, 4 * q + 2, Six2(b, c));
    }
    if 3 * q + 2 < |m| {
      DeBack(t, 4 * q + 3, Six3(c));
    }
    assert n == 3 * q + n % 3;
  }

  lemma DeBack(t: seq<Byte>, i: nat, x: Byte)
    requires i < |t| && x < 64 && t[i] == En(x)
    ensures DeAt(t, i) == x
  {
    hide En, De;
    DigitBack(x);
  }

  lemma DigitBytes(n: nat)
    ensures 3 * DigitCount(n) / 4 == n && EncodedLength(n) % 4 == 0
  {
  }

  // Decoding an encoding gives the data back.
  lemma RoundTrip(m: seq<Byte>)
    ensures Decoded(Encoded(m)) == Some(m)
  {
    hide CharOf, ByteOf, IsDigit, DigitCount, EncodedLength;
    var t := Encoded(m);
    EncodedStop(m);
    DigitBytes(|m|);
    forall n | 0 <= n < |m|
      ensures ByteOf(t, n) == m[n]
    {
      ByteAtBack(m, n);
    }
    assert Data(t, DigitCount(|m|)) == m;
  }
}
