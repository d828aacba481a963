// The streaming context of SHA-1, over any block function.
module Sha1 {
  import opened Common
  import opened Octets
  import opened BlockFold

  const TWO32 := 0x1_0000_0000
  const TWO64 := 0x1_0000_0000_0000_0000

  type State = s: seq<Word> | |s| == 5 witness [0, 0, 0, 0, 0]

  const INITIAL: State := [0x67452301, 0xEFCDAB89, 0x98BADCFE, 0x10325476, 0xC3D2E1F0]

  // Byte k of a word, the highest first.
  function ByteAt(w: Word, k: nat): Byte
    requires k < 4
  {
    if k == 0 then w / 0x100_0000 else if k == 1 then w / 0x1_0000 % 256 else if k == 2 then w / 256 % 256 else w % 256
  }

  // The bytes of some words.
  function BigEndian(s: seq<Word>): (b: seq<Byte>)
    ensures |b| == 4 * |s| && forall i :: 0 <= i < |b| ==> b[i] == ByteAt(s[i / 4], i % 4)
  {
    seq(4 * |s|, i requires 0 <= i < 4 * |s| => ByteAt(s[i / 4], i % 4))
  }

  // The two words of a number of bits, the high one first.
  function Length(bits: nat): (b: seq<Byte>)
    ensures |b| == 8
  {
    BigEndian([bits / TWO32 % TWO32, bits % TWO32])
  }

  // The message as section 5.1.1 of FIPS 180-4 pads it.
  function PaddedMessage(m: seq<Byte>): (p: seq<Byte>)
    ensures |p| % 64 == 0
  {
    Padded(m, Length(8 * |m|))
  }

  lemma WordBack(w: Word)
    ensures ((ByteAt(w, 0) * 256 + ByteAt(w, 1)) * 256 + ByteAt(w, 2)) * 256 + ByteAt(w, 3) == w
  {
    assert w / 256 / 256 == w / 0x1_0000 && w / 0x1_0000 / 256 == w / 0x100_0000;
  }

  lemma {:induction false} FourMoreBytes(b: seq<Byte>)
    requires |b| >= 4
    ensures var n := |b|;
      HighFirst(b) == (((HighFirst(b[..n - 4]) * 256 + b[n - 4]) * 256 + b[n - 3]) * 256 + b[n - 2]) * 256 + b[n - 1]
  {
    var n := |b|;
    assert b[..n - 1][..n - 2] == b[..n - 2] && b[..n - 2][..n - 3] == b[..n - 3] && b[..n - 3][..n - 4] == b[..n - 4];
    assert HighFirst(b) == 256 * HighFirst(b[..n - 1]) + b[n - 1];
    assert HighFirst(b[..n - 1]) == 256 * HighFirst(b[..n - 2]) + b[n - 2];
    assert HighFirst(b[..n - 2]) == 256 * HighFirst(b[..n - 3]) + b[n - 3];
    assert HighFirst(b[..n - 3]) == 256 * HighFirst(b[..n - 4]) + b[n - 4];
  }

  // The eight bytes spell the number of bits modulo 2^64.
  lemma LengthSpells(bits: nat)
    ensures HighFirst(Length(bits)) == bits % TWO64
  {
    var (high, low) := (bits / TWO32 % TWO32, bits % TWO32);
    var b := Length(bits);
    EightBytes(high, low);
    hide Length, BigEndian, ByteAt, HighFirst;
    FourMoreBytes(b);
    FourMoreBytes(b[..4]);
    NothingSpelled(b[..4][..0]);
    WordBack(high);
    WordBack(low);
    SixtyFour(bits);
  }

  lemma NothingSpelled(b: seq<Byte>)
    requires b == []
    ensures HighFirst(b) == 0
  {
  }

  lemma EightBytes(high: Word, low: Word)
    ensures var b := BigEndian([high, low]);
      && b[0] == ByteAt(high, 0) && b[1] == ByteAt(high, 1) && b[2] == ByteAt(high, 2) && b[3] == ByteAt(high, 3)
      && b[4] == ByteAt(low, 0) && b[5] == ByteAt(low, 1) && b[6] == ByteAt(low, 2) && b[7] == ByteAt(low, 3)
  {
    hide ByteAt;
  }

  lemma SixtyFour(bits: nat)
    ensures bits / TWO32 % TWO32 * TWO32 + bits % TWO32 == bits % TWO64
  {
  }

  // Two messages shorter than 2^61 bytes are not padded to the same.
  lemma PaddedApart(m: seq<Byte>, n: seq<Byte>)
    requires PaddedMessage(m) == PaddedMessage(n) && 8 * |m| < TWO64 && 8 * |n| < TWO64
    ensures m == n
  {
    hide HighFirst, Length;
    LengthSpells(8 * |m|);
    LengthSpells(8 * |n|);
    PaddedOnce(m, n, Length(8 * |m|), Length(8 * |n|));
  }

  function Digest(f: (State, seq<Byte>) -> State, m: seq<Byte>): seq<Byte> {
    BigEndian(Fold(f, INITIAL, PaddedMessage(m)))
  }

  // ------------------------------------------------------------------ the bit counter

  // Two words hold the number of bits modulo 2^64.
  predicate Counts(low: Word, high: Word, n: nat) { low + TWO32 * high == 8 * n % TWO64 }

  // The bytes waiting in the buffer.
  lemma Waiting(low: Word, high: Word, n: nat)
    requires Counts(low, high, n)
    ensures low / 8 % 64 == n % 64 && low % 8 == 0
  {
    var q := 8 * n / TWO64;
    assert 8 * n == TWO64 * q + low + TWO32 * high;
    Eighth(low, n - 0x2000_0000_0000_0000 * q - 0x2000_0000 * high);
    Mod64(n, low / 8, 0x80_0000_0000_0000 * q + 0x80_0000 * high);
  }

  lemma Eighth(x: nat, b: int)
    requires x == 8 * b
    ensures x / 8 == b && x % 8 == 0
  {
  }

  lemma Mod64(n: nat, b: nat, c: int)
    requires n == b + 64 * c
    ensures n % 64 == b % 64
  {
  }

  // The addition of ZTL_SHA1Update, with its carry.
  lemma CountAdds(low: Word, high: Word, n: nat, len: nat)
    requires Counts(low, high, n) && len < TWO32
    ensures var low' := (low + len * 8 % TWO32) % TWO32;
      Counts(low', (high + (if low' < low then 1 else 0) + len / 0x2000_0000) % TWO32, n + len)
  {
    var part, hi := len * 8 % TWO32, len / 0x2000_0000;
    assert len * 8 == TWO32 * hi + part;
    var low' := (low + part) % TWO32;
    var carry := if low' < low then 1 else 0;
    assert low + part == low' + TWO32 * carry;
    var sum := high + carry + hi;
    assert low' + TWO32 * sum == 8 * n % TWO64 + 8 * len;
    var q := 8 * n / TWO64;
    assert 8 * (n + len) == TWO64 * q + low' + TWO32 * sum;
    var h := sum % TWO32;
    assert sum == TWO32 * (sum / TWO32) + h;
    assert 8 * (n + len) == TWO64 * (q + sum / TWO32) + (low' + TWO32 * h);
    ModOf(8 * (n + len), q + sum / TWO32, low' + TWO32 * h);
  }

  lemma ModOf(x: nat, q: int, r: nat)
    requires x == TWO64 * q + r && r < TWO64
    ensures x % TWO64 == r
  {
  }

  // ------------------------------------------------------------------ the context

  class Context {
    const f: (State, seq<Byte>) -> State
    var state: State
    var count0: Word
    var count1: Word
    const buffer: array<Byte>
    // What has been handed in.
    ghost var message: seq<Byte>

    ghost predicate Valid()
      reads this, buffer
    {
      && buffer.Length == 64 && Counts(count0, count1, |message|)
      && Absorbed(f, INITIAL, message, state, buffer[..])
    }

    // ZTL_SHA1Init
    constructor (f: (State, seq<Byte>) -> State)
      ensures Valid() && message == [] && this.f == f && fresh(buffer)
    {
      this.f := f;
      state := INITIAL;
      count0, count1 := 0, 0;
      buffer := new Byte[64];
      message := [];
      new;
      assert message[..0] == [];
    }

    // ZTL_SHA1Update. Chunks up to 2^32 - 64 bytes keep j + len and i + 63 below 2^32.
    method Update(data: seq<Byte>)
      requires Valid() && |data| <= TWO32 - 64
      modifies this, buffer
      ensures Valid() && message == old(message) + data
    {
      hide Absorbed, Counts;
      var j := Tally(|data|);
      Take(data, j);
    }

    // The counter. j is how many bytes wait in the buffer.
    method Tally(len: nat) returns (j: nat)
      requires Counts(count0, count1, |message|) && len < TWO32
      modifies `count0, `count1
      ensures Counts(count0, count1, |message| + len) && j == |message| % 64
    {
      CountAdds(count0, count1, |message|, len);
      Waiting(count0, count1, |message|);
      hide Counts;
      j := count0;
      TwoSteps(count1, if (count0 + len * 8 % TWO32) % TWO32 < j then 1 else 0, len / 0x2000_0000);
      count0 := (count0 + len * 8 % TWO32) % TWO32;
      if count0 < j {
        count1 := (count1 + 1) % TWO32;
      }
      count1 := (count1 + len / 0x2000_0000) % TWO32;
      j := j / 8 % 64;
    }

    // The buffer and the blocks.
    method Take(data: seq<Byte>, j0: nat)
      requires buffer.Length == 64 && Absorbed(f, INITIAL, message, state, buffer[..]) && j0 == |message| % 64
      requires |data| <= TWO32 - 64
      modifies `state, `message, buffer
      ensures message == old(message) + data && Absorbed(f, INITIAL, message, state, buffer[..])
    {
      hide Absorbed, Folded;
      ghost var m, n := message, |message|;
      AbsorbedMeans(f, INITIAL, m, state, buffer[..]);
      FoldedLonger(f, INITIAL, m, data, n - j0, state);
      var len, j, i := |data|, j0, 0;
      NoWrap(j + len);
      if (j + len) % TWO32 > 63 {
        i := Fill(data, j);
        j := 0;
      }
      Keep(data, i, j, m, j0);
    }

    // The buffer is filled up and folded, and then the blocks of the data itself are.
    method Fill(data: seq<Byte>, j: nat) returns (i: nat)
      requires buffer.Length == 64 && j == |message| % 64 && 64 <= j + |data| && |data| <= TWO32 - 64
      requires Folded(f, INITIAL, message + data, |message| - j, state) && buffer[..j] == message[|message| - j..]
      modifies `state, buffer
      ensures i <= |data| < i + 64 && Folded(f, INITIAL, message + data, |message| + i, state)
    {
      hide Folded;
      ghost var n, t := |message|, message + data;
      i := 64 - j;
      Copy(buffer, j, data[..i]);
      assert buffer[..] == t[n - j..n + i];
      FoldedNext(f, INITIAL, t, n - j, state, buffer[..]);
      state := f(state, buffer[..]);
      i := Blocks(data, i, message);
    }

    // What is left of the data goes to the buffer.
    method Keep(data: seq<Byte>, i: nat, j: nat, ghost m: seq<Byte>, ghost j0: nat)
      requires buffer.Length == 64 && i <= |data| && j <= |m| + i && j0 <= |m| && j + |data| - i < 64
      requires Folded(f, INITIAL, m + data, |m| + i - j, state)
      requires (j == j0 && i == 0 && buffer[..j0] == m[|m| - j0..]) || j == 0
      modifies `message, buffer
      ensures message == m + data && Absorbed(f, INITIAL, message, state, buffer[..])
    {
      hide Absorbed, Folded;
      ghost var b := buffer[..];
      assert j == j0 ==> b[..j0] == buffer[..j0];
      Copy(buffer, j, data[i..]);
      message := m + data;
      Joined(m, data, j0, i, j, b, buffer[..]);
      AbsorbedIs(f, INITIAL, message, |m| + i - j, state, buffer[..]);
    }

    // The loop over the blocks of the data itself.
    method Blocks(data: seq<Byte>, i0: nat, ghost m: seq<Byte>) returns (i: nat)
      requires Folded(f, INITIAL, m + data, |m| + i0, state) && i0 <= |data| <= TWO32 - 64
      modifies `state
      ensures Folded(f, INITIAL, m + data, |m| + i, state) && i0 <= i <= |data| < i + 64
    {
      hide Folded;
      i := i0;
      while (i + 63) % TWO32 < |data|
        invariant i0 <= i <= |data| && Folded(f, INITIAL, m + data, |m| + i, state)
      {
        assert data[i..i + 64] == (m + data)[|m| + i..|m| + i + 64];
        FoldedNext(f, INITIAL, m + data, |m| + i, state, data[i..i + 64]);
        state := f(state, data[i..i + 64]);
        i := i + 64;
      }
    }

    // ZTL_SHA1Final
    method Final() returns (digest: array<Byte>)
      requires Valid()
      modifies this, buffer
      ensures fresh(digest) && digest[..] == Digest(f, old(message))
      ensures state == [0, 0, 0, 0, 0] && count0 == count1 == 0 && buffer.Length == 64
      ensures forall i :: 0 <= i < 64 ==> buffer[i] == 0
    {
      hide Absorbed, Counts, Fold, Gap, BigEndian;
      ghost var m := message;
      var finalcount := CountBytes();
      Pad();
      Update(finalcount);
      assert message == PaddedMessage(m);
      hide PaddedMessage;
      WholeFolded(f, m, state, buffer[..]);
      digest := Out();
      state, count0, count1 := [0, 0, 0, 0, 0], 0, 0;
      forall i | 0 <= i < 64 {
        buffer[i] := 0;
      }
    }

    // A one bit, and zeros until eight bytes are left.
    method Pad()
      requires Valid()
      modifies this, buffer
      ensures Valid() && message == old(message) + [0x80] + Repeat(0, Gap(|old(message)| + 1))
    {
      hide Absorbed, Counts, Fold, Gap;
      ghost var m, k := message, 0;
      ZerosNext(m, 0);
      Update([0x80]);
      Waiting(count0, count1, |message|);
      while count0 / 8 % 64 != 56
        invariant Valid() && k <= Gap(|m| + 1) && message == m + [0x80] + Repeat(0, k)
        invariant count0 / 8 % 64 == (|m| + 1 + k) % 64
        decreases Gap(|m| + 1) - k
      {
        GapLeft(|m| + 1, k);
        ZerosNext(m, k);
        Update([0]);
        k := k + 1;
        Waiting(count0, count1, |message|);
      }
      GapLeft(|m| + 1, k);
    }

    // The first loop of ZTL_SHA1Final.
    method CountBytes() returns (finalcount: seq<Byte>)
      requires Counts(count0, count1, |message|)
      ensures finalcount == Length(8 * |message|)
    {
      CountWords(count0, count1, |message|);
      var bytes := new Byte[8];
      for i := 0 to 8
        invariant forall k :: 0 <= k < i ==> bytes[k] == ByteAt([count1, count0][k / 4], k % 4)
      {
        bytes[i] := ByteAt(if i >= 4 then count0 else count1, i % 4);
      }
      finalcount := bytes[..];
    }

    // Its last loop.
    method Out() returns (digest: array<Byte>)
      ensures fresh(digest) && digest[..] == BigEndian(state)
    {
      digest := new Byte[20];
      for i := 0 to 20
        invariant forall k :: 0 <= k < i ==> digest[k] == ByteAt(state[k / 4], k % 4)
        modifies digest
      {
        digest[i] := ByteAt(state[i / 4], i % 4);
      }
    }
  }

  lemma CountWords(low: Word, high: Word, n: nat)
    requires Counts(low, high, n)
    ensures low == 8 * n % TWO32 && high == 8 * n / TWO32 % TWO32
  {
    var q := 8 * n / TWO64;
    assert 8 * n == TWO32 * (TWO32 * q + high) + low;
    Quotient(8 * n, TWO32 * q + high, low);
    Quotient(TWO32 * q + high, q, high);
  }

  lemma Quotient(x: nat, q: nat, r: nat)
    requires x == TWO32 * q + r && r < TWO32
    ensures x / TWO32 == q && x % TWO32 == r
  {
  }

  // Fewer zeros than the gap leave the length short of 56 modulo 64.
  lemma GapLeft(n: nat, k: nat)
    requires k <= Gap(n)
    ensures (n + k) % 64 == 56 <==> k == Gap(n)
  {
  }

  lemma ZerosNext(m: seq<Byte>, k: nat)
    ensures m + [0x80] + Repeat(0, k) + [0] == m + [0x80] + Repeat(0, k + 1)
    ensures m + [0x80] == m + [0x80] + Repeat(0, 0)
  {
  }

  lemma WholeFolded(f: (State, seq<Byte>) -> State, m: seq<Byte>, state: State, buffer: seq<Byte>)
    requires Absorbed(f, INITIAL, PaddedMessage(m), state, buffer)
    ensures state == Fold(f, INITIAL, PaddedMessage(m))
  {
    var p := PaddedMessage(m);
    assert p[..|p|] == p;
  }

  lemma TwoSteps(high: Word, carry: nat, hi: nat)
    requires carry <= 1
    ensures ((high + carry) % TWO32 + hi) % TWO32 == (high + carry + hi) % TWO32
    ensures high % TWO32 == high
  {
  }

  lemma NoWrap(x: nat)
    ensures x < TWO32 ==> x % TWO32 == x
  {
  }

  // However the message is cut into chunks, the digest is that of the whole.
  method HashChunks(f: (State, seq<Byte>) -> State, chunks: seq<seq<Byte>>) returns (digest: array<Byte>)
    requires forall i :: 0 <= i < |chunks| ==> |chunks[i]| <= TWO32 - 64
    ensures digest[..] == Digest(f, Concat(chunks))
  {
    hide Digest, Concat, Absorbed, Counts;
    var context := new Context(f);
    ConcatNone(chunks);
    for i := 0 to |chunks|
      invariant context.Valid() && fresh(context.buffer) && context.f == f && context.message == Concat(chunks[..i])
    {
      ConcatNext(chunks, i);
      context.Update(chunks[i]);
    }
    assert chunks[..|chunks|] == chunks;
    digest := context.Final();
  }
}
