// A digest as a fold over 64-byte blocks, and what a context holds of the message so far.
module BlockFold {
  import opened Common
  import opened Octets

  type Word = w: int | 0 <= w < 0x1_0000_0000

  // The block function over whole blocks.
  function Fold<S>(f: (S, seq<Byte>) -> S, s: S, d: seq<Byte>): S
    requires |d| % 64 == 0
    decreases |d|
  {
    if d == [] then s else Fold(f, f(s, d[..64]), d[64..])
  }

  lemma {:induction false} FoldMore<S>(f: (S, seq<Byte>) -> S, s: S, d: seq<Byte>, e: seq<Byte>)
    requires |d| % 64 == 0 && |e| % 64 == 0
    ensures |d + e| % 64 == 0 && Fold(f, s, d + e) == Fold(f, Fold(f, s, d), e)
    decreases |d|
  {
    if d == [] {
      assert d + e == e;
    } else {
      assert (d + e)[..64] == d[..64] && (d + e)[64..] == d[64..] + e;
      FoldMore(f, f(s, d[..64]), d[64..], e);
    }
  }

  lemma FoldOne<S>(f: (S, seq<Byte>) -> S, s: S, d: seq<Byte>, b: seq<Byte>)
    requires |d| % 64 == 0 && |b| == 64
    ensures Fold(f, s, d + b) == f(Fold(f, s, d), b)
  {
    FoldMore(f, s, d, b);
    assert b[..64] == b && b[64..] == [];
  }

  // The whole blocks of the message have been folded; the rest waits in the buffer.
  ghost predicate Absorbed<S>(f: (S, seq<Byte>) -> S, init: S, m: seq<Byte>, state: S, buffer: seq<Byte>) {
    var k := |m| / 64 * 64;
    |buffer| == 64 && state == Fold(f, init, m[..k]) && buffer[..|m| - k] == m[k..]
  }

  // The first k bytes of the message have been folded.
  ghost predicate Folded<S>(f: (S, seq<Byte>) -> S, init: S, m: seq<Byte>, k: nat, state: S) {
    k % 64 == 0 && k <= |m| && state == Fold(f, init, m[..k])
  }

  lemma FoldedNext<S>(f: (S, seq<Byte>) -> S, init: S, m: seq<Byte>, k: nat, state: S, block: seq<Byte>)
    requires Folded(f, init, m, k, state) && k + 64 <= |m| && block == m[k..k + 64]
    ensures Folded(f, init, m, k + 64, f(state, block))
  {
    hide Fold;
    FoldOne(f, init, m[..k], block);
    assert m[..k] + block == m[..k + 64];
  }

  // A message that goes on.
  lemma FoldedLonger<S>(f: (S, seq<Byte>) -> S, init: S, m: seq<Byte>, e: seq<Byte>, k: nat, state: S)
    requires Folded(f, init, m, k, state)
    ensures Folded(f, init, m + e, k, state)
  {
    hide Fold;
    assert (m + e)[..k] == m[..k];
  }

  lemma AbsorbedMeans<S>(f: (S, seq<Byte>) -> S, init: S, m: seq<Byte>, state: S, buffer: seq<Byte>)
    requires Absorbed(f, init, m, state, buffer)
    ensures var k := |m| - |m| % 64; Folded(f, init, m, k, state) && |buffer| == 64 && buffer[..|m| % 64] == m[k..]
  {
  }

  lemma AbsorbedIs<S>(f: (S, seq<Byte>) -> S, init: S, m: seq<Byte>, k: nat, state: S, buffer: seq<Byte>)
    requires Folded(f, init, m, k, state) && |m| < k + 64 == k + |buffer| && buffer[..|m| - k] == m[k..]
    ensures Absorbed(f, init, m, state, buffer)
  {
    assert |m| / 64 * 64 == k;
  }

  method Copy(to: array<Byte>, at: nat, data: seq<Byte>)
    requires at + |data| <= to.Length
    modifies to
    ensures to[..] == old(to[..at]) + data + old(to[at + |data|..])
  {
    for i := 0 to |data|
      invariant forall k :: 0 <= k < to.Length && !(at <= k < at + i) ==> to[k] == old(to[k])
      invariant forall k :: at <= k < at + i ==> to[k] == data[k - at]
    {
      to[at + i] := data[i];
    }
  }

  // The buffer once the rest of the data has been copied to j.
  lemma Joined(m: seq<Byte>, data: seq<Byte>, j0: nat, i: nat, j: nat, b: seq<Byte>, b': seq<Byte>)
    requires |b| == 64 && j0 <= |m| && i <= |data| && j + |data| - i <= 64
    requires b' == b[..j] + data[i..] + b[j + |data| - i..]
    requires (j == j0 && i == 0 && b[..j0] == m[|m| - j0..]) || j == 0
    ensures |b'| == 64 && b'[..j + |data| - i] == (m + data)[|m| + i - j..]
  {
  }

  // The buffer once it has been filled up with the data.
  lemma FilledUp(m: seq<Byte>, data: seq<Byte>, j: nat, b: seq<Byte>, b': seq<Byte>)
    requires |b| == 64 && j <= |m| && j <= 64 <= j + |data| && b[..j] == m[|m| - j..]
    requires b' == b[..j] + data[..64 - j] + b[64..]
    ensures b' == (m + data)[|m| - j..|m| + 64 - j]
  {
  }

  lemma BlockOf(t: seq<Byte>, k: nat, data: seq<Byte>, i: nat)
    requires k + |data| <= |t| && data == t[k..k + |data|] && i + 64 <= |data|
    ensures data[i..i + 64] == t[k + i..k + i + 64]
  {
    var a, b := data[i..i + 64], t[k + i..k + i + 64];
    forall j | 0 <= j < 64
      ensures a[j] == b[j]
    {
      assert data[i + j] == t[k..k + |data|][i + j];
    }
  }

  // How many zeros bring a length to 56 modulo 64.
  function Gap(n: nat): (z: nat)
    ensures z < 64 && (n + z) % 64 == 56
  {
    if n % 64 <= 56 then 56 - n % 64 else 120 - n % 64
  }

  // A message, a one bit, zeros, and its length in eight bytes.
  function Padded(m: seq<Byte>, length: seq<Byte>): (p: seq<Byte>)
    requires |length| == 8
    ensures |p| % 64 == 0
  {
    m + [0x80] + Repeat(0, Gap(|m| + 1)) + length
  }

  // It begins with the message, the one bit and only zeros up to the length, and no shorter whole number of blocks
  // has room for that.
  lemma PaddedIs(m: seq<Byte>, length: seq<Byte>)
    requires |length| == 8
    ensures var p := Padded(m, length);
      && |m| + 9 <= |p| && |p| % 64 == 0 && (forall n :: |m| + 9 <= n && n % 64 == 0 ==> |p| <= n)
      && p[..|m|] == m && p[|m|] == 0x80 && (forall i :: |m| < i < |p| - 8 ==> p[i] == 0) && p[|p| - 8..] == length
  {
    var p := Padded(m, length);
    var z := |p| - |m| - 9;
    forall n | |m| + 9 <= n && n % 64 == 0
      ensures |p| <= n
    {
      assert 0 <= z < 64;
    }
  }

  // The message can be told from what it is padded to, if the length tells that of the message.
  lemma PaddedOnce(m: seq<Byte>, n: seq<Byte>, length: seq<Byte>, length': seq<Byte>)
    requires |length| == |length'| == 8 && Padded(m, length) == Padded(n, length')
    requires length == length' ==> |m| == |n|
    ensures m == n
  {
    PaddedIs(m, length);
    PaddedIs(n, length');
  }

  // The number that some bytes spell, the highest first and the lowest first.
  function HighFirst(b: seq<Byte>): nat {
    if b == [] then 0 else 256 * HighFirst(b[..|b| - 1]) + b[|b| - 1]
  }

  function LowFirst(b: seq<Byte>): nat {
    if b == [] then 0 else b[0] + 256 * LowFirst(b[1..])
  }

  function Concat(chunks: seq<seq<Byte>>): seq<Byte> {
    if chunks == [] then [] else chunks[0] + Concat(chunks[1..])
  }

  lemma {:induction false} ConcatNext(chunks: seq<seq<Byte>>, i: nat)
    requires i < |chunks|
    ensures Concat(chunks[..i + 1]) == Concat(chunks[..i]) + chunks[i]
    decreases i
  {
    if i == 0 {
      assert chunks[..1][1..] == [];
    } else {
      assert chunks[..i + 1][1..] == chunks[1..][..i] && chunks[..i][1..] == chunks[1..][..i - 1];
      ConcatNext(chunks[1..], i - 1);
    }
  }

  lemma ConcatNone(chunks: seq<seq<Byte>>)
    ensures Concat(chunks[..0]) == []
  {
  }
}
