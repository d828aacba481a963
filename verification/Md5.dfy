// The streaming context of MD5, over any block function.
module Md5 {
  import opened Octets
  import opened BlockFold

  const TWO64 := 0x1_0000_0000_0000_0000

  datatype State = State(a: Word, b: Word, c: Word, d: Word)

  const INITIAL: State := State(0x67452301, 0xefcdab89, 0x98badcfe, 0x10325476)

  // Byte k of a number, the lowest first.
  function ByteAt(w: nat, k: nat): Byte
    requires k < 8
  {
    match k
    case 0 => w % 256
    case 1 => w / 0x100 % 256
    case 2 => w / 0x1_0000 % 256
    case 3 => w / 0x100_0000 % 256
    case 4 => w / 0x1_0000_0000 % 256
    case 5 => w / 0x100_0000_0000 % 256
    case 6 => w / 0x1_0000_0000_0000 % 256
    case _ => w / 0x100_0000_0000_0000 % 256
  }

  function LittleEndian(w: nat, n: nat): (b: seq<Byte>)
    requires n <= 8
    ensures |b| == n && forall k :: 0 <= k < n ==> b[k] == ByteAt(w, k)
  {
    seq(n, k requires 0 <= k < n => ByteAt(w, k))
  }

  // The message as sections 3.1 and 3.2 of RFC 1321 pad it.
  function PaddedMessage(m: seq<Byte>): (p: seq<Byte>)
    ensures |p| % 64 == 0
  {
    Padded(m, LittleEndian(8 * |m| % TWO64, 8))
  }

  function Output(s: State): (b: seq<Byte>)
    ensures |b| == 16
  {
    LittleEndian(s.a, 4) + LittleEndian(s.b, 4) + LittleEndian(s.c, 4) + LittleEndian(s.d, 4)
  }

  // The bytes of section 3.3 of RFC 1321.
  lemma InitialBytes()
    ensures Output(INITIAL) == [0x01, 0x23, 0x45, 0x67, 0x89, 0xab, 0xcd, 0xef, 0xfe, 0xdc, 0xba, 0x98, 0x76, 0x54,
      0x32, 0x10]
  {
    assert LittleEndian(0x67452301, 4) == [0x01, 0x23, 0x45, 0x67];
    assert LittleEndian(0xefcdab89, 4) == [0x89, 0xab, 0xcd, 0xef];
    assert LittleEndian(0x98badcfe, 4) == [0xfe, 0xdc, 0xba, 0x98];
    assert LittleEndian(0x10325476, 4) == [0x76, 0x54, 0x32, 0x10];
  }

  // The bytes from k on spell what is left of the number.
  lemma {:induction false} BytesSpell(w: nat, b: seq<Byte>, k: nat)
    requires w < TWO64 && k <= 8 && |b| == 8 - k && forall j :: 0 <= j < |b| ==> b[j] == ByteAt(w, k + j)
    ensures LowFirst(b) == From(w, k)
    decreases 8 - k
  {
    if k < 8 {
      BytesSpell(w, b[1..], k + 1);
      FromStep(w, k);
    }
  }

  function From(w: nat, k: nat): nat
    decreases k
  {
    if k == 0 then w else From(w, k - 1) / 256
  }

  lemma FromStep(w: nat, k: nat)
    requires w < TWO64 && k < 8
    ensures From(w, k) == ByteAt(w, k) + 256 * From(w, k + 1) && From(w, 8) == 0
  {
    assert From(w, 1) == w / 0x100;
    assert From(w, 2) == w / 0x1_0000;
    assert From(w, 3) == w / 0x100_0000;
    assert From(w, 4) == w / 0x1_0000_0000;
    assert From(w, 5) == w / 0x100_0000_0000;
    assert From(w, 6) == w / 0x1_0000_0000_0000;
    assert From(w, 7) == w / 0x100_0000_0000_0000;
    assert From(w, 8) == w / TWO64;
    assert From(w, k + 1) == From(w, k) / 256;
  }

  // The eight bytes spell the number of bits modulo 2^64.
  lemma LengthSpells(m: seq<Byte>)
    ensures LowFirst(LittleEndian(8 * |m| % TWO64, 8)) == 8 * |m| % TWO64
  {
    BytesSpell(8 * |m| % TWO64, LittleEndian(8 * |m| % TWO64, 8), 0);
  }

  // Two messages shorter than 2^61 bytes are not padded to the same.
  lemma PaddedApart(m: seq<Byte>, n: seq<Byte>)
    requires PaddedMessage(m) == PaddedMessage(n) && 8 * |m| < TWO64 && 8 * |n| < TWO64
    ensures m == n
  {
    hide LowFirst, LittleEndian;
    LengthSpells(m);
    LengthSpells(n);
    PaddedOnce(m, n, LittleEndian(8 * |m| % TWO64, 8), LittleEndian(8 * |n| % TWO64, 8));
  }

  function Digest(f: (State, seq<Byte>) -> State, m: seq<Byte>): seq<Byte> {
    Output(Fold(f, INITIAL, PaddedMessage(m)))
  }

  class Context {
    const f: (State, seq<Byte>) -> State
    var bytes: nat
    var state: State
    const buffer: array<Byte>
    // What has been handed in.
    ghost var message: seq<Byte>

    ghost predicate Valid()
      reads this, buffer
    {
      && buffer.Length == 64 && bytes == |message| % TWO64
      && Absorbed(f, INITIAL, message, state, buffer[..])
    }

    // ztl_md5_init
    constructor (f: (State, seq<Byte>) -> State)
      ensures Valid() && message == [] && this.f == f && fresh(buffer)
    {
      this.f := f;
      bytes := 0;
      state := INITIAL;
      buffer := new Byte[64];
      message := [];
      new;
      assert message[..0] == [];
    }

    // ztl_md5_body, on the whole blocks at the start of the data, or on the buffer: the state of the next k bytes.
    method Body(data: seq<Byte>, ghost t: seq<Byte>, ghost k: nat)
      requires |data| % 64 == 0 && data != [] && k + |data| <= |t| && data == t[k..k + |data|]
      requires Folded(f, INITIAL, t, k, state)
      modifies `state
      ensures Folded(f, INITIAL, t, k + |data|, state)
    {
      hide Folded;
      var i, size := 0, |data|;
      while true
        invariant 0 <= i < |data| && size == |data| - i && size % 64 == 0 && Folded(f, INITIAL, t, k + i, state)
        decreases size
      {
        BlockOf(t, k, data, i);
        FoldedNext(f, INITIAL, t, k + i, state, data[i..i + 64]);
        state := f(state, data[i..i + 64]);
        i := i + 64;
        size := size - 64;
        if size == 0 {
          break;
        }
      }
    }

    // ztl_md5_update
    method Update(data: seq<Byte>)
      requires Valid() && |data| < TWO64
      modifies this, buffer
      ensures Valid() && message == old(message) + data
    {
      hide Absorbed, Folded;
      ghost var m, n, t := message, |message|, message + data;
      var used := bytes % 64;
      UsedIs(|message|);
      AbsorbedMeans(f, INITIAL, m, state, buffer[..]);
      FoldedLonger(f, INITIAL, m, data, n - used, state);
      bytes := (bytes + |data|) % TWO64;
      BytesAdd(n, |data|);
      message := t;
      var rest := data;
      if used != 0 {
        var free := 64 - used;
        if |data| < free {
          Keep(data, 0, used, m, used);
          return;
        }
        ghost var b := buffer[..];
        assert b[..used] == buffer[..used];
        Copy(buffer, used, data[..free]);
        rest := data[free..];
        FilledUp(m, data, used, b, buffer[..]);
        Body(buffer[..], t, n - used);
      }
      TakeRest(data, |data| - |rest|, m);
    }

    // What follows the first block.
    method TakeRest(data: seq<Byte>, i: nat, ghost m: seq<Byte>)
      requires buffer.Length == 64 && i <= |data| && message == m + data
      requires Folded(f, INITIAL, message, |m| + i, state)
      modifies `state, buffer
      ensures Absorbed(f, INITIAL, message, state, buffer[..])
    {
      hide Absorbed, Folded;
      var j, size := i, |data| - i;
      if size >= 64 {
        var whole := size / 64 * 64;
        assert data[i..i + whole] == message[|m| + i..|m| + i + whole];
        Body(data[i..i + whole], message, |m| + i);
        j, size := i + whole, size % 64;
      }
      Keep(data, j, 0, m, 0);
    }

    // What is left of the data goes to the buffer.
    method Keep(data: seq<Byte>, i: nat, j: nat, ghost m: seq<Byte>, ghost j0: nat)
      requires buffer.Length == 64 && i <= |data| && j <= |m| + i && j0 <= |m| && j + |data| - i < 64
      requires message == m + data && Folded(f, INITIAL, message, |m| + i - j, state)
      requires (j == j0 && i == 0 && buffer[..j0] == m[|m| - j0..]) || j == 0
      modifies buffer
      ensures Absorbed(f, INITIAL, message, state, buffer[..])
    {
      hide Absorbed, Folded;
      ghost var b := buffer[..];
      assert j == j0 ==> b[..j0] == buffer[..j0];
      Copy(buffer, j, data[i..]);
      Joined(m, data, j0, i, j, b, buffer[..]);
      AbsorbedIs(f, INITIAL, message, |m| + i - j, state, buffer[..]);
    }

    // ztl_md5_final
    method Final() returns (result: array<Byte>)
      requires Valid()
      modifies this, buffer
      ensures fresh(result) && result[..] == Digest(f, old(message))
      ensures bytes == 0 && state == State(0, 0, 0, 0) && buffer.Length == 64
      ensures forall i :: 0 <= i < 64 ==> buffer[i] == 0
    {
      hide Absorbed, Folded, Gap, Padded;
      ghost var m, n, p := message, |message|, PaddedMessage(message);
      UsedIs(n);
      AbsorbedMeans(f, INITIAL, m, state, buffer[..]);
      var used := bytes % 64;
      PaddedParts(m);
      Prefixed(f, m, state, n - used);
      ghost var k := PadOne(p);
      bytes := bytes * 8 % TWO64;
      BitsOf(n);
      PutLength(p, k);
      Body(buffer[..], p, k);
      WholeFolded(f, p, state);
      result := Out();
      bytes, state := 0, State(0, 0, 0, 0);
      forall i | 0 <= i < 64 {
        buffer[i] := 0;
      }
    }

    // The one bit and the zeros, over one block or two; the last block begins at k.
    method PadOne(ghost p: seq<Byte>) returns (ghost k: nat)
      requires buffer.Length == 64 && bytes == |message| % TWO64 && |message| % 64 == bytes % 64
      requires var n, used := |message|, bytes % 64;
        && n - used + 64 <= |p| && Folded(f, INITIAL, p, n - used, state) && buffer[..used] == p[n - used..n]
          && p[n] == 0x80
        && |p| == n - used + (if used < 56 then 64 else 128) && forall i :: n < i < |p| - 8 ==> p[i] == 0
      modifies `state, buffer
      ensures |p| == k + 64 && Folded(f, INITIAL, p, k, state) && buffer[..56] == p[k..k + 56]
    {
      hide Folded;
      var used := bytes % 64;
      k := |message| - used;
      assert forall i :: 0 <= i < used ==> buffer[i] == buffer[..used][i];
      buffer[used] := 0x80;
      used := used + 1;
      var free := 64 - used;
      if free < 8 {
        Clear(used, free);
        FirstBlock(p, buffer[..], k, used - 1);
        Body(buffer[..], p, k);
        used, free, k := 0, 64, k + 64;
      }
      Clear(used, free - 8);
      LastBlock(p, buffer[..], k, used);
    }

    // memset of the buffer
    method Clear(at: nat, n: nat)
      requires at + n <= buffer.Length
      modifies buffer
      ensures forall i :: 0 <= i < buffer.Length ==> buffer[i] == if at <= i < at + n then 0 else old(buffer[i])
    {
      for i := at to at + n
        invariant forall k :: 0 <= k < buffer.Length ==> buffer[k] == if at <= k < i then 0 else old(buffer[k])
      {
        buffer[i] := 0;
      }
    }

    method PutLength(ghost p: seq<Byte>, ghost k: nat)
      requires buffer.Length == 64 && |p| == k + 64 && buffer[..56] == p[k..k + 56]
        && p[k + 56..] == LittleEndian(bytes, 8)
      modifies buffer
      ensures buffer[..] == p[k..k + 64]
    {
      hide ByteAt;
      buffer[56] := ByteAt(bytes, 0);
      buffer[57] := ByteAt(bytes, 1);
      buffer[58] := ByteAt(bytes, 2);
      buffer[59] := ByteAt(bytes, 3);
      buffer[60] := ByteAt(bytes, 4);
      buffer[61] := ByteAt(bytes, 5);
      buffer[62] := ByteAt(bytes, 6);
      buffer[63] := ByteAt(bytes, 7);
      assert buffer[..] == buffer[..56] + LittleEndian(bytes, 8);
      assert p[k..k + 64] == p[k..k + 56] + p[k + 56..];
    }

    method Out() returns (result: array<Byte>)
      ensures fresh(result) && result[..] == Output(state)
    {
      hide ByteAt;
      result := new Byte[16];
      result[0], result[1], result[2], result[3] :=
        ByteAt(state.a, 0), ByteAt(state.a, 1), ByteAt(state.a, 2), ByteAt(state.a, 3);
      result[4], result[5], result[6], result[7] :=
        ByteAt(state.b, 0), ByteAt(state.b, 1), ByteAt(state.b, 2), ByteAt(state.b, 3);
      result[8], result[9], result[10], result[11] :=
        ByteAt(state.c, 0), ByteAt(state.c, 1), ByteAt(state.c, 2), ByteAt(state.c, 3);
      result[12], result[13], result[14], result[15] :=
        ByteAt(state.d, 0), ByteAt(state.d, 1), ByteAt(state.d, 2), ByteAt(state.d, 3);
      assert result[..] == Output(state);
    }
  }

  // A block that begins with the end of the message and goes on with zeros.
  lemma FirstBlock(p: seq<Byte>, b: seq<Byte>, k: nat, used: nat)
    requires |b| == 64 && used < 64 && k + 64 <= |p| && b[..used] == p[k..k + used] && b[used] == p[k + used]
    requires (forall i :: used < i < 64 ==> b[i] == 0) && forall j :: k + used < j < k + 64 ==> p[j] == 0
    ensures b == p[k..k + 64]
  {
    var c := p[k..k + 64];
    forall i | 0 <= i < 64
      ensures b[i] == c[i]
    {
      if i < used {
        assert b[i] == b[..used][i] == p[k..k + used][i];
      } else if i > used {
        assert p[k + i] == 0;
      }
    }
  }

  // The last block, up to the length.
  lemma LastBlock(p: seq<Byte>, b: seq<Byte>, k: nat, used: nat)
    requires |b| == 64 && used <= 56 && k + 64 == |p| && (forall i :: used <= i < 56 ==> b[i] == 0)
    requires forall j :: k + used <= j < k + 56 ==> p[j] == 0
    requires forall i :: 0 <= i < used ==> b[i] == p[k..][i]
    ensures b[..56] == p[k..k + 56]
  {
    var c := p[k..k + 56];
    forall i | 0 <= i < 56
      ensures b[i] == c[i]
    {
      if i >= used {
        assert p[k + i] == 0;
      } else {
        assert b[i] == p[k..][i];
      }
    }
  }

  lemma PaddedParts(m: seq<Byte>)
    ensures var n, used, p := |m|, |m| % 64, PaddedMessage(m);
      && n - used + 64 <= |p| && p[..n] == m && p[n] == 0x80 && |p| == n - used + (if used < 56 then 64 else 128)
      && (forall i :: n < i < |p| - 8 ==> p[i] == 0) && p[|p| - 8..] == LittleEndian(8 * n % TWO64, 8)
  {
  }

  lemma Prefixed(f: (State, seq<Byte>) -> State, m: seq<Byte>, state: State, k: nat)
    requires Folded(f, INITIAL, m, k, state) && |m| <= |PaddedMessage(m)| && PaddedMessage(m)[..|m|] == m
    ensures Folded(f, INITIAL, PaddedMessage(m), k, state) && m[k..] == PaddedMessage(m)[k..|m|]
  {
    assert PaddedMessage(m)[..k] == m[..k];
  }

  lemma BitsOf(n: nat)
    ensures n % TWO64 * 8 % TWO64 == 8 * n % TWO64
  {
  }

  lemma WholeFolded(f: (State, seq<Byte>) -> State, p: seq<Byte>, state: State)
    requires Folded(f, INITIAL, p, |p|, state)
    ensures state == Fold(f, INITIAL, p)
  {
    assert p[..|p|] == p;
  }

  lemma UsedIs(n: nat)
    ensures n % TWO64 % 64 == n % 64
  {
  }

  lemma BytesAdd(n: nat, len: nat)
    ensures (n % TWO64 + len) % TWO64 == (n + len) % TWO64
  {
  }

  // However the message is cut into chunks, the digest is that of the whole.
  method HashChunks(f: (State, seq<Byte>) -> State, chunks: seq<seq<Byte>>) returns (result: array<Byte>)
    requires forall i :: 0 <= i < |chunks| ==> |chunks[i]| < TWO64
    ensures result[..] == Digest(f, Concat(chunks))
  {
    hide Digest, Concat, Absorbed;
    var context := new Context(f);
    ConcatNone(chunks);
    for i := 0 to |chunks|
      invariant context.Valid() && fresh(context.buffer) && context.f == f && context.message == Concat(chunks[..i])
    {
      ConcatNext(chunks, i);
      context.Update(chunks[i]);
    }
    assert chunks[..|chunks|] == chunks;
    result := context.Final();
  }
}
