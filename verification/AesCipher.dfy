// The cipher of ztl_aes.c, in place on a state of four rows and four columns.
module AesCipher {
  import opened AesField
  import opened Bytes
  import opened Aes

  ghost predicate Square(state: array2<Byte>) { state.Length0 == 4 && state.Length1 == 4 }

  // The state holds the block.
  ghost predicate Is(state: array2<Byte>, g: Block)
    requires Square(state)
    reads state
  {
    forall r, c :: 0 <= r < 4 && 0 <= c < 4 ==> state[r, c] == g[4 * c + r]
  }

  // The entries before row r, and before column c in row r, are of block h; the others of block g.
  ghost predicate Partly(state: array2<Byte>, r: int, c: int, h: Block, g: Block)
    requires Square(state)
    reads state
  {
    forall a, b :: 0 <= a < 4 && 0 <= b < 4 ==>
      state[a, b] == if a < r || (a == r && b < c) then h[4 * b + a] else g[4 * b + a]
  }

  lemma Cells(r: nat, c: nat)
    requires r < 4 && c < 4
    ensures ToRight(4 * c + r) == 4 * ((c + r) % 4) + r && ToLeft(4 * c + r) == 4 * ((c + 4 - r) % 4) + r
    ensures Below(4 * c + r, 1) == 4 * c + (r + 1) % 4 && Below(4 * c + r, 2) == 4 * c + (r + 2) % 4
    ensures Below(4 * c + r, 3) == 4 * c + (r + 3) % 4
  {
    assert (4 * c + r) % 4 == r;
  }

  lemma SubAt(g: Block, i: nat)
    requires i < 16
    ensures SubBytes(g)[i] == SubByte(g[i]) && InvSubBytes(g)[i] == InvSubByte(g[i])
  {
    hide SubByte, InvSubByte;
  }

  // _ztl_aes_SubBytes
  method SubBytesIn(state: array2<Byte>, ghost g: Block)
    requires Square(state) && Is(state, g)
    modifies state
    ensures Is(state, SubBytes(g))
  {
    hide SubBytes, SubByte;
    for r := 0 to 4
      invariant Partly(state, r, 0, SubBytes(g), g)
    {
      for c := 0 to 4
        invariant Partly(state, r, c, SubBytes(g), g)
      {
        SubAt(g, 4 * c + r);
        state[r, c] := SubByte(state[r, c]);
      }
    }
  }

  // _ztl_aes_InvSubBytes
  method InvSubBytesIn(state: array2<Byte>, ghost g: Block)
    requires Square(state) && Is(state, g)
    modifies state
    ensures Is(state, InvSubBytes(g))
  {
    hide InvSubBytes, InvSubByte;
    for r := 0 to 4
      invariant Partly(state, r, 0, InvSubBytes(g), g)
    {
      for c := 0 to 4
        invariant Partly(state, r, c, InvSubBytes(g), g)
      {
        SubAt(g, 4 * c + r);
        state[r, c] := InvSubByte(state[r, c]);
      }
    }
  }

  // The inner loops of _ztl_aes_ShiftRows and its inverse: row r becomes t.
  method PutRow(state: array2<Byte>, r: nat, t: array<Byte>, ghost h: Block, ghost g: Block)
    requires Square(state) && r < 4 && t.Length == 4 && Partly(state, r, 0, h, g)
    requires forall c :: 0 <= c < 4 ==> t[c] == h[4 * c + r]
    modifies state
    ensures Partly(state, r + 1, 0, h, g)
  {
    for c := 0 to 4
      invariant Partly(state, r, c, h, g)
    {
      state[r, c] := t[c];
    }
  }

  // _ztl_aes_ShiftRows
  method ShiftRowsIn(state: array2<Byte>, ghost g: Block)
    requires Square(state) && Is(state, g)
    modifies state
    ensures Is(state, ShiftRows(g))
  {
    hide ToRight;
    ghost var h := ShiftRows(g);
    var t := new Byte[4];
    FirstRow(g);
    for r := 1 to 4
      invariant Partly(state, r, 0, h, g)
    {
      for c := 0 to 4
        invariant forall b :: 0 <= b < c ==> t[b] == h[4 * b + r]
        modifies t
      {
        Cells(r, c);
        t[c] := state[r, (c + r) % 4];
      }
      PutRow(state, r, t, h, g);
    }
  }

  // _ztl_aes_InvShiftRows
  method InvShiftRowsIn(state: array2<Byte>, ghost g: Block)
    requires Square(state) && Is(state, g)
    modifies state
    ensures Is(state, InvShiftRows(g))
  {
    hide ToLeft;
    ghost var h := InvShiftRows(g);
    var t := new Byte[4];
    FirstRow(g);
    for r := 1 to 4
      invariant Partly(state, r, 0, h, g)
    {
      for c := 0 to 4
        invariant forall b :: 0 <= b < c ==> t[b] == h[4 * b + r]
        modifies t
      {
        Cells(r, c);
        t[c] := state[r, (c - r + 4) % 4];
      }
      PutRow(state, r, t, h, g);
    }
  }

  // The first row stays.
  lemma FirstRow(g: Block)
    ensures forall c :: 0 <= c < 4 ==> ShiftRows(g)[4 * c] == g[4 * c] && InvShiftRows(g)[4 * c] == g[4 * c]
  {
    Cells(0, 0);
    Cells(0, 1);
    Cells(0, 2);
    Cells(0, 3);
  }

  // _ztl_aes_AddRoundKey
  method AddRoundKeyIn(state: array2<Byte>, w: array3<Byte>, i: nat, ghost g: Block, ghost ks: Keys)
    requires Square(state) && Is(state, g) && Holds(w, ks) && i < 11
    modifies state
    ensures Is(state, AddRoundKey(g, ks[i]))
  {
    hide Xor;
    ghost var h := AddRoundKey(g, ks[i]);
    for c := 0 to 4
      invariant forall a, b :: 0 <= a < 4 && 0 <= b < 4 ==> state[a, b] == if b < c then h[4 * b + a] else g[4 * b + a]
    {
      for r := 0 to 4
        invariant forall a, b :: 0 <= a < 4 && 0 <= b < 4 ==>
          state[a, b] == if b < c || (b == c && a < r) then h[4 * b + a] else g[4 * b + a]
      {
        state[r, c] := Xor(state[r, c], w[i, r, c]);
      }
    }
  }

  // The round keys, by rows and columns.
  ghost predicate Holds(w: array3<Byte>, ks: Keys)
    reads w
  {
    && w.Length0 == 11 && w.Length1 == 4 && w.Length2 == 4
    && forall i, r, c :: 0 <= i < 11 && 0 <= r < 4 && 0 <= c < 4 ==> w[i, r, c] == ks[i][4 * c + r]
  }

  // The columns before c are of block h, and the first r entries of column c.
  ghost predicate ByColumns(state: array2<Byte>, c: int, r: int, h: Block, g: Block)
    requires Square(state)
    reads state
  {
    forall a, b :: 0 <= a < 4 && 0 <= b < 4 ==>
      state[a, b] == if b < c || (b == c && a < r) then h[4 * b + a] else g[4 * b + a]
  }

  method Combined(p: Byte, q: Byte, r: Byte, s: Byte, a: Byte, b: Byte, c: Byte, d: Byte) returns (m: Byte)
    ensures m == Mixed(p, q, r, s, a, b, c, d)
  {
    var x := FFmul(p, a);
    var y := FFmul(q, b);
    var z := FFmul(r, c);
    var u := FFmul(s, d);
    m := Xor(Xor(Xor(x, y), z), u);
  }

  method GetColumn(state: array2<Byte>, c: nat, t: array<Byte>, ghost h: Block, ghost g: Block)
    requires Square(state) && c < 4 && t.Length == 4 && ByColumns(state, c, 0, h, g)
    modifies t
    ensures forall r :: 0 <= r < 4 ==> t[r] == g[4 * c + r]
  {
    for r := 0 to 4
      invariant forall a :: 0 <= a < r ==> t[a] == g[4 * c + a]
    {
      t[r] := state[r, c];
    }
  }

  lemma MixCell(g: Block, r: nat, c: nat)
    requires r < 4 && c < 4
    ensures MixColumns(g)[4 * c + r]
      == Mixed(2, 3, 1, 1, g[4 * c + r], g[4 * c + (r + 1) % 4], g[4 * c + (r + 2) % 4], g[4 * c + (r + 3) % 4])
    ensures InvMixColumns(g)[4 * c + r]
      == Mixed(0x0e, 0x0b, 0x0d, 9, g[4 * c + r], g[4 * c + (r + 1) % 4], g[4 * c + (r + 2) % 4],
        g[4 * c + (r + 3) % 4])
  {
    Cells(r, c);
    MixedAt(g, 4 * c + r);
    hide Below, MixColumns, InvMixColumns, Four, Product;
  }

  method PutCell(state: array2<Byte>, r: nat, c: nat, m: Byte, ghost h: Block, ghost g: Block)
    requires Square(state) && r < 4 && c < 4 && ByColumns(state, c, r, h, g) && m == h[4 * c + r]
    modifies state
    ensures ByColumns(state, c, r + 1, h, g)
  {
    state[r, c] := m;
  }

  lemma NextColumn(state: array2<Byte>, c: nat, h: Block, g: Block)
    requires Square(state) && c < 4 && ByColumns(state, c, 4, h, g)
    ensures ByColumns(state, c + 1, 0, h, g)
  {
  }

  lemma ByColumnsIs(state: array2<Byte>, h: Block, g: Block)
    requires Square(state)
    ensures ByColumns(state, 0, 0, h, g) <==> Is(state, g)
    ensures ByColumns(state, 4, 0, h, g) <==> Is(state, h)
  {
  }

  // _ztl_aes_MixColumns
  method MixColumnsIn(state: array2<Byte>, ghost g: Block)
    requires Square(state) && Is(state, g)
    modifies state
    ensures Is(state, MixColumns(g))
  {
    ByColumnsIs(state, MixColumns(g), g);
    hide MixColumns, Mixed, ByColumns, Is;
    ghost var h := MixColumns(g);
    var t := new Byte[4];
    for c := 0 to 4
      invariant ByColumns(state, c, 0, h, g)
    {
      GetColumn(state, c, t, h, g);
      for r := 0 to 4
        invariant ByColumns(state, c, r, h, g)
        modifies state
      {
        MixCell(g, r, c);
        var m := Combined(2, 3, 1, 1, t[r], t[(r + 1) % 4], t[(r + 2) % 4], t[(r + 3) % 4]);
        PutCell(state, r, c, m, h, g);
      }
      NextColumn(state, c, h, g);
    }
    ByColumnsIs(state, h, g);
  }

  // _ztl_aes_InvMixColumns
  method InvMixColumnsIn(state: array2<Byte>, ghost g: Block)
    requires Square(state) && Is(state, g)
    modifies state
    ensures Is(state, InvMixColumns(g))
  {
    ByColumnsIs(state, InvMixColumns(g), g);
    hide InvMixColumns, Mixed, ByColumns, Is;
    ghost var h := InvMixColumns(g);
    var t := new Byte[4];
    for c := 0 to 4
      invariant ByColumns(state, c, 0, h, g)
    {
      GetColumn(state, c, t, h, g);
      for r := 0 to 4
        invariant ByColumns(state, c, r, h, g)
        modifies state
      {
        MixCell(g, r, c);
        var m := Combined(0x0e, 0x0b, 0x0d, 9, t[r], t[(r + 1) % 4], t[(r + 2) % 4], t[(r + 3) % 4]);
        PutCell(state, r, c, m, h, g);
      }
      NextColumn(state, c, h, g);
    }
    ByColumnsIs(state, h, g);
  }

  // ------------------------------------------------------------------ one block of a buffer

  method Load(input: array<Byte>, at: nat) returns (state: array2<Byte>)
    requires at + 16 <= input.Length
    ensures fresh(state) && Square(state) && Is(state, input[at..at + 16])
  {
    state := new Byte[4, 4];
    ghost var g: Block := input[at..at + 16];
    for r := 0 to 4
      invariant forall a, b :: 0 <= a < r && 0 <= b < 4 ==> state[a, b] == g[4 * b + a]
    {
      for c := 0 to 4
        invariant forall a, b :: 0 <= a < 4 && 0 <= b < 4 && (a < r || (a == r && b < c)) ==>
          state[a, b] == g[4 * b + a]
      {
        state[r, c] := input[at + (c * 4 + r)];
      }
    }
  }

  method Store(state: array2<Byte>, input: array<Byte>, at: nat, ghost g: Block)
    requires at + 16 <= input.Length && Square(state) && Is(state, g)
    modifies input
    ensures input[..] == old(input[..at]) + g + old(input[at + 16..])
  {
    for r := 0 to 4
      invariant forall k :: 0 <= k < input.Length && (k < at || at + 16 <= k) ==> input[k] == old(input[k])
      invariant forall k :: at <= k < at + 16 && (k - at) % 4 < r ==> input[k] == g[k - at]
    {
      for c := 0 to 4
        invariant forall k :: 0 <= k < input.Length && (k < at || at + 16 <= k) ==> input[k] == old(input[k])
        invariant forall k :: at <= k < at + 16 && Before(k - at, r, c) ==> input[k] == g[k - at]
      {
        input[at + (c * 4 + r)] := state[r, c];
        forall k | at <= k < at + 16 && Before(k - at, r, c + 1)
          ensures input[k] == g[k - at]
        {
          Cell(k - at, r, c);
        }
      }
    }
    assert input[at..at + 16] == g;
  }

  // Entry k comes before row r and column c, by rows.
  predicate Before(k: nat, r: nat, c: nat) { k % 4 < r || (k % 4 == r && k / 4 < c) }

  lemma Cell(k: nat, r: nat, c: nat)
    requires k < 16 && r < 4 && c < 4
    ensures Before(k, r, c + 1) <==> Before(k, r, c) || k == 4 * c + r
  {
  }

  // ------------------------------------------------------------------ the key schedule

  // The first n words of the schedule are in place.
  ghost predicate Expanded(w: array3<Byte>, key: Block, n: nat)
    requires w.Length0 == 11 && w.Length1 == 4 && w.Length2 == 4
    reads w
  {
    forall i, r, c :: 0 <= i < 11 && 0 <= r < 4 && 0 <= c < 4 && 4 * i + c < n ==>
      w[i, r, c] == KeyWord(key, 4 * i + c)[r]
  }

  // The word that is combined with the one four before word n.
  function Step(key: Block, n: nat): Word
    requires 4 <= n < 44
  {
    if n % 4 == 0 then Turned(KeyWord(key, n - 1), n / 4) else KeyWord(key, n - 1)
  }

  lemma WordStep(key: Block, n: nat, r: nat)
    requires 4 <= n < 44 && r < 4
    ensures KeyWord(key, n)[r] == Xor(KeyWord(key, n - 4)[r], Step(key, n)[r])
  {
    hide Xor, Turned;
  }

  lemma FirstWords(key: Block, c: nat, r: nat)
    requires c < 4 && r < 4
    ensures KeyWord(key, c)[r] == key[r + c * 4]
  {
  }

  // The word t that _ztl_aes_KeyExpansion prepares for column j of round i.
  method Prepare(w: array3<Byte>, i: nat, j: nat, t: array<Byte>, ghost key: Block)
    requires w.Length0 == 11 && w.Length1 == 4 && w.Length2 == 4 && t.Length == 4
    requires 1 <= i <= 10 && j < 4 && Expanded(w, key, 4 * i + j)
    modifies t
    ensures forall r :: 0 <= r < 4 ==> t[r] == Step(key, 4 * i + j)[r]
  {
    hide SubByte, Xor, KeyWord, Rcon;
    ghost var last := KeyWord(key, 4 * i + j - 1);
    for r := 0 to 4
      invariant forall a :: 0 <= a < r ==> t[a] == last[a]
    {
      t[r] := if j != 0 then w[i, r, j - 1] else w[i - 1, r, 3];
    }
    if j == 0 {
      TurnWord(t, i, last);
    }
    TurnedIs(last, i);
  }

  // Its turn, substitution and constant at the start of a round.
  method TurnWord(t: array<Byte>, i: nat, ghost last: Word)
    requires t.Length == 4 && 1 <= i <= 10 && forall a :: 0 <= a < 4 ==> t[a] == last[a]
    modifies t
    ensures t[0] == Xor(SubByte(last[1]), Rcon(i))
    ensures t[1] == SubByte(last[2]) && t[2] == SubByte(last[3]) && t[3] == SubByte(last[0])
  {
    hide SubByte, Xor, Rcon;
    var temp := t[0];
    for r := 0 to 3
      invariant forall a :: r <= a < 4 ==> t[a] == last[a]
      invariant 0 < r ==> t[0] == SubByte(last[1])
      invariant 1 < r ==> t[1] == SubByte(last[2])
      invariant 2 < r ==> t[2] == SubByte(last[3])
    {
      assert (r + 1) % 4 == r + 1;
      t[r] := SubByte(t[(r + 1) % 4]);
    }
    t[3] := SubByte(temp);
    t[0] := Xor(t[0], Rcon(i));
  }

  lemma TurnedIs(t: Word, i: nat)
    requires 1 <= i <= 10
    ensures Turned(t, i) == [Xor(SubByte(t[1]), Rcon(i)), SubByte(t[2]), SubByte(t[3]), SubByte(t[0])]
  {
    hide SubByte, Xor, Rcon;
  }

  // _ztl_aes_KeyExpansion
  method KeyExpansion(key: Block) returns (w: array3<Byte>)
    ensures fresh(w) && Holds(w, Schedule(key))
  {
    hide KeyWord, Xor, Step;
    w := new Byte[11, 4, 4];
    for r := 0 to 4
      invariant forall a, c :: 0 <= a < r && 0 <= c < 4 ==> w[0, a, c] == KeyWord(key, c)[a]
    {
      for c := 0 to 4
        invariant forall a, b :: 0 <= a < 4 && 0 <= b < 4 && (a < r || (a == r && b < c)) ==>
          w[0, a, b] == KeyWord(key, b)[a]
      {
        FirstWords(key, c, r);
        w[0, r, c] := key[r + c * 4];
      }
    }
    var t := new Byte[4];
    for i := 1 to 11
      invariant Expanded(w, key, 4 * i)
    {
      for j := 0 to 4
        invariant Expanded(w, key, 4 * i + j)
      {
        Prepare(w, i, j, t, key);
        PutWord(w, i, j, t, key);
      }
    }
    ScheduleIs(w, key);
  }

  method PutWord(w: array3<Byte>, i: nat, j: nat, t: array<Byte>, ghost key: Block)
    requires w.Length0 == 11 && w.Length1 == 4 && w.Length2 == 4 && t.Length == 4
    requires 1 <= i <= 10 && j < 4 && Expanded(w, key, 4 * i + j)
    requires forall r :: 0 <= r < 4 ==> t[r] == Step(key, 4 * i + j)[r]
    modifies w
    ensures Expanded(w, key, 4 * i + j + 1)
  {
    hide KeyWord, Xor, Step;
    for r := 0 to 4
      invariant Expanded(w, key, 4 * i + j)
      invariant forall a :: 0 <= a < r ==> w[i, a, j] == KeyWord(key, 4 * i + j)[a]
    {
      WordStep(key, 4 * i + j, r);
      assert w[i - 1, r, j] == KeyWord(key, 4 * (i - 1) + j)[r];
      w[i, r, j] := Xor(w[i - 1, r, j], t[r]);
    }
  }

  lemma ScheduleIs(w: array3<Byte>, key: Block)
    requires w.Length0 == 11 && w.Length1 == 4 && w.Length2 == 4 && Expanded(w, key, 44)
    ensures Holds(w, Schedule(key))
  {
    hide KeyWord;
    forall i, r, c | 0 <= i < 11 && 0 <= r < 4 && 0 <= c < 4
      ensures w[i, r, c] == Schedule(key)[i][4 * c + r]
    {
      assert (4 * c + r) / 4 == c && (4 * c + r) % 4 == r;
    }
  }

  // ------------------------------------------------------------------ the cipher and its inverse

  // _ztl_aes_Cipher
  method CipherIn(w: array3<Byte>, input: array<Byte>, at: nat, ghost ks: Keys)
    requires Holds(w, ks) && at + 16 <= input.Length
    modifies input
    ensures input[..] == old(input[..at]) + Encrypt(old(input[at..at + 16]), ks) + old(input[at + 16..])
  {
    hide SubBytes, ShiftRows, MixColumns, AddRoundKey;
    ghost var g: Block := input[at..at + 16];
    var state := Load(input, at);
    AddRoundKeyIn(state, w, 0, g, ks);
    for i := 1 to 11
      invariant Square(state) && Is(state, Rounds(g, ks, i - 1))
      modifies state
    {
      ghost var e := Rounds(g, ks, i - 1);
      SubBytesIn(state, e);
      ShiftRowsIn(state, SubBytes(e));
      ghost var s := ShiftRows(SubBytes(e));
      if i != 10 {
        MixColumnsIn(state, s);
      }
      AddRoundKeyIn(state, w, i, if i != 10 then MixColumns(s) else s, ks);
    }
    Store(state, input, at, Encrypt(g, ks));
  }

  // _ztl_aes_InvCipher
  method InvCipherIn(w: array3<Byte>, input: array<Byte>, at: nat, ghost ks: Keys)
    requires Holds(w, ks) && at + 16 <= input.Length
    modifies input
    ensures input[..] == old(input[..at]) + Decrypt(old(input[at..at + 16]), ks) + old(input[at + 16..])
  {
    hide InvSubBytes, InvShiftRows, InvMixColumns, AddRoundKey;
    ghost var g: Block := input[at..at + 16];
    var state := Load(input, at);
    AddRoundKeyIn(state, w, 10, g, ks);
    ghost var x := AddRoundKey(g, ks[10]);
    for i := 10 downto 0
      invariant Square(state) && Is(state, x) && InvRounds(x, ks, i) == Decrypt(g, ks)
      modifies state
    {
      InvShiftRowsIn(state, x);
      InvSubBytesIn(state, InvShiftRows(x));
      x := InvSubBytes(InvShiftRows(x));
      AddRoundKeyIn(state, w, i, x, ks);
      x := AddRoundKey(x, ks[i]);
      if i != 0 {
        InvMixColumnsIn(state, x);
        x := InvMixColumns(x);
      }
    }
    Store(state, input, at, x);
  }

  // ------------------------------------------------------------------ buffers

  predicate Whole(d: seq<Byte>) { |d| % 16 == 0 }

  // Every block on its own.
  function EncryptBlocks(d: seq<Byte>, ks: Keys): (e: seq<Byte>)
    requires Whole(d)
    ensures |e| == |d|
  {
    if d == [] then [] else Encrypt(d[..16], ks) + EncryptBlocks(d[16..], ks)
  }

  function DecryptBlocks(d: seq<Byte>, ks: Keys): (e: seq<Byte>)
    requires Whole(d)
    ensures |e| == |d|
  {
    if d == [] then [] else Decrypt(d[..16], ks) + DecryptBlocks(d[16..], ks)
  }

  lemma {:induction false} BlocksBack(d: seq<Byte>, ks: Keys)
    requires Whole(d)
    ensures DecryptBlocks(EncryptBlocks(d, ks), ks) == d
    decreases |d|
  {
    hide Encrypt, Decrypt;
    if d != [] {
      var e := EncryptBlocks(d, ks);
      assert e[..16] == Encrypt(d[..16], ks) && e[16..] == EncryptBlocks(d[16..], ks);
      DecryptBack(d[..16], ks);
      BlocksBack(d[16..], ks);
    }
  }

  // Each block is enciphered on its own, in its place.
  lemma {:induction false} EachBlock(d: seq<Byte>, ks: Keys, i: nat)
    requires Whole(d) && 16 * i + 16 <= |d|
    ensures EncryptBlocks(d, ks)[16 * i..16 * i + 16] == Encrypt(d[16 * i..16 * i + 16], ks)
    decreases i
  {
    hide Encrypt;
    var rest := EncryptBlocks(d[16..], ks);
    if i > 0 {
      EachBlock(d[16..], ks, i - 1);
      assert EncryptBlocks(d, ks)[16 * i..16 * i + 16] == rest[16 * (i - 1)..16 * (i - 1) + 16];
      assert d[16..][16 * (i - 1)..16 * (i - 1) + 16] == d[16 * i..16 * i + 16];
    }
  }

  // The last of some whole blocks.
  lemma {:induction false} OneMoreBlock(d: seq<Byte>, b: Block, ks: Keys)
    requires Whole(d)
    ensures EncryptBlocks(d + b, ks) == EncryptBlocks(d, ks) + Encrypt(b, ks)
    ensures DecryptBlocks(d + b, ks) == DecryptBlocks(d, ks) + Decrypt(b, ks)
    decreases |d|
  {
    hide Encrypt, Decrypt;
    if d == [] {
      assert d + b == b && b[..16] == b && b[16..] == [];
    } else {
      assert (d + b)[..16] == d[..16] && (d + b)[16..] == d[16..] + b;
      OneMoreBlock(d[16..], b, ks);
    }
  }

  // A length rounded up to whole blocks.
  function RoundedUp(n: nat): (r: nat)
    ensures r % 16 == 0 && n <= r < n + 16
  {
    (n + 15) / 16 * 16
  }

  // The first NUL byte.
  function NulAt(s: seq<Byte>, i: nat): (k: nat)
    requires i <= |s|
    ensures i <= k <= |s|
    decreases |s| - i
  {
    if i == |s| || s[i] == 0 then i else NulAt(s, i + 1)
  }

  // A length of 0 stands for the bytes up to the first NUL and that NUL.
  function Extent(s: seq<Byte>, length: nat): nat { if length != 0 then length else NulAt(s, 0) + 1 }

  method FindExtent(input: array<Byte>, length: nat) returns (n: nat)
    requires Extent(input[..], length) <= input.Length
    ensures n == Extent(input[..], length)
  {
    n := length;
    if n == 0 {
      while input[n] != 0
        invariant n < input.Length && NulAt(input[..], n) == NulAt(input[..], 0) < input.Length
        decreases input.Length - n
      {
        n := n + 1;
      }
      n := n + 1;
    }
  }

  // _ztl_aes_Cipher_withlen
  method CipherWithLength(w: array3<Byte>, input: array<Byte>, length0: nat, ghost ks: Keys)
    requires Holds(w, ks) && RoundedUp(Extent(input[..], length0)) <= input.Length
    modifies input
    ensures var n := RoundedUp(Extent(old(input[..]), length0));
      input[..n] == EncryptBlocks(old(input[..])[..n], ks) && input[n..] == old(input[..])[n..]
  {
    hide RoundedUp, EncryptBlocks, Extent, Holds;
    RoundedIs(Extent(input[..], length0), 0);
    var length := FindExtent(input, length0);
    ghost var n := RoundedUp(length);
    assert input[..][..n] == input[..n] && input[..][n..] == input[n..];
    CipherBlocks(w, input, length, ks);
  }

  // Its loop over the blocks.
  method CipherBlocks(w: array3<Byte>, input: array<Byte>, length: nat, ghost ks: Keys)
    requires Holds(w, ks) && RoundedUp(length) <= input.Length
    modifies input
    ensures input[..RoundedUp(length)] == EncryptBlocks(old(input[..RoundedUp(length)]), ks)
    ensures input[RoundedUp(length)..] == old(input[RoundedUp(length)..])
  {
    hide RoundedUp, EncryptBlocks, Whole, Holds;
    ghost var was := input[..];
    var i := 0;
    RoundedIs(length, 0);
    assert was[..0] == [] && input[..0] == [];
    while i < length
      invariant i % 16 == 0 && i <= RoundedUp(length) && Whole(was[..i])
      invariant input[..i] == EncryptBlocks(was[..i], ks) && input[i..] == was[i..]
    {
      RoundedIs(length, i);
      NextBlock(w, input, i, was, ks);
      i := i + 16;
    }
    RoundedIs(length, i);
  }

  lemma RoundedIs(n: nat, i: nat)
    ensures RoundedUp(n) % 16 == 0 && n <= RoundedUp(n) < n + 16
    ensures i % 16 == 0 && i < n ==> i + 16 <= RoundedUp(n)
    ensures i % 16 == 0 && n <= i <= RoundedUp(n) ==> i == RoundedUp(n)
    ensures forall s: seq<Byte> :: |s| % 16 == 0 ==> Whole(s)
  {
  }

  // One round of the loop.
  method NextBlock(w: array3<Byte>, input: array<Byte>, i: nat, ghost was: seq<Byte>, ghost ks: Keys)
    requires Holds(w, ks) && i + 16 <= input.Length == |was| && Whole(was[..i]) && Whole(was[..i + 16])
    requires input[..i] == EncryptBlocks(was[..i], ks) && input[i..] == was[i..]
    modifies input
    ensures input[..i + 16] == EncryptBlocks(was[..i + 16], ks) && input[i + 16..] == was[i + 16..]
  {
    hide Encrypt, EncryptBlocks, Decrypt, DecryptBlocks, Holds, Whole;
    ghost var b: Block := was[i..i + 16];
    assert input[i..i + 16] == input[i..][..16] == was[i..][..16] == b;
    assert input[i + 16..] == input[i..][16..] == was[i..][16..] == was[i + 16..];
    OneMoreBlock(was[..i], b, ks);
    assert was[..i] + b == was[..i + 16];
    ghost var before := input[..i];
    CipherIn(w, input, i, ks);
    Spliced(input[..], before, Encrypt(b, ks), was[i + 16..]);
    assert input[..][..i + 16] == input[..i + 16] && input[..][i + 16..] == input[i + 16..];
  }

  lemma Spliced(s: seq<Byte>, a: seq<Byte>, b: Block, c: seq<Byte>)
    requires s == a + b + c
    ensures s[..|a| + 16] == a + b && s[|a| + 16..] == c
  {
  }

  method InvNextBlock(w: array3<Byte>, input: array<Byte>, i: nat, ghost was: seq<Byte>, ghost ks: Keys)
    requires Holds(w, ks) && i + 16 <= input.Length == |was| && Whole(was[..i]) && Whole(was[..i + 16])
    requires input[..i] == DecryptBlocks(was[..i], ks) && input[i..] == was[i..]
    modifies input
    ensures input[..i + 16] == DecryptBlocks(was[..i + 16], ks) && input[i + 16..] == was[i + 16..]
  {
    hide Encrypt, EncryptBlocks, Decrypt, DecryptBlocks, Holds, Whole;
    ghost var b: Block := was[i..i + 16];
    assert input[i..i + 16] == input[i..][..16] == was[i..][..16] == b;
    assert input[i + 16..] == input[i..][16..] == was[i..][16..] == was[i + 16..];
    OneMoreBlock(was[..i], b, ks);
    assert was[..i] + b == was[..i + 16];
    ghost var before := input[..i];
    InvCipherIn(w, input, i, ks);
    Spliced(input[..], before, Decrypt(b, ks), was[i + 16..]);
    assert input[..][..i + 16] == input[..i + 16] && input[..][i + 16..] == input[i + 16..];
  }

  // _ztl_aes_InvCipher_withlen
  method InvCipherWithLength(w: array3<Byte>, input: array<Byte>, length: nat, ghost ks: Keys)
    requires Holds(w, ks) && RoundedUp(length) <= input.Length
    modifies input
    ensures input[..RoundedUp(length)] == DecryptBlocks(old(input[..RoundedUp(length)]), ks)
    ensures input[RoundedUp(length)..] == old(input[RoundedUp(length)..])
  {
    hide RoundedUp, DecryptBlocks, Whole, Holds;
    ghost var was := input[..];
    var i := 0;
    RoundedIs(length, 0);
    assert was[..0] == [] && input[..0] == [];
    while i < length
      invariant i % 16 == 0 && i <= RoundedUp(length) && Whole(was[..i])
      invariant input[..i] == DecryptBlocks(was[..i], ks) && input[i..] == was[i..]
    {
      RoundedIs(length, i);
      InvNextBlock(w, input, i, was, ks);
      i := i + 16;
    }
    RoundedIs(length, i);
  }
}
