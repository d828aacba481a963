// AES-128 on a block and on a buffer of blocks.
module Aes {
  import opened AesField
  import opened Bytes

  // ------------------------------------------------------------------ blocks

  // Sixteen bytes: byte 4c + r is the entry of row r and column c.
  type Block = s: seq<Byte> | |s| == 16 witness ZEROS

  const ZEROS: seq<Byte> := [0, 0, 0, 0, 0, 0, 0, 0, 0, 0, 0, 0, 0, 0, 0, 0]

  function SubBytes(g: Block): Block { seq(16, i requires 0 <= i < 16 => SubByte(g[i])) }

  function InvSubBytes(g: Block): Block { seq(16, i requires 0 <= i < 16 => InvSubByte(g[i])) }

  // The entry as many columns to the right as its row says, and to the left, around the block.
  function ToRight(i: nat): (k: nat)
    requires i < 16
    ensures k < 16
  {
    if i + 4 * (i % 4) < 16 then i + 4 * (i % 4) else i + 4 * (i % 4) - 16
  }

  function ToLeft(i: nat): (k: nat)
    requires i < 16
    ensures k < 16
  {
    if i >= 4 * (i % 4) then i - 4 * (i % 4) else i + 16 - 4 * (i % 4)
  }

  // Row r moves left by r columns.
  function ShiftRows(g: Block): Block { seq(16, i requires 0 <= i < 16 => g[ToRight(i)]) }

  function InvShiftRows(g: Block): Block { seq(16, i requires 0 <= i < 16 => g[ToLeft(i)]) }

  // The entry k rows further down the same column, around it.
  function Below(i: nat, k: nat): (j: nat)
    requires i < 16 && k < 4
    ensures j < 16
  {
    if i % 4 + k < 4 then i + k else i + k - 4
  }

  function MixAt(g: Block, i: nat): Byte
    requires i < 16
  {
    MixByte(g[i], g[Below(i, 1)], g[Below(i, 2)], g[Below(i, 3)])
  }

  function UnmixAt(g: Block, i: nat): Byte
    requires i < 16
  {
    UnmixByte(g[i], g[Below(i, 1)], g[Below(i, 2)], g[Below(i, 3)])
  }

  function MixColumns(g: Block): Block { seq(16, i requires 0 <= i < 16 => MixAt(g, i)) }

  function InvMixColumns(g: Block): Block { seq(16, i requires 0 <= i < 16 => UnmixAt(g, i)) }

  function AddRoundKey(g: Block, k: Block): Block { seq(16, i requires 0 <= i < 16 => Xor(g[i], k[i])) }

  // ------------------------------------------------------------------ each step is undone

  lemma SubBytesBack(g: Block)
    ensures InvSubBytes(SubBytes(g)) == g
  {
    hide SubByte, InvSubByte;
    forall i | 0 <= i < 16
      ensures InvSubBytes(SubBytes(g))[i] == g[i]
    {
      SubBack(g[i]);
    }
  }

  lemma ShiftRowsBack(g: Block)
    ensures InvShiftRows(ShiftRows(g)) == g
  {
    hide ToLeft, ToRight;
    forall i | 0 <= i < 16
      ensures InvShiftRows(ShiftRows(g))[i] == g[i]
    {
      LeftRight(i);
    }
  }

  lemma LeftRight(i: nat)
    requires i < 16
    ensures ToRight(ToLeft(i)) == i
  {
    var r := i % 4;
    var k := if i >= 4 * r then i - 4 * r else i + 16 - 4 * r;
    assert ToLeft(i) == k;
    assert k % 4 == r by {
      assert r == 0 || r == 1 || r == 2 || r == 3;
    }
  }

  lemma MixColumnsBack(g: Block)
    ensures InvMixColumns(MixColumns(g)) == g
  {
    hide MixColumns, InvMixColumns;
    forall i | 0 <= i < 16
      ensures InvMixColumns(MixColumns(g))[i] == g[i]
    {
      MixedBack(g, i);
    }
  }

  lemma MixedAt(g: Block, i: nat)
    requires i < 16
    ensures MixColumns(g)[i] == MixAt(g, i) && InvMixColumns(g)[i] == UnmixAt(g, i)
  {
    hide MixAt, UnmixAt;
  }

  lemma MixedBack(g: Block, i: nat)
    requires i < 16
    ensures InvMixColumns(MixColumns(g))[i] == g[i]
  {
    hide MixColumns, InvMixColumns, MixByte, UnmixByte, Below;
    var (j, k, l) := (Below(i, 1), Below(i, 2), Below(i, 3));
    Around(i, 1);
    Around(i, 2);
    Around(i, 3);
    MixedAt(g, i);
    MixedAt(g, j);
    MixedAt(g, k);
    MixedAt(g, l);
    MixedAt(MixColumns(g), i);
    ColumnBack(g[i], g[j], g[k], g[l]);
  }

  // Going down a column from k rows below.
  lemma Around(i: nat, k: nat)
    requires i < 16 && 1 <= k < 4
    ensures var j := Below(i, k);
      && Below(j, 1) == (if k == 3 then i else Below(i, k + 1))
      && Below(j, 2) == (if k == 2 then i else if k == 1 then Below(i, 3) else Below(i, 1))
      && Below(j, 3) == (if k == 1 then i else Below(i, k - 1))
  {
    assert Below(i, k) % 4 == if i % 4 + k < 4 then i % 4 + k else i % 4 + k - 4;
  }

  lemma AddRoundKeyBack(g: Block, k: Block)
    ensures AddRoundKey(AddRoundKey(g, k), k) == g
  {
    hide Xor;
    forall i | 0 <= i < 16
      ensures AddRoundKey(AddRoundKey(g, k), k)[i] == g[i]
    {
      XorZero(g[i], k[i]);
    }
  }

  // ------------------------------------------------------------------ the cipher

  type Keys = ks: seq<Block> | |ks| == 11 witness seq(11, _ => ZEROS)

  // After round i.
  function Rounds(g: Block, ks: Keys, i: nat): Block
    requires i <= 10
  {
    if i == 0 then AddRoundKey(g, ks[0])
    else
      var s := ShiftRows(SubBytes(Rounds(g, ks, i - 1)));
      AddRoundKey(if i != 10 then MixColumns(s) else s, ks[i])
  }

  function Encrypt(g: Block, ks: Keys): Block { Rounds(g, ks, 10) }

  // The rounds n - 1 down to 0 of the inverse cipher.
  function InvRounds(x: Block, ks: Keys, n: nat): Block
    requires n <= 10
    decreases n
  {
    if n == 0 then x
    else
      var y := AddRoundKey(InvSubBytes(InvShiftRows(x)), ks[n - 1]);
      InvRounds(if n > 1 then InvMixColumns(y) else y, ks, n - 1)
  }

  function Decrypt(g: Block, ks: Keys): Block { InvRounds(AddRoundKey(g, ks[10]), ks, 10) }

  lemma {:induction false} RoundsBack(g: Block, ks: Keys, n: nat)
    requires 1 <= n <= 10
    ensures InvRounds(ShiftRows(SubBytes(Rounds(g, ks, n - 1))), ks, n) == g
    decreases n
  {
    hide SubBytes, ShiftRows, MixColumns, AddRoundKey, InvSubBytes, InvShiftRows, InvMixColumns;
    var e := Rounds(g, ks, n - 1);
    ShiftRowsBack(SubBytes(e));
    SubBytesBack(e);
    if n == 1 {
      AddRoundKeyBack(g, ks[0]);
    } else {
      var s := ShiftRows(SubBytes(Rounds(g, ks, n - 2)));
      AddRoundKeyBack(MixColumns(s), ks[n - 1]);
      MixColumnsBack(s);
      RoundsBack(g, ks, n - 1);
    }
  }

  // The inverse cipher undoes the cipher, whatever the round keys.
  lemma DecryptBack(g: Block, ks: Keys)
    ensures Decrypt(Encrypt(g, ks), ks) == g
  {
    hide SubBytes, ShiftRows, MixColumns, AddRoundKey, InvRounds;
    AddRoundKeyBack(ShiftRows(SubBytes(Rounds(g, ks, 9))), ks[10]);
    RoundsBack(g, ks, 10);
  }

  // ------------------------------------------------------------------ the key schedule

  // The round constants of the code.
  function Rcon(i: nat): Byte
    requires 1 <= i <= 10
  {
    [0x01, 0x02, 0x04, 0x08, 0x10, 0x20, 0x40, 0x80, 0x1b, 0x36][i - 1]
  }

  // They are the powers of x.
  lemma RconDoubles(i: nat)
    requires 1 <= i < 10
    ensures Rcon(1) == 1 && Rcon(i + 1) == Double(Rcon(i))
  {
  }

  type Word = s: seq<Byte> | |s| == 4 witness [0, 0, 0, 0]

  function XorWord(a: Word, b: Word): Word { seq(4, r requires 0 <= r < 4 => Xor(a[r], b[r])) }

  // SubWord of RotWord, and the round constant on the first byte.
  function Turned(t: Word, i: nat): Word
    requires 1 <= i <= 10
  {
    [Xor(SubByte(t[1]), Rcon(i)), SubByte(t[2]), SubByte(t[3]), SubByte(t[0])]
  }

  // Word n of the schedule, by section 5.2 of FIPS 197.
  function KeyWord(key: Block, n: nat): Word
    requires n < 44
  {
    if n < 4 then key[4 * n..4 * n + 4]
    else
      var t := KeyWord(key, n - 1);
      XorWord(KeyWord(key, n - 4), if n % 4 == 0 then Turned(t, n / 4) else t)
  }

  function RoundKey(key: Block, i: nat): Block
    requires i <= 10
  {
    seq(16, n requires 0 <= n < 16 => KeyWord(key, 4 * i + n / 4)[n % 4])
  }

  function Schedule(key: Block): Keys { seq(11, i requires 0 <= i < 11 => RoundKey(key, i)) }
}
