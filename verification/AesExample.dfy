// The example vector of AES-128 in appendix C.1 of FIPS 197, step by step.
module AesExample {
  import opened Aes
  import opened AesField
  import opened AesTable
  import opened Bytes

  // ------------------------------------------------------------------ four bytes at a time

  predicate IsWord(x: Word, a: Byte, b: Byte, c: Byte, d: Byte) { x[0] == a && x[1] == b && x[2] == c && x[3] == d }

  // Column n of a block.
  predicate At(x: Block, n: nat, a: Byte, b: Byte, c: Byte, d: Byte)
    requires n < 4
  {
    x[4 * n] == a && x[4 * n + 1] == b && x[4 * n + 2] == c && x[4 * n + 3] == d
  }

  predicate Subs(a: Byte, b: Byte, c: Byte, d: Byte, e: Byte, f: Byte, g: Byte, h: Byte) {
    SubByte(a) == e && SubByte(b) == f && SubByte(c) == g && SubByte(d) == h
  }

  predicate Mixes(a: Byte, b: Byte, c: Byte, d: Byte, e: Byte, f: Byte, g: Byte, h: Byte) {
    Mix(a, b, c, d) == e && Mix(b, c, d, a) == f && Mix(c, d, a, b) == g && Mix(d, a, b, c) == h
  }

  predicate Adds(a: Byte, b: Byte, c: Byte, d: Byte, e: Byte, f: Byte, g: Byte, h: Byte,
                 i: Byte, j: Byte, k: Byte, l: Byte) {
    Xor(a, e) == i && Xor(b, f) == j && Xor(c, g) == k && Xor(d, h) == l
  }

  // 2a + 3b + c + d in the field.
  function Mix(a: Byte, b: Byte, c: Byte, d: Byte): Byte { Four(Twice(a), Xor(b, Twice(b)), c, d) }

  lemma MixIs(a: Byte, b: Byte, c: Byte, d: Byte)
    ensures MixByte(a, b, c, d) == Mix(a, b, c, d)
  {
    hide Product, Double, Twice, Four, Xor;
    TwiceIs(a);
    TwiceIs(b);
    Factors(a);
    Factors(b);
    Factors(c);
    Factors(d);
  }

  // ------------------------------------------------------------------ the steps of a round, column by column

  lemma SubColumn(x: Block, n: nat, a: Byte, b: Byte, c: Byte, d: Byte, e: Byte, f: Byte, g: Byte, h: Byte)
    requires n < 4 && At(x, n, a, b, c, d) && Subs(a, b, c, d, e, f, g, h)
    ensures At(SubBytes(x), n, e, f, g, h)
  {
    hide SubByte;
  }

  lemma ShiftColumns(x: Block, a: Byte, b: Byte, c: Byte, d: Byte, e: Byte, f: Byte, g: Byte, h: Byte,
                     i: Byte, j: Byte, k: Byte, l: Byte, m: Byte, n: Byte, o: Byte, p: Byte)
    requires At(x, 0, a, b, c, d) && At(x, 1, e, f, g, h) && At(x, 2, i, j, k, l) && At(x, 3, m, n, o, p)
    ensures At(ShiftRows(x), 0, a, f, k, p) && At(ShiftRows(x), 1, e, j, o, d)
    ensures At(ShiftRows(x), 2, i, n, c, h) && At(ShiftRows(x), 3, m, b, g, l)
  {
  }

  lemma MixedCells(x: Block, n: nat)
    requires n in {0, 1, 2, 3}
    ensures var (i, y) := (4 * n, MixColumns(x));
      && y[i] == MixByte(x[i], x[i + 1], x[i + 2], x[i + 3]) && y[i + 1] == MixByte(x[i + 1], x[i + 2], x[i + 3], x[i])
      && y[i + 2] == MixByte(x[i + 2], x[i + 3], x[i], x[i + 1])
      && y[i + 3] == MixByte(x[i + 3], x[i], x[i + 1], x[i + 2])
  {
    hide MixByte;
  }

  lemma MixColumn(x: Block, n: nat, a: Byte, b: Byte, c: Byte, d: Byte, e: Byte, f: Byte, g: Byte, h: Byte)
    requires n < 4 && At(x, n, a, b, c, d) && Mixes(a, b, c, d, e, f, g, h)
    ensures At(MixColumns(x), n, e, f, g, h)
  {
    hide MixByte, Mix, MixColumns;
    MixedCells(x, n);
    MixIs(a, b, c, d);
    MixIs(b, c, d, a);
    MixIs(c, d, a, b);
    MixIs(d, a, b, c);
  }

  lemma AddColumn(x: Block, y: Block, n: nat, a: Byte, b: Byte, c: Byte, d: Byte,
                  e: Byte, f: Byte, g: Byte, h: Byte, i: Byte, j: Byte, k: Byte, l: Byte)
    requires n < 4 && At(x, n, a, b, c, d) && At(y, n, e, f, g, h) && Adds(a, b, c, d, e, f, g, h, i, j, k, l)
    ensures At(AddRoundKey(x, y), n, i, j, k, l)
  {
    hide Xor;
  }

  // ------------------------------------------------------------------ words of the schedule

  // Words n - 4 and n - 1 make word n.
  lemma NextWord(key: Block, n: nat, a: Byte, b: Byte, c: Byte, d: Byte, e: Byte, f: Byte, g: Byte, h: Byte,
                 i: Byte, j: Byte, k: Byte, l: Byte)
    requires 4 <= n < 44 && n % 4 != 0 && Adds(a, b, c, d, e, f, g, h, i, j, k, l)
    requires IsWord(KeyWord(key, n - 4), a, b, c, d) && IsWord(KeyWord(key, n - 1), e, f, g, h)
    ensures IsWord(KeyWord(key, n), i, j, k, l)
  {
    hide Xor, Turned;
  }

  lemma FirstWord(key: Block, n: nat, a: Byte, b: Byte, c: Byte, d: Byte, e: Byte, f: Byte, g: Byte, h: Byte,
                  s: Byte, t: Byte, u: Byte, v: Byte, w: Byte, i: Byte, j: Byte, k: Byte, l: Byte)
    requires 4 <= n < 44 && n % 4 == 0
    requires IsWord(KeyWord(key, n - 4), a, b, c, d) && IsWord(KeyWord(key, n - 1), e, f, g, h)
    requires Subs(f, g, h, e, s, t, u, v) && Xor(s, Rcon(n / 4)) == w && Adds(a, b, c, d, w, t, u, v, i, j, k, l)
    ensures IsWord(KeyWord(key, n), i, j, k, l)
  {
    hide Xor, SubByte, Rcon;
  }

  lemma KeyColumn(key: Block, i: nat, n: nat, a: Byte, b: Byte, c: Byte, d: Byte)
    requires i <= 10 && n < 4 && IsWord(KeyWord(key, 4 * i + n), a, b, c, d)
    ensures At(Schedule(key)[i], n, a, b, c, d)
  {
    hide KeyWord;
  }

  // ------------------------------------------------------------------ the rounds of the example

  // After each round: the state, and the words of the round key.
  predicate Stage0(x: Block, key: Block) {
    && At(x, 0, 0x00, 0x10, 0x20, 0x30) && At(x, 1, 0x40, 0x50, 0x60, 0x70)
    && At(x, 2, 0x80, 0x90, 0xa0, 0xb0) && At(x, 3, 0xc0, 0xd0, 0xe0, 0xf0)
    && IsWord(KeyWord(key, 0), 0x00, 0x01, 0x02, 0x03) && IsWord(KeyWord(key, 1), 0x04, 0x05, 0x06, 0x07)
    && IsWord(KeyWord(key, 2), 0x08, 0x09, 0x0a, 0x0b) && IsWord(KeyWord(key, 3), 0x0c, 0x0d, 0x0e, 0x0f)
  }

  predicate Stage1(x: Block, key: Block) {
    && At(x, 0, 0x89, 0xd8, 0x10, 0xe8) && At(x, 1, 0x85, 0x5a, 0xce, 0x68)
    && At(x, 2, 0x2d, 0x18, 0x43, 0xd8) && At(x, 3, 0xcb, 0x12, 0x8f, 0xe4)
    && IsWord(KeyWord(key, 4), 0xd6, 0xaa, 0x74, 0xfd) && IsWord(KeyWord(key, 5), 0xd2, 0xaf, 0x72, 0xfa)
    && IsWord(KeyWord(key, 6), 0xda, 0xa6, 0x78, 0xf1) && IsWord(KeyWord(key, 7), 0xd6, 0xab, 0x76, 0xfe)
  }

  predicate Stage2(x: Block, key: Block) {
    && At(x, 0, 0x49, 0x15, 0x59, 0x8f) && At(x, 1, 0x55, 0xe5, 0xd7, 0xa0)
    && At(x, 2, 0xda, 0xca, 0x94, 0xfa) && At(x, 3, 0x1f, 0x0a, 0x63, 0xf7)
    && IsWord(KeyWord(key, 8), 0xb6, 0x92, 0xcf, 0x0b) && IsWord(KeyWord(key, 9), 0x64, 0x3d, 0xbd, 0xf1)
    && IsWord(KeyWord(key, 10), 0xbe, 0x9b, 0xc5, 0x00) && IsWord(KeyWord(key, 11), 0x68, 0x30, 0xb3, 0xfe)
  }

  predicate Stage3(x: Block, key: Block) {
    && At(x, 0, 0xfa, 0x63, 0x6a, 0x28) && At(x, 1, 0x25, 0xb3, 0x39, 0xc9)
    && At(x, 2, 0x40, 0x66, 0x8a, 0x31) && At(x, 3, 0x57, 0x24, 0x4d, 0x17)
    && IsWord(KeyWord(key, 12), 0xb6, 0xff, 0x74, 0x4e) && IsWord(KeyWord(key, 13), 0xd2, 0xc2, 0xc9, 0xbf)
    && IsWord(KeyWord(key, 14), 0x6c, 0x59, 0x0c, 0xbf) && IsWord(KeyWord(key, 15), 0x04, 0x69, 0xbf, 0x41)
  }

  predicate Stage4(x: Block, key: Block) {
    && At(x, 0, 0x24, 0x72, 0x40, 0x23) && At(x, 1, 0x69, 0x66, 0xb3, 0xfa)
    && At(x, 2, 0x6e, 0xd2, 0x75, 0x32) && At(x, 3, 0x88, 0x42, 0x5b, 0x6c)
    && IsWord(KeyWord(key, 16), 0x47, 0xf7, 0xf7, 0xbc) && IsWord(KeyWord(key, 17), 0x95, 0x35, 0x3e, 0x03)
    && IsWord(KeyWord(key, 18), 0xf9, 0x6c, 0x32, 0xbc) && IsWord(KeyWord(key, 19), 0xfd, 0x05, 0x8d, 0xfd)
  }

  predicate Stage5(x: Block, key: Block) {
    && At(x, 0, 0xc8, 0x16, 0x77, 0xbc) && At(x, 1, 0x9b, 0x7a, 0xc9, 0x3b)
    && At(x, 2, 0x25, 0x02, 0x79, 0x92) && At(x, 3, 0xb0, 0x26, 0x19, 0x96)
    && IsWord(KeyWord(key, 20), 0x3c, 0xaa, 0xa3, 0xe8) && IsWord(KeyWord(key, 21), 0xa9, 0x9f, 0x9d, 0xeb)
    && IsWord(KeyWord(key, 22), 0x50, 0xf3, 0xaf, 0x57) && IsWord(KeyWord(key, 23), 0xad, 0xf6, 0x22, 0xaa)
  }

  predicate Stage6(x: Block, key: Block) {
    && At(x, 0, 0xc6, 0x2f, 0xe1, 0x09) && At(x, 1, 0xf7, 0x5e, 0xed, 0xc3)
    && At(x, 2, 0xcc, 0x79, 0x39, 0x5d) && At(x, 3, 0x84, 0xf9, 0xcf, 0x5d)
    && IsWord(KeyWord(key, 24), 0x5e, 0x39, 0x0f, 0x7d) && IsWord(KeyWord(key, 25), 0xf7, 0xa6, 0x92, 0x96)
    && IsWord(KeyWord(key, 26), 0xa7, 0x55, 0x3d, 0xc1) && IsWord(KeyWord(key, 27), 0x0a, 0xa3, 0x1f, 0x6b)
  }

  predicate Stage7(x: Block, key: Block) {
    && At(x, 0, 0xd1, 0x87, 0x6c, 0x0f) && At(x, 1, 0x79, 0xc4, 0x30, 0x0a)
    && At(x, 2, 0xb4, 0x55, 0x94, 0xad) && At(x, 3, 0xd6, 0x6f, 0xf4, 0x1f)
    && IsWord(KeyWord(key, 28), 0x14, 0xf9, 0x70, 0x1a) && IsWord(KeyWord(key, 29), 0xe3, 0x5f, 0xe2, 0x8c)
    && IsWord(KeyWord(key, 30), 0x44, 0x0a, 0xdf, 0x4d) && IsWord(KeyWord(key, 31), 0x4e, 0xa9, 0xc0, 0x26)
  }

  predicate Stage8(x: Block, key: Block) {
    && At(x, 0, 0xfd, 0xe3, 0xba, 0xd2) && At(x, 1, 0x05, 0xe5, 0xd0, 0xd7)
    && At(x, 2, 0x35, 0x47, 0x96, 0x4e) && At(x, 3, 0xf1, 0xfe, 0x37, 0xf1)
    && IsWord(KeyWord(key, 32), 0x47, 0x43, 0x87, 0x35) && IsWord(KeyWord(key, 33), 0xa4, 0x1c, 0x65, 0xb9)
    && IsWord(KeyWord(key, 34), 0xe0, 0x16, 0xba, 0xf4) && IsWord(KeyWord(key, 35), 0xae, 0xbf, 0x7a, 0xd2)
  }

  predicate Stage9(x: Block, key: Block) {
    && At(x, 0, 0xbd, 0x6e, 0x7c, 0x3d) && At(x, 1, 0xf2, 0xb5, 0x77, 0x9e)
    && At(x, 2, 0x0b, 0x61, 0x21, 0x6e) && At(x, 3, 0x8b, 0x10, 0xb6, 0x89)
    && IsWord(KeyWord(key, 36), 0x54, 0x99, 0x32, 0xd1) && IsWord(KeyWord(key, 37), 0xf0, 0x85, 0x57, 0x68)
    && IsWord(KeyWord(key, 38), 0x10, 0x93, 0xed, 0x9c) && IsWord(KeyWord(key, 39), 0xbe, 0x2c, 0x97, 0x4e)
  }

  predicate Stage10(x: Block, key: Block) {
    && At(x, 0, 0x69, 0xc4, 0xe0, 0xd8) && At(x, 1, 0x6a, 0x7b, 0x04, 0x30)
    && At(x, 2, 0xd8, 0xcd, 0xb7, 0x80) && At(x, 3, 0x70, 0xb4, 0xc5, 0x5a)
    && IsWord(KeyWord(key, 40), 0x13, 0x11, 0x1d, 0x7f) && IsWord(KeyWord(key, 41), 0xe3, 0x94, 0x4a, 0x17)
    && IsWord(KeyWord(key, 42), 0xf3, 0x07, 0xa7, 0x8b) && IsWord(KeyWord(key, 43), 0x4d, 0x2b, 0x30, 0xc5)
  }

  lemma OneRound(g: Block, ks: Keys, i: nat)
    requires 1 <= i <= 10
    ensures var s := ShiftRows(SubBytes(Rounds(g, ks, i - 1)));
      Rounds(g, ks, i) == AddRoundKey(if i != 10 then MixColumns(s) else s, ks[i])
  {
  }

  lemma Round1(g: Block, key: Block)
    requires Stage0(Rounds(g, Schedule(key), 0), key)
    ensures Stage1(Rounds(g, Schedule(key), 1), key)
  {
    hide KeyWord, Schedule, Rounds, At, IsWord, SubBytes, ShiftRows, MixColumns, AddRoundKey;
    FirstWord(key, 4, 0x00, 0x01, 0x02, 0x03, 0x0c, 0x0d, 0x0e, 0x0f, 0xd7, 0xab, 0x76, 0xfe, 0xd6,
      0xd6, 0xaa, 0x74, 0xfd);
    NextWord(key, 5, 0x04, 0x05, 0x06, 0x07, 0xd6, 0xaa, 0x74, 0xfd, 0xd2, 0xaf, 0x72, 0xfa);
    NextWord(key, 6, 0x08, 0x09, 0x0a, 0x0b, 0xd2, 0xaf, 0x72, 0xfa, 0xda, 0xa6, 0x78, 0xf1);
    NextWord(key, 7, 0x0c, 0x0d, 0x0e, 0x0f, 0xda, 0xa6, 0x78, 0xf1, 0xd6, 0xab, 0x76, 0xfe);
    KeyColumn(key, 1, 0, 0xd6, 0xaa, 0x74, 0xfd);
    KeyColumn(key, 1, 1, 0xd2, 0xaf, 0x72, 0xfa);
    KeyColumn(key, 1, 2, 0xda, 0xa6, 0x78, 0xf1);
    KeyColumn(key, 1, 3, 0xd6, 0xab, 0x76, 0xfe);
    var ks, x := Schedule(key), Rounds(g, Schedule(key), 0);
    OneRound(g, ks, 1);
    SubColumn(x, 0, 0x00, 0x10, 0x20, 0x30, 0x63, 0xca, 0xb7, 0x04);
    SubColumn(x, 1, 0x40, 0x50, 0x60, 0x70, 0x09, 0x53, 0xd0, 0x51);
    SubColumn(x, 2, 0x80, 0x90, 0xa0, 0xb0, 0xcd, 0x60, 0xe0, 0xe7);
    SubColumn(x, 3, 0xc0, 0xd0, 0xe0, 0xf0, 0xba, 0x70, 0xe1, 0x8c);
    var s := SubBytes(x);
    ShiftColumns(s, 0x63, 0xca, 0xb7, 0x04, 0x09, 0x53, 0xd0, 0x51,
      0xcd, 0x60, 0xe0, 0xe7, 0xba, 0x70, 0xe1, 0x8c);
    MixColumn(ShiftRows(s), 0, 0x63, 0x53, 0xe0, 0x8c, 0x5f, 0x72, 0x64, 0x15);
    MixColumn(ShiftRows(s), 1, 0x09, 0x60, 0xe1, 0x04, 0x57, 0xf5, 0xbc, 0x92);
    MixColumn(ShiftRows(s), 2, 0xcd, 0x70, 0xb7, 0x51, 0xf7, 0xbe, 0x3b, 0x29);
    MixColumn(ShiftRows(s), 3, 0xba, 0xca, 0xd0, 0xe7, 0x1d, 0xb9, 0xf9, 0x1a);
    var m := MixColumns(ShiftRows(s));
    AddColumn(m, ks[1], 0, 0x5f, 0x72, 0x64, 0x15, 0xd6, 0xaa, 0x74, 0xfd, 0x89, 0xd8, 0x10, 0xe8);
    AddColumn(m, ks[1], 1, 0x57, 0xf5, 0xbc, 0x92, 0xd2, 0xaf, 0x72, 0xfa, 0x85, 0x5a, 0xce, 0x68);
    AddColumn(m, ks[1], 2, 0xf7, 0xbe, 0x3b, 0x29, 0xda, 0xa6, 0x78, 0xf1, 0x2d, 0x18, 0x43, 0xd8);
    AddColumn(m, ks[1], 3, 0x1d, 0xb9, 0xf9, 0x1a, 0xd6, 0xab, 0x76, 0xfe, 0xcb, 0x12, 0x8f, 0xe4);
  }

  lemma Round2(g: Block, key: Block)
    requires Stage1(Rounds(g, Schedule(key), 1), key)
    ensures Stage2(Rounds(g, Schedule(key), 2), key)
  {
    hide KeyWord, Schedule, Rounds, At, IsWord, SubBytes, ShiftRows, MixColumns, AddRoundKey;
    FirstWord(key, 8, 0xd6, 0xaa, 0x74, 0xfd, 0xd6, 0xab, 0x76, 0xfe, 0x62, 0x38, 0xbb, 0xf6, 0x60,
      0xb6, 0x92, 0xcf, 0x0b);
    NextWord(key, 9, 0xd2, 0xaf, 0x72, 0xfa, 0xb6, 0x92, 0xcf, 0x0b, 0x64, 0x3d, 0xbd, 0xf1);
    NextWord(key, 10, 0xda, 0xa6, 0x78, 0xf1, 0x64, 0x3d, 0xbd, 0xf1, 0xbe, 0x9b, 0xc5, 0x00);
    NextWord(key, 11, 0xd6, 0xab, 0x76, 0xfe, 0xbe, 0x9b, 0xc5, 0x00, 0x68, 0x30, 0xb3, 0xfe);
    KeyColumn(key, 2, 0, 0xb6, 0x92, 0xcf, 0x0b);
    KeyColumn(key, 2, 1, 0x64, 0x3d, 0xbd, 0xf1);
    KeyColumn(key, 2, 2, 0xbe, 0x9b, 0xc5, 0x00);
    KeyColumn(key, 2, 3, 0x68, 0x30, 0xb3, 0xfe);
    var ks, x := Schedule(key), Rounds(g, Schedule(key), 1);
    OneRound(g, ks, 2);
    SubColumn(x, 0, 0x89, 0xd8, 0x10, 0xe8, 0xa7, 0x61, 0xca, 0x9b);
    SubColumn(x, 1, 0x85, 0x5a, 0xce, 0x68, 0x97, 0xbe, 0x8b, 0x45);
    SubColumn(x, 2, 0x2d, 0x18, 0x43, 0xd8, 0xd8, 0xad, 0x1a, 0x61);
    SubColumn(x, 3, 0xcb, 0x12, 0x8f, 0xe4, 0x1f, 0xc9, 0x73, 0x69);
    var s := SubBytes(x);
    ShiftColumns(s, 0xa7, 0x61, 0xca, 0x9b, 0x97, 0xbe, 0x8b, 0x45,
      0xd8, 0xad, 0x1a, 0x61, 0x1f, 0xc9, 0x73, 0x69);
    MixColumn(ShiftRows(s), 0, 0xa7, 0xbe, 0x1a, 0x69, 0xff, 0x87, 0x96, 0x84);
    MixColumn(ShiftRows(s), 1, 0x97, 0xad, 0x73, 0x9b, 0x31, 0xd8, 0x6a, 0x51);
    MixColumn(ShiftRows(s), 2, 0xd8, 0xc9, 0xca, 0x45, 0x64, 0x51, 0x51, 0xfa);
    MixColumn(ShiftRows(s), 3, 0x1f, 0x61, 0x8b, 0x61, 0x77, 0x3a, 0xd0, 0x09);
    var m := MixColumns(ShiftRows(s));
    AddColumn(m, ks[2], 0, 0xff, 0x87, 0x96, 0x84, 0xb6, 0x92, 0xcf, 0x0b, 0x49, 0x15, 0x59, 0x8f);
    AddColumn(m, ks[2], 1, 0x31, 0xd8, 0x6a, 0x51, 0x64, 0x3d, 0xbd, 0xf1, 0x55, 0xe5, 0xd7, 0xa0);
    AddColumn(m, ks[2], 2, 0x64, 0x51, 0x51, 0xfa, 0xbe, 0x9b, 0xc5, 0x00, 0xda, 0xca, 0x94, 0xfa);
    AddColumn(m, ks[2], 3, 0x77, 0x3a, 0xd0, 0x09, 0x68, 0x30, 0xb3, 0xfe, 0x1f, 0x0a, 0x63, 0xf7);
  }

  lemma Round3(g: Block, key: Block)
    requires Stage2(Rounds(g, Schedule(key), 2), key)
    ensures Stage3(Rounds(g, Schedule(key), 3), key)
  {
    hide KeyWord, Schedule, Rounds, At, IsWord, SubBytes, ShiftRows, MixColumns, AddRoundKey;
    FirstWord(key, 12, 0xb6, 0x92, 0xcf, 0x0b, 0x68, 0x30, 0xb3, 0xfe, 0x04, 0x6d, 0xbb, 0x45, 0x00,
      0xb6, 0xff, 0x74, 0x4e);
    NextWord(key, 13, 0x64, 0x3d, 0xbd, 0xf1, 0xb6, 0xff, 0x74, 0x4e, 0xd2, 0xc2, 0xc9, 0xbf);
    NextWord(key, 14, 0xbe, 0x9b, 0xc5, 0x00, 0xd2, 0xc2, 0xc9, 0xbf, 0x6c, 0x59, 0x0c, 0xbf);
    NextWord(key, 15, 0x68, 0x30, 0xb3, 0xfe, 0x6c, 0x59, 0x0c, 0xbf, 0x04, 0x69, 0xbf, 0x41);
    KeyColumn(key, 3, 0, 0xb6, 0xff, 0x74, 0x4e);
    KeyColumn(key, 3, 1, 0xd2, 0xc2, 0xc9, 0xbf);
    KeyColumn(key, 3, 2, 0x6c, 0x59, 0x0c, 0xbf);
    KeyColumn(key, 3, 3, 0x04, 0x69, 0xbf, 0x41);
    var ks, x := Schedule(key), Rounds(g, Schedule(key), 2);
    OneRound(g, ks, 3);
    SubColumn(x, 0, 0x49, 0x15, 0x59, 0x8f, 0x3b, 0x59, 0xcb, 0x73);
    SubColumn(x, 1, 0x55, 0xe5, 0xd7, 0xa0, 0xfc, 0xd9, 0x0e, 0xe0);
    SubColumn(x, 2, 0xda, 0xca, 0x94, 0xfa, 0x57, 0x74, 0x22, 0x2d);
    SubColumn(x, 3, 0x1f, 0x0a, 0x63, 0xf7, 0xc0, 0x67, 0xfb, 0x68);
    var s := SubBytes(x);
    ShiftColumns(s, 0x3b, 0x59, 0xcb, 0x73, 0xfc, 0xd9, 0x0e, 0xe0,
      0x57, 0x74, 0x22, 0x2d, 0xc0, 0x67, 0xfb, 0x68);
    MixColumn(ShiftRows(s), 0, 0x3b, 0xd9, 0x22, 0x68, 0x4c, 0x9c, 0x1e, 0x66);
    MixColumn(ShiftRows(s), 1, 0xfc, 0x74, 0xfb, 0x73, 0xf7, 0x71, 0xf0, 0x76);
    MixColumn(ShiftRows(s), 2, 0x57, 0x67, 0xcb, 0xe0, 0x2c, 0x3f, 0x86, 0x8e);
    MixColumn(ShiftRows(s), 3, 0xc0, 0x59, 0x0e, 0x2d, 0x53, 0x4d, 0xf2, 0x56);
    var m := MixColumns(ShiftRows(s));
    AddColumn(m, ks[3], 0, 0x4c, 0x9c, 0x1e, 0x66, 0xb6, 0xff, 0x74, 0x4e, 0xfa, 0x63, 0x6a, 0x28);
    AddColumn(m, ks[3], 1, 0xf7, 0x71, 0xf0, 0x76, 0xd2, 0xc2, 0xc9, 0xbf, 0x25, 0xb3, 0x39, 0xc9);
    AddColumn(m, ks[3], 2, 0x2c, 0x3f, 0x86, 0x8e, 0x6c, 0x59, 0x0c, 0xbf, 0x40, 0x66, 0x8a, 0x31);
    AddColumn(m, ks[3], 3, 0x53, 0x4d, 0xf2, 0x56, 0x04, 0x69, 0xbf, 0x41, 0x57, 0x24, 0x4d, 0x17);
  }

  lemma Round4(g: Block, key: Block)
    requires Stage3(Rounds(g, Schedule(key), 3), key)
    ensures Stage4(Rounds(g, Schedule(key), 4), key)
  {
    hide KeyWord, Schedule, Rounds, At, IsWord, SubBytes, ShiftRows, MixColumns, AddRoundKey;
    FirstWord(key, 16, 0xb6, 0xff, 0x74, 0x4e, 0x04, 0x69, 0xbf, 0x41, 0xf9, 0x08, 0x83, 0xf2, 0xf1,
      0x47, 0xf7, 0xf7, 0xbc);
    NextWord(key, 17, 0xd2, 0xc2, 0xc9, 0xbf, 0x47, 0xf7, 0xf7, 0xbc, 0x95, 0x35, 0x3e, 0x03);
    NextWord(key, 18, 0x6c, 0x59, 0x0c, 0xbf, 0x95, 0x35, 0x3e, 0x03, 0xf9, 0x6c, 0x32, 0xbc);
    NextWord(key, 19, 0x04, 0x69, 0xbf, 0x41, 0xf9, 0x6c, 0x32, 0xbc, 0xfd, 0x05, 0x8d, 0xfd);
    KeyColumn(key, 4, 0, 0x47, 0xf7, 0xf7, 0xbc);
    KeyColumn(key, 4, 1, 0x95, 0x35, 0x3e, 0x03);
    KeyColumn(key, 4, 2, 0xf9, 0x6c, 0x32, 0xbc);
    KeyColumn(key, 4, 3, 0xfd, 0x05, 0x8d, 0xfd);
    var ks, x := Schedule(key), Rounds(g, Schedule(key), 3);
    OneRound(g, ks, 4);
    SubColumn(x, 0, 0xfa, 0x63, 0x6a, 0x28, 0x2d, 0xfb, 0x02, 0x34);
    SubColumn(x, 1, 0x25, 0xb3, 0x39, 0xc9, 0x3f, 0x6d, 0x12, 0xdd);
    SubColumn(x, 2, 0x40, 0x66, 0x8a, 0x31, 0x09, 0x33, 0x7e, 0xc7);
    SubColumn(x, 3, 0x57, 0x24, 0x4d, 0x17, 0x5b, 0x36, 0xe3, 0xf0);
    var s := SubBytes(x);
    ShiftColumns(s, 0x2d, 0xfb, 0x02, 0x34, 0x3f, 0x6d, 0x12, 0xdd,
      0x09, 0x33, 0x7e, 0xc7, 0x5b, 0x36, 0xe3, 0xf0);
    MixColumn(ShiftRows(s), 0, 0x2d, 0x6d, 0x7e, 0xf0, 0x63, 0x85, 0xb7, 0x9f);
    MixColumn(ShiftRows(s), 1, 0x3f, 0x33, 0xe3, 0x34, 0xfc, 0x53, 0x8d, 0xf9);
    MixColumn(ShiftRows(s), 2, 0x09, 0x36, 0x02, 0xdd, 0x97, 0xbe, 0x47, 0x8e);
    MixColumn(ShiftRows(s), 3, 0x5b, 0xfb, 0x12, 0xc7, 0x75, 0x47, 0xd6, 0x91);
    var m := MixColumns(ShiftRows(s));
    AddColumn(m, ks[4], 0, 0x63, 0x85, 0xb7, 0x9f, 0x47, 0xf7, 0xf7, 0xbc, 0x24, 0x72, 0x40, 0x23);
    AddColumn(m, ks[4], 1, 0xfc, 0x53, 0x8d, 0xf9, 0x95, 0x35, 0x3e, 0x03, 0x69, 0x66, 0xb3, 0xfa);
    AddColumn(m, ks[4], 2, 0x97, 0xbe, 0x47, 0x8e, 0xf9, 0x6c, 0x32, 0xbc, 0x6e, 0xd2, 0x75, 0x32);
    AddColumn(m, ks[4], 3, 0x75, 0x47, 0xd6, 0x91, 0xfd, 0x05, 0x8d, 0xfd, 0x88, 0x42, 0x5b, 0x6c);
  }

  lemma Round5(g: Block, key: Block)
    requires Stage4(Rounds(g, Schedule(key), 4), key)
    ensures Stage5(Rounds(g, Schedule(key), 5), key)
  {
    hide KeyWord, Schedule, Rounds, At, IsWord, SubBytes, ShiftRows, MixColumns, AddRoundKey;
    FirstWord(key, 20, 0x47, 0xf7, 0xf7, 0xbc, 0xfd, 0x05, 0x8d, 0xfd, 0x6b, 0x5d, 0x54, 0x54, 0x7b,
      0x3c, 0xaa, 0xa3, 0xe8);
    NextWord(key, 21, 0x95, 0x35, 0x3e, 0x03, 0x3c, 0xaa, 0xa3, 0xe8, 0xa9, 0x9f, 0x9d, 0xeb);
    NextWord(key, 22, 0xf9, 0x6c, 0x32, 0xbc, 0xa9, 0x9f, 0x9d, 0xeb, 0x50, 0xf3, 0xaf, 0x57);
    NextWord(key, 23, 0xfd, 0x05, 0x8d, 0xfd, 0x50, 0xf3, 0xaf, 0x57, 0xad, 0xf6, 0x22, 0xaa);
    KeyColumn(key, 5, 0, 0x3c, 0xaa, 0xa3, 0xe8);
    KeyColumn(key, 5, 1, 0xa9, 0x9f, 0x9d, 0xeb);
    KeyColumn(key, 5, 2, 0x50, 0xf3, 0xaf, 0x57);
    KeyColumn(key, 5, 3, 0xad, 0xf6, 0x22, 0xaa);
    var ks, x := Schedule(key), Rounds(g, Schedule(key), 4);
    OneRound(g, ks, 5);
    SubColumn(x, 0, 0x24, 0x72, 0x40, 0x23, 0x36, 0x40, 0x09, 0x26);
    SubColumn(x, 1, 0x69, 0x66, 0xb3, 0xfa, 0xf9, 0x33, 0x6d, 0x2d);
    SubColumn(x, 2, 0x6e, 0xd2, 0x75, 0x32, 0x9f, 0xb5, 0x9d, 0x23);
    SubColumn(x, 3, 0x88, 0x42, 0x5b, 0x6c, 0xc4, 0x2c, 0x39, 0x50);
    var s := SubBytes(x);
    ShiftColumns(s, 0x36, 0x40, 0x09, 0x26, 0xf9, 0x33, 0x6d, 0x2d,
      0x9f, 0xb5, 0x9d, 0x23, 0xc4, 0x2c, 0x39, 0x50);
    MixColumn(ShiftRows(s), 0, 0x36, 0x33, 0x9d, 0x50, 0xf4, 0xbc, 0xd4, 0x54);
    MixColumn(ShiftRows(s), 1, 0xf9, 0xb5, 0x39, 0x26, 0x32, 0xe5, 0x54, 0xd0);
    MixColumn(ShiftRows(s), 2, 0x9f, 0x2c, 0x09, 0x2d, 0x75, 0xf1, 0xd6, 0xc5);
    MixColumn(ShiftRows(s), 3, 0xc4, 0x40, 0x6d, 0x23, 0x1d, 0xd0, 0x3b, 0x3c);
    var m := MixColumns(ShiftRows(s));
    AddColumn(m, ks[5], 0, 0xf4, 0xbc, 0xd4, 0x54, 0x3c, 0xaa, 0xa3, 0xe8, 0xc8, 0x16, 0x77, 0xbc);
    AddColumn(m, ks[5], 1, 0x32, 0xe5, 0x54, 0xd0, 0xa9, 0x9f, 0x9d, 0xeb, 0x9b, 0x7a, 0xc9, 0x3b);
    AddColumn(m, ks[5], 2, 0x75, 0xf1, 0xd6, 0xc5, 0x50, 0xf3, 0xaf, 0x57, 0x25, 0x02, 0x79, 0x92);
    AddColumn(m, ks[5], 3, 0x1d, 0xd0, 0x3b, 0x3c, 0xad, 0xf6, 0x22, 0xaa, 0xb0, 0x26, 0x19, 0x96);
  }

  lemma Round6(g: Block, key: Block)
    requires Stage5(Rounds(g, Schedule(key), 5), key)
    ensures Stage6(Rounds(g, Schedule(key), 6), key)
  {
    hide KeyWord, Schedule, Rounds, At, IsWord, SubBytes, ShiftRows, MixColumns, AddRoundKey;
    FirstWord(key, 24, 0x3c, 0xaa, 0xa3, 0xe8, 0xad, 0xf6, 0x22, 0xaa, 0x42, 0x93, 0xac, 0x95, 0x62,
      0x5e, 0x39, 0x0f, 0x7d);
    NextWord(key, 25, 0xa9, 0x9f, 0x9d, 0xeb, 0x5e, 0x39, 0x0f, 0x7d, 0xf7, 0xa6, 0x92, 0x96);
    NextWord(key, 26, 0x50, 0xf3, 0xaf, 0x57, 0xf7, 0xa6, 0x92, 0x96, 0xa7, 0x55, 0x3d, 0xc1);
    NextWord(key, 27, 0xad, 0xf6, 0x22, 0xaa, 0xa7, 0x55, 0x3d, 0xc1, 0x0a, 0xa3, 0x1f, 0x6b);
    KeyColumn(key, 6, 0, 0x5e, 0x39, 0x0f, 0x7d);
    KeyColumn(key, 6, 1, 0xf7, 0xa6, 0x92, 0x96);
    KeyColumn(key, 6, 2, 0xa7, 0x55, 0x3d, 0xc1);
    KeyColumn(key, 6, 3, 0x0a, 0xa3, 0x1f, 0x6b);
    var ks, x := Schedule(key), Rounds(g, Schedule(key), 5);
    OneRound(g, ks, 6);
    SubColumn(x, 0, 0xc8, 0x16, 0x77, 0xbc, 0xe8, 0x47, 0xf5, 0x65);
    SubColumn(x, 1, 0x9b, 0x7a, 0xc9, 0x3b, 0x14, 0xda, 0xdd, 0xe2);
    SubColumn(x, 2, 0x25, 0x02, 0x79, 0x92, 0x3f, 0x77, 0xb6, 0x4f);
    SubColumn(x, 3, 0xb0, 0x26, 0x19, 0x96, 0xe7, 0xf7, 0xd4, 0x90);
    var s := SubBytes(x);
    ShiftColumns(s, 0xe8, 0x47, 0xf5, 0x65, 0x14, 0xda, 0xdd, 0xe2,
      0x3f, 0x77, 0xb6, 0x4f, 0xe7, 0xf7, 0xd4, 0x90);
    MixColumn(ShiftRows(s), 0, 0xe8, 0xda, 0xb6, 0x90, 0x98, 0x16, 0xee, 0x74);
    MixColumn(ShiftRows(s), 1, 0x14, 0x77, 0xd4, 0x65, 0x00, 0xf8, 0x7f, 0x55);
    MixColumn(ShiftRows(s), 2, 0x3f, 0xf7, 0xf5, 0xe2, 0x6b, 0x2c, 0x04, 0x9c);
    MixColumn(ShiftRows(s), 3, 0xe7, 0x47, 0xdd, 0x4f, 0x8e, 0x5a, 0xd0, 0x36);
    var m := MixColumns(ShiftRows(s));
    AddColumn(m, ks[6], 0, 0x98, 0x16, 0xee, 0x74, 0x5e, 0x39, 0x0f, 0x7d, 0xc6, 0x2f, 0xe1, 0x09);
    AddColumn(m, ks[6], 1, 0x00, 0xf8, 0x7f, 0x55, 0xf7, 0xa6, 0x92, 0x96, 0xf7, 0x5e, 0xed, 0xc3);
    AddColumn(m, ks[6], 2, 0x6b, 0x2c, 0x04, 0x9c, 0xa7, 0x55, 0x3d, 0xc1, 0xcc, 0x79, 0x39, 0x5d);
    AddColumn(m, ks[6], 3, 0x8e, 0x5a, 0xd0, 0x36, 0x0a, 0xa3, 0x1f, 0x6b, 0x84, 0xf9, 0xcf, 0x5d);
  }

  lemma Round7(g: Block, key: Block)
    requires Stage6(Rounds(g, Schedule(key), 6), key)
    ensures Stage7(Rounds(g, Schedule(key), 7), key)
  {
    hide KeyWord, Schedule, Rounds, At, IsWord, SubBytes, ShiftRows, MixColumns, AddRoundKey;
    FirstWord(key, 28, 0x5e, 0x39, 0x0f, 0x7d, 0x0a, 0xa3, 0x1f, 0x6b, 0x0a, 0xc0, 0x7f, 0x67, 0x4a,
      0x14, 0xf9, 0x70, 0x1a);
    NextWord(key, 29, 0xf7, 0xa6, 0x92, 0x96, 0x14, 0xf9, 0x70, 0x1a, 0xe3, 0x5f, 0xe2, 0x8c);
    NextWord(key, 30, 0xa7, 0x55, 0x3d, 0xc1, 0xe3, 0x5f, 0xe2, 0x8c, 0x44, 0x0a, 0xdf, 0x4d);
    NextWord(key, 31, 0x0a, 0xa3, 0x1f, 0x6b, 0x44, 0x0a, 0xdf, 0x4d, 0x4e, 0xa9, 0xc0, 0x26);
    KeyColumn(key, 7, 0, 0x14, 0xf9, 0x70, 0x1a);
    KeyColumn(key, 7, 1, 0xe3, 0x5f, 0xe2, 0x8c);
    KeyColumn(key, 7, 2, 0x44, 0x0a, 0xdf, 0x4d);
    KeyColumn(key, 7, 3, 0x4e, 0xa9, 0xc0, 0x26);
    var ks, x := Schedule(key), Rounds(g, Schedule(key), 6);
    OneRound(g, ks, 7);
    SubColumn(x, 0, 0xc6, 0x2f, 0xe1, 0x09, 0xb4, 0x15, 0xf8, 0x01);
    SubColumn(x, 1, 0xf7, 0x5e, 0xed, 0xc3, 0x68, 0x58, 0x55, 0x2e);
    SubColumn(x, 2, 0xcc, 0x79, 0x39, 0x5d, 0x4b, 0xb6, 0x12, 0x4c);
    SubColumn(x, 3, 0x84, 0xf9, 0xcf, 0x5d, 0x5f, 0x99, 0x8a, 0x4c);
    var s := SubBytes(x);
    ShiftColumns(s, 0xb4, 0x15, 0xf8, 0x01, 0x68, 0x58, 0x55, 0x2e,
      0x4b, 0xb6, 0x12, 0x4c, 0x5f, 0x99, 0x8a, 0x4c);
    MixColumn(ShiftRows(s), 0, 0xb4, 0x58, 0x12, 0x4c, 0xc5, 0x7e, 0x1c, 0x15);
    MixColumn(ShiftRows(s), 1, 0x68, 0xb6, 0x8a, 0x01, 0x9a, 0x9b, 0xd2, 0x86);
    MixColumn(ShiftRows(s), 2, 0x4b, 0x99, 0xf8, 0x2e, 0xf0, 0x5f, 0x4b, 0xe0);
    MixColumn(ShiftRows(s), 3, 0x5f, 0x15, 0x55, 0x4c, 0x98, 0xc6, 0x34, 0x39);
    var m := MixColumns(ShiftRows(s));
    AddColumn(m, ks[7], 0, 0xc5, 0x7e, 0x1c, 0x15, 0x14, 0xf9, 0x70, 0x1a, 0xd1, 0x87, 0x6c, 0x0f);
    AddColumn(m, ks[7], 1, 0x9a, 0x9b, 0xd2, 0x86, 0xe3, 0x5f, 0xe2, 0x8c, 0x79, 0xc4, 0x30, 0x0a);
    AddColumn(m, ks[7], 2, 0xf0, 0x5f, 0x4b, 0xe0, 0x44, 0x0a, 0xdf, 0x4d, 0xb4, 0x55, 0x94, 0xad);
    AddColumn(m, ks[7], 3, 0x98, 0xc6, 0x34, 0x39, 0x4e, 0xa9, 0xc0, 0x26, 0xd6, 0x6f, 0xf4, 0x1f);
  }

  lemma Round8(g: Block, key: Block)
    requires Stage7(Rounds(g, Schedule(key), 7), key)
    ensures Stage8(Rounds(g, Schedule(key), 8), key)
  {
    hide KeyWord, Schedule, Rounds, At, IsWord, SubBytes, ShiftRows, MixColumns, AddRoundKey;
    FirstWord(key, 32, 0x14, 0xf9, 0x70, 0x1a, 0x4e, 0xa9, 0xc0, 0x26, 0xd3, 0xba, 0xf7, 0x2f, 0x53,
      0x47, 0x43, 0x87, 0x35);
    NextWord(key, 33, 0xe3, 0x5f, 0xe2, 0x8c, 0x47, 0x43, 0x87, 0x35, 0xa4, 0x1c, 0x65, 0xb9);
    NextWord(key, 34, 0x44, 0x0a, 0xdf, 0x4d, 0xa4, 0x1c, 0x65, 0xb9, 0xe0, 0x16, 0xba, 0xf4);
    NextWord(key, 35, 0x4e, 0xa9, 0xc0, 0x26, 0xe0, 0x16, 0xba, 0xf4, 0xae, 0xbf, 0x7a, 0xd2);
    KeyColumn(key, 8, 0, 0x47, 0x43, 0x87, 0x35);
    KeyColumn(key, 8, 1, 0xa4, 0x1c, 0x65, 0xb9);
    KeyColumn(key, 8, 2, 0xe0, 0x16, 0xba, 0xf4);
    KeyColumn(key, 8, 3, 0xae, 0xbf, 0x7a, 0xd2);
    var ks, x := Schedule(key), Rounds(g, Schedule(key), 7);
    OneRound(g, ks, 8);
    SubColumn(x, 0, 0xd1, 0x87, 0x6c, 0x0f, 0x3e, 0x17, 0x50, 0x76);
    SubColumn(x, 1, 0x79, 0xc4, 0x30, 0x0a, 0xb6, 0x1c, 0x04, 0x67);
    SubColumn(x, 2, 0xb4, 0x55, 0x94, 0xad, 0x8d, 0xfc, 0x22, 0x95);
    SubColumn(x, 3, 0xd6, 0x6f, 0xf4, 0x1f, 0xf6, 0xa8, 0xbf, 0xc0);
    var s := SubBytes(x);
    ShiftColumns(s, 0x3e, 0x17, 0x50, 0x76, 0xb6, 0x1c, 0x04, 0x67,
      0x8d, 0xfc, 0x22, 0x95, 0xf6, 0xa8, 0xbf, 0xc0);
    MixColumn(ShiftRows(s), 0, 0x3e, 0x1c, 0x22, 0xc0, 0xba, 0xa0, 0x3d, 0xe7);
    MixColumn(ShiftRows(s), 1, 0xb6, 0xfc, 0xbf, 0x76, 0xa1, 0xf9, 0xb5, 0x6e);
    MixColumn(ShiftRows(s), 2, 0x8d, 0xa8, 0x50, 0x67, 0xd5, 0x51, 0x2c, 0xba);
    MixColumn(ShiftRows(s), 3, 0xf6, 0x17, 0x04, 0x95, 0x5f, 0x41, 0x4d, 0x23);
    var m := MixColumns(ShiftRows(s));
    AddColumn(m, ks[8], 0, 0xba, 0xa0, 0x3d, 0xe7, 0x47, 0x43, 0x87, 0x35, 0xfd, 0xe3, 0xba, 0xd2);
    AddColumn(m, ks[8], 1, 0xa1, 0xf9, 0xb5, 0x6e, 0xa4, 0x1c, 0x65, 0xb9, 0x05, 0xe5, 0xd0, 0xd7);
    AddColumn(m, ks[8], 2, 0xd5, 0x51, 0x2c, 0xba, 0xe0, 0x16, 0xba, 0xf4, 0x35, 0x47, 0x96, 0x4e);
    AddColumn(m, ks[8], 3, 0x5f, 0x41, 0x4d, 0x23, 0xae, 0xbf, 0x7a, 0xd2, 0xf1, 0xfe, 0x37, 0xf1);
  }

  lemma Round9(g: Block, key: Block)
    requires Stage8(Rounds(g, Schedule(key), 8), key)
    ensures Stage9(Rounds(g, Schedule(key), 9), key)
  {
    hide KeyWord, Schedule, Rounds, At, IsWord, SubBytes, ShiftRows, MixColumns, AddRoundKey;
    FirstWord(key, 36, 0x47, 0x43, 0x87, 0x35, 0xae, 0xbf, 0x7a, 0xd2, 0x08, 0xda, 0xb5, 0xe4, 0x13,
      0x54, 0x99, 0x32, 0xd1);
    NextWord(key, 37, 0xa4, 0x1c, 0x65, 0xb9, 0x54, 0x99, 0x32, 0xd1, 0xf0, 0x85, 0x57, 0x68);
    NextWord(key, 38, 0xe0, 0x16, 0xba, 0xf4, 0xf0, 0x85, 0x57, 0x68, 0x10, 0x93, 0xed, 0x9c);
    NextWord(key, 39, 0xae, 0xbf, 0x7a, 0xd2, 0x10, 0x93, 0xed, 0x9c, 0xbe, 0x2c, 0x97, 0x4e);
    KeyColumn(key, 9, 0, 0x54, 0x99, 0x32, 0xd1);
    KeyColumn(key, 9, 1, 0xf0, 0x85, 0x57, 0x68);
    KeyColumn(key, 9, 2, 0x10, 0x93, 0xed, 0x9c);
    KeyColumn(key, 9, 3, 0xbe, 0x2c, 0x97, 0x4e);
    var ks, x := Schedule(key), Rounds(g, Schedule(key), 8);
    OneRound(g, ks, 9);
    SubColumn(x, 0, 0xfd, 0xe3, 0xba, 0xd2, 0x54, 0x11, 0xf4, 0xb5);
    SubColumn(x, 1, 0x05, 0xe5, 0xd0, 0xd7, 0x6b, 0xd9, 0x70, 0x0e);
    SubColumn(x, 2, 0x35, 0x47, 0x96, 0x4e, 0x96, 0xa0, 0x90, 0x2f);
    SubColumn(x, 3, 0xf1, 0xfe, 0x37, 0xf1, 0xa1, 0xbb, 0x9a, 0xa1);
    var s := SubBytes(x);
    ShiftColumns(s, 0x54, 0x11, 0xf4, 0xb5, 0x6b, 0xd9, 0x70, 0x0e,
      0x96, 0xa0, 0x90, 0x2f, 0xa1, 0xbb, 0x9a, 0xa1);
    MixColumn(ShiftRows(s), 0, 0x54, 0xd9, 0x90, 0xa1, 0xe9, 0xf7, 0x4e, 0xec);
    MixColumn(ShiftRows(s), 1, 0x6b, 0xa0, 0x9a, 0xb5, 0x02, 0x30, 0x20, 0xf6);
    MixColumn(ShiftRows(s), 2, 0x96, 0xbb, 0xf4, 0x0e, 0x1b, 0xf2, 0xcc, 0xf2);
    MixColumn(ShiftRows(s), 3, 0xa1, 0x11, 0x70, 0x2f, 0x35, 0x3c, 0x21, 0xc7);
    var m := MixColumns(ShiftRows(s));
    AddColumn(m, ks[9], 0, 0xe9, 0xf7, 0x4e, 0xec, 0x54, 0x99, 0x32, 0xd1, 0xbd, 0x6e, 0x7c, 0x3d);
    AddColumn(m, ks[9], 1, 0x02, 0x30, 0x20, 0xf6, 0xf0, 0x85, 0x57, 0x68, 0xf2, 0xb5, 0x77, 0x9e);
    AddColumn(m, ks[9], 2, 0x1b, 0xf2, 0xcc, 0xf2, 0x10, 0x93, 0xed, 0x9c, 0x0b, 0x61, 0x21, 0x6e);
    AddColumn(m, ks[9], 3, 0x35, 0x3c, 0x21, 0xc7, 0xbe, 0x2c, 0x97, 0x4e, 0x8b, 0x10, 0xb6, 0x89);
  }

  lemma Round10(g: Block, key: Block)
    requires Stage9(Rounds(g, Schedule(key), 9), key)
    ensures Stage10(Rounds(g, Schedule(key), 10), key)
  {
    hide KeyWord, Schedule, Rounds, At, IsWord, SubBytes, ShiftRows, MixColumns, AddRoundKey;
    FirstWord(key, 40, 0x54, 0x99, 0x32, 0xd1, 0xbe, 0x2c, 0x97, 0x4e, 0x71, 0x88, 0x2f, 0xae, 0x47,
      0x13, 0x11, 0x1d, 0x7f);
    NextWord(key, 41, 0xf0, 0x85, 0x57, 0x68, 0x13, 0x11, 0x1d, 0x7f, 0xe3, 0x94, 0x4a, 0x17);
    NextWord(key, 42, 0x10, 0x93, 0xed, 0x9c, 0xe3, 0x94, 0x4a, 0x17, 0xf3, 0x07, 0xa7, 0x8b);
    NextWord(key, 43, 0xbe, 0x2c, 0x97, 0x4e, 0xf3, 0x07, 0xa7, 0x8b, 0x4d, 0x2b, 0x30, 0xc5);
    KeyColumn(key, 10, 0, 0x13, 0x11, 0x1d, 0x7f);
    KeyColumn(key, 10, 1, 0xe3, 0x94, 0x4a, 0x17);
    KeyColumn(key, 10, 2, 0xf3, 0x07, 0xa7, 0x8b);
    KeyColumn(key, 10, 3, 0x4d, 0x2b, 0x30, 0xc5);
    var ks, x := Schedule(key), Rounds(g, Schedule(key), 9);
    OneRound(g, ks, 10);
    SubColumn(x, 0, 0xbd, 0x6e, 0x7c, 0x3d, 0x7a, 0x9f, 0x10, 0x27);
    SubColumn(x, 1, 0xf2, 0xb5, 0x77, 0x9e, 0x89, 0xd5, 0xf5, 0x0b);
    SubColumn(x, 2, 0x0b, 0x61, 0x21, 0x6e, 0x2b, 0xef, 0xfd, 0x9f);
    SubColumn(x, 3, 0x8b, 0x10, 0xb6, 0x89, 0x3d, 0xca, 0x4e, 0xa7);
    var s := SubBytes(x);
    ShiftColumns(s, 0x7a, 0x9f, 0x10, 0x27, 0x89, 0xd5, 0xf5, 0x0b,
      0x2b, 0xef, 0xfd, 0x9f, 0x3d, 0xca, 0x4e, 0xa7);
    var m := ShiftRows(s);
    AddColumn(m, ks[10], 0, 0x7a, 0xd5, 0xfd, 0xa7, 0x13, 0x11, 0x1d, 0x7f, 0x69, 0xc4, 0xe0, 0xd8);
    AddColumn(m, ks[10], 1, 0x89, 0xef, 0x4e, 0x27, 0xe3, 0x94, 0x4a, 0x17, 0x6a, 0x7b, 0x04, 0x30);
    AddColumn(m, ks[10], 2, 0x2b, 0xca, 0x10, 0x0b, 0xf3, 0x07, 0xa7, 0x8b, 0xd8, 0xcd, 0xb7, 0x80);
    AddColumn(m, ks[10], 3, 0x3d, 0x9f, 0xf5, 0x9f, 0x4d, 0x2b, 0x30, 0xc5, 0x70, 0xb4, 0xc5, 0x5a);
  }

  // ------------------------------------------------------------------ the example

  const KEY: Block := [
    0x00, 0x01, 0x02, 0x03, 0x04, 0x05, 0x06, 0x07,
    0x08, 0x09, 0x0a, 0x0b, 0x0c, 0x0d, 0x0e, 0x0f
  ]

  const PLAINTEXT: Block := [
    0x00, 0x11, 0x22, 0x33, 0x44, 0x55, 0x66, 0x77,
    0x88, 0x99, 0xaa, 0xbb, 0xcc, 0xdd, 0xee, 0xff
  ]

  const CIPHERTEXT: Block := [
    0x69, 0xc4, 0xe0, 0xd8, 0x6a, 0x7b, 0x04, 0x30,
    0xd8, 0xcd, 0xb7, 0x80, 0x70, 0xb4, 0xc5, 0x5a
  ]

  lemma Start(g: Block, key: Block)
    requires At(g, 0, 0x00, 0x11, 0x22, 0x33) && At(g, 1, 0x44, 0x55, 0x66, 0x77)
    requires At(g, 2, 0x88, 0x99, 0xaa, 0xbb) && At(g, 3, 0xcc, 0xdd, 0xee, 0xff)
    requires At(key, 0, 0x00, 0x01, 0x02, 0x03) && At(key, 1, 0x04, 0x05, 0x06, 0x07)
    requires At(key, 2, 0x08, 0x09, 0x0a, 0x0b) && At(key, 3, 0x0c, 0x0d, 0x0e, 0x0f)
    ensures Stage0(Rounds(g, Schedule(key), 0), key)
  {
    FirstWords(key);
    hide KeyWord, Schedule, AddRoundKey;
    KeyColumn(key, 0, 0, 0x00, 0x01, 0x02, 0x03);
    KeyColumn(key, 0, 1, 0x04, 0x05, 0x06, 0x07);
    KeyColumn(key, 0, 2, 0x08, 0x09, 0x0a, 0x0b);
    KeyColumn(key, 0, 3, 0x0c, 0x0d, 0x0e, 0x0f);
    AddColumn(g, Schedule(key)[0], 0, 0x00, 0x11, 0x22, 0x33, 0x00, 0x01, 0x02, 0x03, 0x00, 0x10, 0x20, 0x30);
    AddColumn(g, Schedule(key)[0], 1, 0x44, 0x55, 0x66, 0x77, 0x04, 0x05, 0x06, 0x07, 0x40, 0x50, 0x60, 0x70);
    AddColumn(g, Schedule(key)[0], 2, 0x88, 0x99, 0xaa, 0xbb, 0x08, 0x09, 0x0a, 0x0b, 0x80, 0x90, 0xa0, 0xb0);
    AddColumn(g, Schedule(key)[0], 3, 0xcc, 0xdd, 0xee, 0xff, 0x0c, 0x0d, 0x0e, 0x0f, 0xc0, 0xd0, 0xe0, 0xf0);
  }

  lemma FirstWords(key: Block)
    ensures KeyWord(key, 0) == key[0..4] && KeyWord(key, 1) == key[4..8]
    ensures KeyWord(key, 2) == key[8..12] && KeyWord(key, 3) == key[12..16]
  {
  }

  // The plaintext, the key and the ciphertext of appendix C.1.
  lemma Encrypts()
    ensures Encrypt(PLAINTEXT, Schedule(KEY)) == CIPHERTEXT
  {
    hide Rounds, Schedule, KeyWord, Stage0, Stage1, Stage2, Stage3, Stage4, Stage5, Stage6, Stage7, Stage8, Stage9;
    Start(PLAINTEXT, KEY);
    Round1(PLAINTEXT, KEY);
    Round2(PLAINTEXT, KEY);
    Round3(PLAINTEXT, KEY);
    Round4(PLAINTEXT, KEY);
    Round5(PLAINTEXT, KEY);
    Round6(PLAINTEXT, KEY);
    Round7(PLAINTEXT, KEY);
    Round8(PLAINTEXT, KEY);
    Round9(PLAINTEXT, KEY);
    Round10(PLAINTEXT, KEY);
    assert Encrypt(PLAINTEXT, Schedule(KEY)) == CIPHERTEXT;
  }

  lemma Decrypts()
    ensures Decrypt(CIPHERTEXT, Schedule(KEY)) == PLAINTEXT
  {
    hide Encrypt, Decrypt, Schedule;
    Encrypts();
    DecryptBack(PLAINTEXT, Schedule(KEY));
  }
}
