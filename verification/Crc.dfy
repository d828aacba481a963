// The table-driven forms of CRC-32 against division bit by bit.
module Crc {
  import opened Bytes

  type Word = bv32

  // The reflected polynomial.
  const POLYNOMIAL: Word := 0xedb88320

  function Xor(a: Word, b: Word): Word { a ^ b }

  // One bit of the division.
  function Step(c: Word): Word { Xor(Half(c), Feed(c)) }

  function Half(c: Word): Word { c >> 1 }

  function Feed(c: Word): Word { if c & 1 == 1 then POLYNOMIAL else 0 }

  function Steps(c: Word, n: nat): Word
    decreases n
  {
    if n == 0 then c else Steps(Step(c), n - 1)
  }

  // ------------------------------------------------------------------ linearity

  lemma Swap(a: Word, b: Word)
    ensures Xor(a, b) == Xor(b, a)
  {
  }

  lemma Group(a: Word, b: Word, c: Word)
    ensures Xor(Xor(a, b), c) == Xor(a, Xor(b, c))
  {
  }

  lemma Exchange(a: Word, b: Word, c: Word, d: Word)
    ensures Xor(Xor(a, b), Xor(c, d)) == Xor(Xor(a, c), Xor(b, d))
  {
    hide Xor;
    Group(a, b, Xor(c, d));
    Group(b, c, d);
    Swap(b, c);
    Group(c, b, d);
    Group(a, c, Xor(b, d));
  }

  lemma HalfSum(a: Word, b: Word)
    ensures Half(Xor(a, b)) == Xor(Half(a), Half(b))
  {
  }

  lemma FeedSum(a: Word, b: Word)
    ensures Feed(Xor(a, b)) == Xor(Feed(a), Feed(b))
  {
  }

  lemma StepSum(a: Word, b: Word)
    ensures Step(Xor(a, b)) == Xor(Step(a), Step(b))
  {
    hide Xor, Half, Feed;
    HalfSum(a, b);
    FeedSum(a, b);
    Exchange(Half(a), Half(b), Feed(a), Feed(b));
  }

  lemma {:induction false} StepsSum(a: Word, b: Word, n: nat)
    ensures Steps(Xor(a, b), n) == Xor(Steps(a, n), Steps(b, n))
    decreases n
  {
    hide Step, Xor;
    if n > 0 {
      StepSum(a, b);
      StepsSum(Step(a), Step(b), n - 1);
    }
  }

  // ------------------------------------------------------------------ the tables

  // Entry k of a row.
  function Pick(k: Word, a: Word, b: Word, c: Word, d: Word, e: Word, f: Word, g: Word, h: Word, i: Word, j: Word,
                l: Word, m: Word, n: Word, o: Word, p: Word, q: Word): Word {
    if k < 8 then
      if k < 4 then
        if k < 2 then
          if k < 1 then a else b
        else
          if k < 3 then c else d
      else
        if k < 6 then
          if k < 5 then e else f
        else
          if k < 7 then g else h
    else
      if k < 12 then
        if k < 10 then
          if k < 9 then i else j
        else
          if k < 11 then l else m
      else
        if k < 14 then
          if k < 13 then n else o
        else
          if k < 15 then p else q
  }

  // ztl_crc32_table16
  function Table16(k: Word): Word {
    Pick(k, 0x00000000, 0x1db71064, 0x3b6e20c8, 0x26d930ac,
      0x76dc4190, 0x6b6b51f4, 0x4db26158, 0x5005713c,
      0xedb88320, 0xf00f9344, 0xd6d6a3e8, 0xcb61b38c,
      0x9b64c2b0, 0x86d3d2d4, 0xa00ae278, 0xbdbdf21c)
  }

  // ztl_crc32_table256, by rows of sixteen
  function Table256(r: Word, k: Word): Word {
    if r == 0 then Pick(k, 0x00000000, 0x77073096, 0xee0e612c, 0x990951ba,
        0x076dc419, 0x706af48f, 0xe963a535, 0x9e6495a3,
        0x0edb8832, 0x79dcb8a4, 0xe0d5e91e, 0x97d2d988,
        0x09b64c2b, 0x7eb17cbd, 0xe7b82d07, 0x90bf1d91)
    else if r == 1 then Pick(k, 0x1db71064, 0x6ab020f2, 0xf3b97148, 0x84be41de,
        0x1adad47d, 0x6ddde4eb, 0xf4d4b551, 0x83d385c7,
        0x136c9856, 0x646ba8c0, 0xfd62f97a, 0x8a65c9ec,
        0x14015c4f, 0x63066cd9, 0xfa0f3d63, 0x8d080df5)
    else if r == 2 then Pick(k, 0x3b6e20c8, 0x4c69105e, 0xd56041e4, 0xa2677172,
        0x3c03e4d1, 0x4b04d447, 0xd20d85fd, 0xa50ab56b,
        0x35b5a8fa, 0x42b2986c, 0xdbbbc9d6, 0xacbcf940,
        0x32d86ce3, 0x45df5c75, 0xdcd60dcf, 0xabd13d59)
    else if r == 3 then Pick(k, 0x26d930ac, 0x51de003a, 0xc8d75180, 0xbfd06116,
        0x21b4f4b5, 0x56b3c423, 0xcfba9599, 0xb8bda50f,
        0x2802b89e, 0x5f058808, 0xc60cd9b2, 0xb10be924,
        0x2f6f7c87, 0x58684c11, 0xc1611dab, 0xb6662d3d)
    else if r == 4 then Pick(k, 0x76dc4190, 0x01db7106, 0x98d220bc, 0xefd5102a,
        0x71b18589, 0x06b6b51f, 0x9fbfe4a5, 0xe8b8d433,
        0x7807c9a2, 0x0f00f934, 0x9609a88e, 0xe10e9818,
        0x7f6a0dbb, 0x086d3d2d, 0x91646c97, 0xe6635c01)
    else if r == 5 then Pick(k, 0x6b6b51f4, 0x1c6c6162, 0x856530d8, 0xf262004e,
        0x6c0695ed, 0x1b01a57b, 0x8208f4c1, 0xf50fc457,
        0x65b0d9c6, 0x12b7e950, 0x8bbeb8ea, 0xfcb9887c,
        0x62dd1ddf, 0x15da2d49, 0x8cd37cf3, 0xfbd44c65)
    else if r == 6 then Pick(k, 0x4db26158, 0x3ab551ce, 0xa3bc0074, 0xd4bb30e2,
        0x4adfa541, 0x3dd895d7, 0xa4d1c46d, 0xd3d6f4fb,
        0x4369e96a, 0x346ed9fc, 0xad678846, 0xda60b8d0,
        0x44042d73, 0x33031de5, 0xaa0a4c5f, 0xdd0d7cc9)
    else if r == 7 then Pick(k, 0x5005713c, 0x270241aa, 0xbe0b1010, 0xc90c2086,
        0x5768b525, 0x206f85b3, 0xb966d409, 0xce61e49f,
        0x5edef90e, 0x29d9c998, 0xb0d09822, 0xc7d7a8b4,
        0x59b33d17, 0x2eb40d81, 0xb7bd5c3b, 0xc0ba6cad)
    else if r == 8 then Pick(k, 0xedb88320, 0x9abfb3b6, 0x03b6e20c, 0x74b1d29a,
        0xead54739, 0x9dd277af, 0x04db2615, 0x73dc1683,
        0xe3630b12, 0x94643b84, 0x0d6d6a3e, 0x7a6a5aa8,
        0xe40ecf0b, 0x9309ff9d, 0x0a00ae27, 0x7d079eb1)
    else if r == 9 then Pick(k, 0xf00f9344, 0x8708a3d2, 0x1e01f268, 0x6906c2fe,
        0xf762575d, 0x806567cb, 0x196c3671, 0x6e6b06e7,
        0xfed41b76, 0x89d32be0, 0x10da7a5a, 0x67dd4acc,
        0xf9b9df6f, 0x8ebeeff9, 0x17b7be43, 0x60b08ed5)
    else if r == 10 then Pick(k, 0xd6d6a3e8, 0xa1d1937e, 0x38d8c2c4, 0x4fdff252,
        0xd1bb67f1, 0xa6bc5767, 0x3fb506dd, 0x48b2364b,
        0xd80d2bda, 0xaf0a1b4c, 0x36034af6, 0x41047a60,
        0xdf60efc3, 0xa867df55, 0x316e8eef, 0x4669be79)
    else if r == 11 then Pick(k, 0xcb61b38c, 0xbc66831a, 0x256fd2a0, 0x5268e236,
        0xcc0c7795, 0xbb0b4703, 0x220216b9, 0x5505262f,
        0xc5ba3bbe, 0xb2bd0b28, 0x2bb45a92, 0x5cb36a04,
        0xc2d7ffa7, 0xb5d0cf31, 0x2cd99e8b, 0x5bdeae1d)
    else if r == 12 then Pick(k, 0x9b64c2b0, 0xec63f226, 0x756aa39c, 0x026d930a,
        0x9c0906a9, 0xeb0e363f, 0x72076785, 0x05005713,
        0x95bf4a82, 0xe2b87a14, 0x7bb12bae, 0x0cb61b38,
        0x92d28e9b, 0xe5d5be0d, 0x7cdcefb7, 0x0bdbdf21)
    else if r == 13 then Pick(k, 0x86d3d2d4, 0xf1d4e242, 0x68ddb3f8, 0x1fda836e,
        0x81be16cd, 0xf6b9265b, 0x6fb077e1, 0x18b74777,
        0x88085ae6, 0xff0f6a70, 0x66063bca, 0x11010b5c,
        0x8f659eff, 0xf862ae69, 0x616bffd3, 0x166ccf45)
    else if r == 14 then Pick(k, 0xa00ae278, 0xd70dd2ee, 0x4e048354, 0x3903b3c2,
        0xa7672661, 0xd06016f7, 0x4969474d, 0x3e6e77db,
        0xaed16a4a, 0xd9d65adc, 0x40df0b66, 0x37d83bf0,
        0xa9bcae53, 0xdebb9ec5, 0x47b2cf7f, 0x30b5ffe9)
    else Pick(k, 0xbdbdf21c, 0xcabac28a, 0x53b39330, 0x24b4a3a6,
        0xbad03605, 0xcdd70693, 0x54de5729, 0x23d967bf,
        0xb3667a2e, 0xc4614ab8, 0x5d681b02, 0x2a6f2b94,
        0xb40bbe37, 0xc30c8ea1, 0x5a05df1b, 0x2d02ef8d)
  }

  lemma FourSteps(c: Word)
    ensures Steps(c, 4) == Step(Step(Step(Step(c))))
  {
    hide Step;
    assert Steps(c, 4) == Steps(Step(c), 3);
    assert Steps(Step(c), 3) == Steps(Step(Step(c)), 2);
    assert Steps(Step(Step(c)), 2) == Steps(Step(Step(Step(c))), 1);
  }

  lemma Table16Right(k: Word)
    requires k < 16
    ensures Table16(k) == Steps(k, 4)
  {
    FourSteps(k);
  }

  // Each row is the first one, shifted by its first entry.
  lemma Rows0(k: Word)
    requires k < 16
    ensures Table256(0, k) == Xor(Table256(0, 0), Table256(0, k))
    ensures Table256(1, k) == Xor(Table256(1, 0), Table256(0, k))
    ensures Table256(2, k) == Xor(Table256(2, 0), Table256(0, k))
    ensures Table256(3, k) == Xor(Table256(3, 0), Table256(0, k))
  {
  }

  lemma Rows1(k: Word)
    requires k < 16
    ensures Table256(4, k) == Xor(Table256(4, 0), Table256(0, k))
    ensures Table256(5, k) == Xor(Table256(5, 0), Table256(0, k))
    ensures Table256(6, k) == Xor(Table256(6, 0), Table256(0, k))
    ensures Table256(7, k) == Xor(Table256(7, 0), Table256(0, k))
  {
  }

  lemma Rows2(k: Word)
    requires k < 16
    ensures Table256(8, k) == Xor(Table256(8, 0), Table256(0, k))
    ensures Table256(9, k) == Xor(Table256(9, 0), Table256(0, k))
    ensures Table256(10, k) == Xor(Table256(10, 0), Table256(0, k))
    ensures Table256(11, k) == Xor(Table256(11, 0), Table256(0, k))
  {
  }

  lemma Rows3(k: Word)
    requires k < 16
    ensures Table256(12, k) == Xor(Table256(12, 0), Table256(0, k))
    ensures Table256(13, k) == Xor(Table256(13, 0), Table256(0, k))
    ensures Table256(14, k) == Xor(Table256(14, 0), Table256(0, k))
    ensures Table256(15, k) == Xor(Table256(15, 0), Table256(0, k))
  {
  }

  lemma Rows(r: Word, k: Word)
    requires r < 16 && k < 16
    ensures Table256(r, k) == Xor(Table256(r, 0), Table256(0, k))
  {
    hide Table256, Xor;
    Rows0(k);
    Rows1(k);
    Rows2(k);
    Rows3(k);
    assert r < 4 ==> r == 0 || r == 1 || r == 2 || r == 3;
    assert 4 <= r < 8 ==> r == 4 || r == 5 || r == 6 || r == 7;
    assert 8 <= r < 12 ==> r == 8 || r == 9 || r == 10 || r == 11;
    assert 12 <= r ==> r == 12 || r == 13 || r == 14 || r == 15;
  }

  lemma EightSteps(c: Word)
    ensures Steps(c, 8) == Step(Step(Step(Step(Step(Step(Step(Step(c))))))))
  {
    hide Step;
    FourSteps(c);
    FourSteps(Step(Step(Step(Step(c)))));
    assert Steps(c, 8) == Steps(Step(c), 7);
    assert Steps(Step(c), 7) == Steps(Step(Step(c)), 6);
    assert Steps(Step(Step(c)), 6) == Steps(Step(Step(Step(c))), 5);
    assert Steps(Step(Step(Step(c))), 5) == Steps(Step(Step(Step(Step(c)))), 4);
  }

  lemma FirstRow(k: Word)
    requires k < 16
    ensures Table256(0, k) == Steps(k, 8)
  {
    EightSteps(k);
  }

  lemma FirstEntries(r: Word)
    requires r < 16
    ensures Table256(r, 0) == Steps(r << 4, 8)
  {
    EightSteps(r << 4);
  }

  lemma Halves(n: Word)
    requires n < 256
    ensures n >> 4 < 16 && n & 15 < 16 && Xor((n >> 4) << 4, n & 15) == n
  {
  }

  lemma Table256Right(n: Word)
    requires n < 256
    ensures Table256(n >> 4, n & 15) == Steps(n, 8)
  {
    Halves(n);
    Rows(n >> 4, n & 15);
    FirstRow(n & 15);
    FirstEntries(n >> 4);
    StepsSum((n >> 4) << 4, n & 15, 8);
    hide Table256, Xor, Steps;
  }

  // ------------------------------------------------------------------ a byte at a time

  predicate Even(c: Word) { c & 1 == 0 }

  // A step over a zero bit only shifts.
  lemma EvenStep(c: Word)
    requires Even(c)
    ensures Step(c) == Half(c)
  {
    assert Feed(c) == 0;
    NoFeed(Half(c));
    hide Xor, Half;
  }

  lemma NoFeed(c: Word)
    ensures Xor(c, 0) == c
  {
  }

  function High4(c: Word): Word { c >> 4 }

  function Low4(c: Word): Word { c & 15 }

  // What is left of a word without its low four bits.
  function Rest4(c: Word): Word { c & 0xffff_fff0 }

  lemma Split4(c: Word)
    ensures Low4(c) < 16 && Xor(Rest4(c), Low4(c)) == c
  {
  }

  lemma RestEven(c: Word)
    ensures var x := Rest4(c); Even(x) && Even(Half(x)) && Even(Half(Half(x))) && Even(Half(Half(Half(x))))
    ensures Half(Half(Half(Half(Rest4(c))))) == High4(c)
  {
  }

  lemma RestSteps(c: Word)
    ensures Steps(Rest4(c), 4) == High4(c)
  {
    hide Step, Half, Even, Rest4, High4;
    var x := Rest4(c);
    RestEven(c);
    FourSteps(x);
    EvenStep(x);
    EvenStep(Half(x));
    EvenStep(Half(Half(x)));
    EvenStep(Half(Half(Half(x))));
  }

  // Four bits by the small table.
  lemma ByNibble(c: Word)
    ensures Xor(Table16(Low4(c)), High4(c)) == Steps(c, 4)
  {
    hide Steps, Xor, Table16, Low4, High4, Rest4;
    Split4(c);
    Table16Right(Low4(c));
    RestSteps(c);
    StepsSum(Rest4(c), Low4(c), 4);
    Swap(High4(c), Steps(Low4(c), 4));
  }

  function High8(c: Word): Word { c >> 8 }

  function Low8(c: Word): Word { c & 255 }

  function Rest8(c: Word): Word { c & 0xffff_ff00 }

  lemma Split8(c: Word)
    ensures Low8(c) < 256 && Xor(Rest8(c), Low8(c)) == c
  {
  }

  lemma RestTwice(c: Word)
    ensures Rest4(Rest8(c)) == Rest8(c)
  {
  }

  lemma HighTwice(c: Word)
    ensures Rest4(High4(Rest8(c))) == High4(Rest8(c)) && High4(High4(Rest8(c))) == High8(c)
  {
  }

  lemma {:induction false} StepsMore(c: Word, n: nat, m: nat)
    ensures Steps(c, n + m) == Steps(Steps(c, n), m)
    decreases n
  {
    hide Step;
    if n > 0 {
      StepsMore(Step(c), n - 1, m);
    }
  }

  // The entry of the large table for a byte.
  function Entry(n: Word): Word { Table256(n >> 4, n & 15) }

  // Eight bits by the large table.
  lemma ByTable(c: Word)
    ensures Xor(Entry(Low8(c)), High8(c)) == Steps(c, 8)
  {
    Split8(c);
    EntryRight(Low8(c));
    hide Steps, Xor, Entry, Low8, High4, High8, Rest4, Rest8;
    RestTwice(c);
    HighTwice(c);
    RestSteps(Rest8(c));
    RestSteps(High4(Rest8(c)));
    StepsMore(Rest8(c), 4, 4);
    StepsSum(Rest8(c), Low8(c), 8);
    Swap(High8(c), Steps(Low8(c), 8));
  }

  lemma EntryRight(n: Word)
    requires n < 256
    ensures Entry(n) == Steps(n, 8)
  {
    hide Table256, Steps;
    Table256Right(n);
  }

  // ------------------------------------------------------------------ the checksums

  function Widened(b: Byte): Word { b as Word }

  // Division of the data bit by bit, from a register on.
  function Divided(c: Word, p: seq<Byte>): Word
    decreases |p|
  {
    if p == [] then c else Divided(Steps(Xor(c, Widened(p[0])), 8), p[1..])
  }

  function Crc32(p: seq<Byte>): Word { Xor(Divided(0xffffffff, p), 0xffffffff) }

  // Data in parts: the register goes on where it stood.
  lemma {:induction false} Chained(c: Word, p: seq<Byte>, q: seq<Byte>)
    ensures Divided(c, p + q) == Divided(Divided(c, p), q)
    decreases |p|
  {
    hide Steps, Xor;
    if p == [] {
      assert p + q == q;
    } else {
      assert (p + q)[1..] == p[1..] + q;
      Chained(Steps(Xor(c, Widened(p[0])), 8), p[1..], q);
    }
  }

  lemma DividedNext(c: Word, p: seq<Byte>, i: nat)
    requires i < |p|
    ensures Divided(c, p[i..]) == Divided(Steps(Xor(c, Widened(p[i])), 8), p[i + 1..])
  {
    hide Steps, Xor;
    assert p[i..][1..] == p[i + 1..];
  }

  // ztl_crc32_update
  method Update(crc: Word, p: seq<Byte>) returns (c: Word)
    ensures c == Divided(crc, p)
  {
    hide Xor, Entry, Low8, High8, Steps, Widened;
    c := crc;
    for i := 0 to |p|
      invariant Divided(c, p[i..]) == Divided(crc, p)
    {
      DividedNext(c, p, i);
      ByTable(Xor(c, Widened(p[i])));
      FedByte(c, p[i]);
      c := Xor(Entry(Low8(Xor(c, Widened(p[i])))), High8(c));
    }
  }

  // A byte only touches the low eight bits.
  lemma FedByte(c: Word, b: Byte)
    ensures High8(Xor(c, Widened(b))) == High8(c)
  {
  }

  // ztl_crc32_long
  method Crc32Long(p: seq<Byte>) returns (crc: Word)
    ensures crc == Crc32(p)
  {
    hide Xor, Entry, Low8, High8, Steps, Widened, Divided;
    crc := 0xffffffff;
    assert p[0..] == p;
    for i := 0 to |p|
      invariant Divided(crc, p[i..]) == Divided(0xffffffff, p)
    {
      DividedNext(crc, p, i);
      ByTable(Xor(crc, Widened(p[i])));
      FedByte(crc, p[i]);
      crc := Xor(Entry(Low8(Xor(crc, Widened(p[i])))), High8(crc));
    }
    DividedEnd(crc, p);
    crc := Xor(crc, 0xffffffff);
  }

  lemma DividedEnd(c: Word, p: seq<Byte>)
    ensures Divided(c, p[|p|..]) == c
  {
  }

  // A nibble only touches the low four bits.
  lemma FedNibble(c: Word, n: Word)
    requires n < 16
    ensures High4(Xor(c, n)) == High4(c)
  {
  }

  lemma Nibbles(b: Byte)
    ensures var w := Widened(b); Low4(w) < 16 && High4(w) < 16
  {
  }

  // A byte fed as two nibbles.
  lemma TwoNibbles(c: Word, w: Word)
    ensures Steps(Xor(Steps(Xor(c, Low4(w)), 4), High4(w)), 4) == Steps(Xor(c, w), 8)
  {
    hide Xor, Steps, Low4, High4, Rest4;
    Split4(w);
    Swap(Rest4(w), Low4(w));
    Group(c, Low4(w), Rest4(w));
    StepsSum(Xor(c, Low4(w)), Rest4(w), 4);
    RestSteps(w);
    StepsMore(Xor(c, w), 4, 4);
  }

  // ztl_crc32_short
  method Crc32Short(p: seq<Byte>) returns (crc: Word)
    ensures crc == Crc32(p)
  {
    hide Xor, Table16, Low4, High4, Steps, Widened, Divided;
    crc := 0xffffffff;
    assert p[0..] == p;
    for i := 0 to |p|
      invariant Divided(crc, p[i..]) == Divided(0xffffffff, p)
    {
      var w := Widened(p[i]);
      DividedNext(crc, p, i);
      Nibbles(p[i]);
      TwoNibbles(crc, w);
      ByNibble(Xor(crc, Low4(w)));
      FedNibble(crc, Low4(w));
      crc := Xor(Table16(Low4(Xor(crc, Low4(w)))), High4(crc));
      ByNibble(Xor(crc, High4(w)));
      FedNibble(crc, High4(w));
      crc := Xor(Table16(Low4(Xor(crc, High4(w)))), High4(crc));
    }
    DividedEnd(crc, p);
    crc := Xor(crc, 0xffffffff);
  }

  // ------------------------------------------------------------------ a check value

  // A byte by the table.
  lemma OneByte(c: Word, p: seq<Byte>, i: nat, b: Byte, d: Word)
    requires i < |p| && p[i] == b && Fed(c, b, d)
    ensures Divided(c, p[i..]) == Divided(d, p[i + 1..])
  {
    hide Steps, Entry, Low8, High8, Widened, Divided;
    DividedNext(c, p, i);
    ByTable(Xor(c, Widened(p[i])));
  }

  // The register after a byte.
  predicate Fed(c: Word, b: Byte, d: Word) {
    var x := Xor(c, Widened(b));
    Xor(Entry(Low8(x)), High8(x)) == d
  }

  lemma Lookups0()
    ensures Fed(0xffffffff, 49, 0x7c231048)
    ensures Fed(0x7c231048, 50, 0xb0acbb32)
  {
  }

  lemma Lookups1()
    ensures Fed(0xb0acbb32, 51, 0x77b79c2d)
    ensures Fed(0x77b79c2d, 52, 0x641c1f5c)
  {
  }

  lemma Lookups2()
    ensures Fed(0x641c1f5c, 53, 0x340ac5e3)
    ensures Fed(0x340ac5e3, 54, 0xf68d2c9e)
  {
  }

  lemma Lookups3()
    ensures Fed(0xf68d2c9e, 55, 0xaffc9660)
    ensures Fed(0xaffc9660, 56, 0x651f2550)
  {
  }

  lemma Lookups4()
    ensures Fed(0x651f2550, 57, 0x340bc6d9)
  {
  }

  lemma FourBytes(p: seq<Byte>)
    requires |p| == 9 && p[0] == 49 && p[1] == 50 && p[2] == 51 && p[3] == 52 && p[4] == 53 && p[5] == 54
    requires p[6] == 55 && p[7] == 56 && p[8] == 57
    ensures Divided(0xffffffff, p) == Divided(0x641c1f5c, p[4..])
  {
    hide Divided, Fed;
    Lookups0();
    Lookups1();
    OneByte(0xffffffff, p, 0, 49, 0x7c231048);
    OneByte(0x7c231048, p, 1, 50, 0xb0acbb32);
    OneByte(0xb0acbb32, p, 2, 51, 0x77b79c2d);
    OneByte(0x77b79c2d, p, 3, 52, 0x641c1f5c);
    assert p[0..] == p;
  }

  lemma FiveMoreBytes(p: seq<Byte>)
    requires |p| == 9 && p[0] == 49 && p[1] == 50 && p[2] == 51 && p[3] == 52 && p[4] == 53 && p[5] == 54
    requires p[6] == 55 && p[7] == 56 && p[8] == 57
    ensures Divided(0x641c1f5c, p[4..]) == 0x340bc6d9
  {
    hide Divided, Fed;
    Lookups2();
    Lookups3();
    Lookups4();
    OneByte(0x641c1f5c, p, 4, 53, 0x340ac5e3);
    OneByte(0x340ac5e3, p, 5, 54, 0xf68d2c9e);
    OneByte(0xf68d2c9e, p, 6, 55, 0xaffc9660);
    OneByte(0xaffc9660, p, 7, 56, 0x651f2550);
    OneByte(0x651f2550, p, 8, 57, 0x340bc6d9);
    DividedEnd(0x340bc6d9, p);
  }

  // The checksum of the digits from 1 to 9.
  lemma CheckValue()
    ensures Crc32([49, 50, 51, 52, 53, 54, 55, 56, 57]) == 0xcbf43926
  {
    hide Divided;
    var p := [49, 50, 51, 52, 53, 54, 55, 56, 57];
    FourBytes(p);
    FiveMoreBytes(p);
  }
}
