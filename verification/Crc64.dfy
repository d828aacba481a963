// CRC-64 in the Jones variant: the table-driven form against division bit by bit.
module Crc64 {
  import opened Bytes

  type Word = bv64

  // The reflected polynomial.
  const POLYNOMIAL: Word := 0x95ac9329ac4bc9b5

  function Xor(a: Word, b: Word): Word { a ^ b }

  // One bit of the division.
  function Step(c: Word): Word { Xor(Half(c), Feed(c)) }

  function Half(c: Word): Word { c >> 1 }

  function Feed(c: Word): Word { if c & 1 == 1 then POLYNOMIAL else 0 }

  function Steps(c: Word, n: nat): Word
    decreases n
  {
    if n == 0 then c else Steps(Step(c), n - 1)
  }

  // ------------------------------------------------------------------ linearity

  lemma Swap(a: Word, b: Word)
    ensures Xor(a, b) == Xor(b, a)
  {
  }

  lemma Group(a: Word, b: Word, c: Word)
    ensures Xor(Xor(a, b), c) == Xor(a, Xor(b, c))
  {
  }

  lemma Exchange(a: Word, b: Word, c: Word, d: Word)
    ensures Xor(Xor(a, b), Xor(c, d)) == Xor(Xor(a, c), Xor(b, d))
  {
    hide Xor;
    Group(a, b, Xor(c, d));
    Group(b, c, d);
    Swap(b, c);
    Group(c, b, d);
    Group(a, c, Xor(b, d));
  }

  lemma HalfSum(a: Word, b: Word)
    ensures Half(Xor(a, b)) == Xor(Half(a), Half(b))
  {
  }

  lemma FeedSum(a: Word, b: Word)
    ensures Feed(Xor(a, b)) == Xor(Feed(a), Feed(b))
  {
  }

  lemma StepSum(a: Word, b: Word)
    ensures Step(Xor(a, b)) == Xor(Step(a), Step(b))
  {
    hide Xor, Half, Feed;
    HalfSum(a, b);
    FeedSum(a, b);
    Exchange(Half(a), Half(b), Feed(a), Feed(b));
  }

  lemma {:induction false} StepsSum(a: Word, b: Word, n: nat)
    ensures Steps(Xor(a, b), n) == Xor(Steps(a, n), Steps(b, n))
    decreases n
  {
    hide Step, Xor;
    if n > 0 {
      StepSum(a, b);
      StepsSum(Step(a), Step(b), n - 1);
    }
  }

  // ------------------------------------------------------------------ the table

  // Entry k of a row.
  function Pick(k: Word, a: Word, b: Word, c: Word, d: Word, e: Word, f: Word, g: Word, h: Word, i: Word, j: Word,
                l: Word, m: Word, n: Word, o: Word, p: Word, q: Word): Word {
    if k < 8 then
      if k < 4 then
        if k < 2 then
          if k < 1 then a else b
        else
          if k < 3 then c else d
      else
        if k < 6 then
          if k < 5 then e else f
        else
          if k < 7 then g else h
    else
      if k < 12 then
        if k < 10 then
          if k < 9 then i else j
        else
          if k < 11 then l else m
      else
        if k < 14 then
          if k < 13 then n else o
        else
          if k < 15 then p else q
  }

  // crc64_tab, by rows of sixteen
  function Table(r: Word, k: Word): Word {
    if r == 0 then Pick(k, 0x0000000000000000, 0x7ad870c830358979, 0xf5b0e190606b12f2, 0x8f689158505e9b8b,
        0xc038e5739841b68f, 0xbae095bba8743ff6, 0x358804e3f82aa47d, 0x4f50742bc81f2d04,
        0xab28ecb46814fe75, 0xd1f09c7c5821770c, 0x5e980d24087fec87, 0x24407dec384a65fe,
        0x6b1009c7f05548fa, 0x11c8790fc060c183, 0x9ea0e857903e5a08, 0xe478989fa00bd371)
    else if r == 1 then Pick(k, 0x7d08ff3b88be6f81, 0x07d08ff3b88be6f8, 0x88b81eabe8d57d73, 0xf2606e63d8e0f40a,
        0xbd301a4810ffd90e, 0xc7e86a8020ca5077, 0x4880fbd87094cbfc, 0x32588b1040a14285,
        0xd620138fe0aa91f4, 0xacf86347d09f188d, 0x2390f21f80c18306, 0x594882d7b0f40a7f,
        0x1618f6fc78eb277b, 0x6cc0863448deae02, 0xe3a8176c18803589, 0x997067a428b5bcf0)
    else if r == 2 then Pick(k, 0xfa11fe77117cdf02, 0x80c98ebf2149567b, 0x0fa11fe77117cdf0, 0x75796f2f41224489,
        0x3a291b04893d698d, 0x40f16bccb908e0f4, 0xcf99fa94e9567b7f, 0xb5418a5cd963f206,
        0x513912c379682177, 0x2be1620b495da80e, 0xa489f35319033385, 0xde51839b2936bafc,
        0x9101f7b0e12997f8, 0xebd98778d11c1e81, 0x64b116208142850a, 0x1e6966e8b1770c73)
    else if r == 3 then Pick(k, 0x8719014c99c2b083, 0xfdc17184a9f739fa, 0x72a9e0dcf9a9a271, 0x08719014c99c2b08,
        0x4721e43f0183060c, 0x3df994f731b68f75, 0xb29105af61e814fe, 0xc849756751dd9d87,
        0x2c31edf8f1d64ef6, 0x56e99d30c1e3c78f, 0xd9810c6891bd5c04, 0xa3597ca0a188d57d,
        0xec09088b6997f879, 0x96d1784359a27100, 0x19b9e91b09fcea8b, 0x636199d339c963f2)
    else if r == 4 then Pick(k, 0xdf7adabd7a6e2d6f, 0xa5a2aa754a5ba416, 0x2aca3b2d1a053f9d, 0x50124be52a30b6e4,
        0x1f423fcee22f9be0, 0x659a4f06d21a1299, 0xeaf2de5e82448912, 0x902aae96b271006b,
        0x74523609127ad31a, 0x0e8a46c1224f5a63, 0x81e2d7997211c1e8, 0xfb3aa75142244891,
        0xb46ad37a8a3b6595, 0xceb2a3b2ba0eecec, 0x41da32eaea507767, 0x3b024222da65fe1e)
    else if r == 5 then Pick(k, 0xa2722586f2d042ee, 0xd8aa554ec2e5cb97, 0x57c2c41692bb501c, 0x2d1ab4dea28ed965,
        0x624ac0f56a91f461, 0x1892b03d5aa47d18, 0x97fa21650afae693, 0xed2251ad3acf6fea,
        0x095ac9329ac4bc9b, 0x7382b9faaaf135e2, 0xfcea28a2faafae69, 0x8632586aca9a2710,
        0xc9622c4102850a14, 0xb3ba5c8932b0836d, 0x3cd2cdd162ee18e6, 0x460abd1952db919f)
    else if r == 6 then Pick(k, 0x256b24ca6b12f26d, 0x5fb354025b277b14, 0xd0dbc55a0b79e09f, 0xaa03b5923b4c69e6,
        0xe553c1b9f35344e2, 0x9f8bb171c366cd9b, 0x10e3202993385610, 0x6a3b50e1a30ddf69,
        0x8e43c87e03060c18, 0xf49bb8b633338561, 0x7bf329ee636d1eea, 0x012b592653589793,
        0x4e7b2d0d9b47ba97, 0x34a35dc5ab7233ee, 0xbbcbcc9dfb2ca865, 0xc113bc55cb19211c)
    else if r == 7 then Pick(k, 0x5863dbf1e3ac9dec, 0x22bbab39d3991495, 0xadd33a6183c78f1e, 0xd70b4aa9b3f20667,
        0x985b3e827bed2b63, 0xe2834e4a4bd8a21a, 0x6debdf121b863991, 0x1733afda2bb3b0e8,
        0xf34b37458bb86399, 0x8993478dbb8deae0, 0x06fbd6d5ebd3716b, 0x7c23a61ddbe6f812,
        0x3373d23613f9d516, 0x49aba2fe23cc5c6f, 0xc6c333a67392c7e4, 0xbc1b436e43a74e9d)
    else if r == 8 then Pick(k, 0x95ac9329ac4bc9b5, 0xef74e3e19c7e40cc, 0x601c72b9cc20db47, 0x1ac40271fc15523e,
        0x5594765a340a7f3a, 0x2f4c0692043ff643, 0xa02497ca54616dc8, 0xdafce7026454e4b1,
        0x3e847f9dc45f37c0, 0x445c0f55f46abeb9, 0xcb349e0da4342532, 0xb1eceec59401ac4b,
        0xfebc9aee5c1e814f, 0x8464ea266c2b0836, 0x0b0c7b7e3c7593bd, 0x71d40bb60c401ac4)
    else if r == 9 then Pick(k, 0xe8a46c1224f5a634, 0x927c1cda14c02f4d, 0x1d148d82449eb4c6, 0x67ccfd4a74ab3dbf,
        0x289c8961bcb410bb, 0x5244f9a98c8199c2, 0xdd2c68f1dcdf0249, 0xa7f41839ecea8b30,
        0x438c80a64ce15841, 0x3954f06e7cd4d138, 0xb63c61362c8a4ab3, 0xcce411fe1cbfc3ca,
        0x83b465d5d4a0eece, 0xf96c151de49567b7, 0x76048445b4cbfc3c, 0x0cdcf48d84fe7545)
    else if r == 10 then Pick(k, 0x6fbd6d5ebd3716b7, 0x15651d968d029fce, 0x9a0d8ccedd5c0445, 0xe0d5fc06ed698d3c,
        0xaf85882d2576a038, 0xd55df8e515432941, 0x5a3569bd451db2ca, 0x20ed197575283bb3,
        0xc49581ead523e8c2, 0xbe4df122e51661bb, 0x3125607ab548fa30, 0x4bfd10b2857d7349,
        0x04ad64994d625e4d, 0x7e7514517d57d734, 0xf11d85092d094cbf, 0x8bc5f5c11d3cc5c6)
    else if r == 11 then Pick(k, 0x12b5926535897936, 0x686de2ad05bcf04f, 0xe70573f555e26bc4, 0x9ddd033d65d7e2bd,
        0xd28d7716adc8cfb9, 0xa85507de9dfd46c0, 0x273d9686cda3dd4b, 0x5de5e64efd965432,
        0xb99d7ed15d9d8743, 0xc3450e196da80e3a, 0x4c2d9f413df695b1, 0x36f5ef890dc31cc8,
        0x79a59ba2c5dc31cc, 0x037deb6af5e9b8b5, 0x8c157a32a5b7233e, 0xf6cd0afa9582aa47)
    else if r == 12 then Pick(k, 0x4ad64994d625e4da, 0x300e395ce6106da3, 0xbf66a804b64ef628, 0xc5bed8cc867b7f51,
        0x8aeeace74e645255, 0xf036dc2f7e51db2c, 0x7f5e4d772e0f40a7, 0x05863dbf1e3ac9de,
        0xe1fea520be311aaf, 0x9b26d5e88e0493d6, 0x144e44b0de5a085d, 0x6e963478ee6f8124,
        0x21c640532670ac20, 0x5b1e309b16452559, 0xd476a1c3461bbed2, 0xaeaed10b762e37ab)
    else if r == 13 then Pick(k, 0x37deb6af5e9b8b5b, 0x4d06c6676eae0222, 0xc26e573f3ef099a9, 0xb8b627f70ec510d0,
        0xf7e653dcc6da3dd4, 0x8d3e2314f6efb4ad, 0x0256b24ca6b12f26, 0x788ec2849684a65f,
        0x9cf65a1b368f752e, 0xe62e2ad306bafc57, 0x6946bb8b56e467dc, 0x139ecb4366d1eea5,
        0x5ccebf68aecec3a1, 0x2616cfa09efb4ad8, 0xa97e5ef8cea5d153, 0xd3a62e30fe90582a)
    else if r == 14 then Pick(k, 0xb0c7b7e3c7593bd8, 0xca1fc72bf76cb2a1, 0x45775673a732292a, 0x3faf26bb9707a053,
        0x70ff52905f188d57, 0x0a2722586f2d042e, 0x854fb3003f739fa5, 0xff97c3c80f4616dc,
        0x1bef5b57af4dc5ad, 0x61372b9f9f784cd4, 0xee5fbac7cf26d75f, 0x9487ca0fff135e26,
        0xdbd7be24370c7322, 0xa10fceec0739fa5b, 0x2e675fb4576761d0, 0x54bf2f7c6752e8a9)
    else Pick(k, 0xcdcf48d84fe75459, 0xb71738107fd2dd20, 0x387fa9482f8c46ab, 0x42a7d9801fb9cfd2,
        0x0df7adabd7a6e2d6, 0x772fdd63e7936baf, 0xf8474c3bb7cdf024, 0x829f3cf387f8795d,
        0x66e7a46c27f3aa2c, 0x1c3fd4a417c62355, 0x935745fc4798b8de, 0xe98f353477ad31a7,
        0xa6df411fbfb21ca3, 0xdc0731d78f8795da, 0x536fa08fdfd90e51, 0x29b7d047efec8728)
  }

  // Each row is the first one, shifted by its first entry.
  lemma Rows0(k: Word)
    requires k < 16
    ensures Table(0, k) == Xor(Table(0, 0), Table(0, k))
    ensures Table(1, k) == Xor(Table(1, 0), Table(0, k))
  {
  }

  lemma Rows1(k: Word)
    requires k < 16
    ensures Table(2, k) == Xor(Table(2, 0), Table(0, k))
    ensures Table(3, k) == Xor(Table(3, 0), Table(0, k))
  {
  }

  lemma Rows2(k: Word)
    requires k < 16
    ensures Table(4, k) == Xor(Table(4, 0), Table(0, k))
    ensures Table(5, k) == Xor(Table(5, 0), Table(0, k))
  {
  }

  lemma Rows3(k: Word)
    requires k < 16
    ensures Table(6, k) == Xor(Table(6, 0), Table(0, k))
    ensures Table(7, k) == Xor(Table(7, 0), Table(0, k))
  {
  }

  lemma Rows4(k: Word)
    requires k < 16
    ensures Table(8, k) == Xor(Table(8, 0), Table(0, k))
    ensures Table(9, k) == Xor(Table(9, 0), Table(0, k))
  {
  }

  lemma Rows5(k: Word)
    requires k < 16
    ensures Table(10, k) == Xor(Table(10, 0), Table(0, k))
    ensures Table(11, k) == Xor(Table(11, 0), Table(0, k))
  {
  }

  lemma Rows6(k: Word)
    requires k < 16
    ensures Table(12, k) == Xor(Table(12, 0), Table(0, k))
    ensures Table(13, k) == Xor(Table(13, 0), Table(0, k))
  {
  }

  lemma Rows7(k: Word)
    requires k < 16
    ensures Table(14, k) == Xor(Table(14, 0), Table(0, k))
    ensures Table(15, k) == Xor(Table(15, 0), Table(0, k))
  {
  }

  lemma Rows(r: Word, k: Word)
    requires r < 16 && k < 16
    ensures Table(r, k) == Xor(Table(r, 0), Table(0, k))
  {
    hide Table, Xor;
    Rows0(k);
    Rows1(k);
    Rows2(k);
    Rows3(k);
    Rows4(k);
    Rows5(k);
    Rows6(k);
    Rows7(k);
    assert r < 4 ==> r == 0 || r == 1 || r == 2 || r == 3;
    assert 4 <= r < 8 ==> r == 4 || r == 5 || r == 6 || r == 7;
    assert 8 <= r < 12 ==> r == 8 || r == 9 || r == 10 || r == 11;
    assert 12 <= r ==> r == 12 || r == 13 || r == 14 || r == 15;
  }

  lemma FourSteps(c: Word)
    ensures Steps(c, 4) == Step(Step(Step(Step(c))))
  {
    hide Step;
    assert Steps(c, 4) == Steps(Step(c), 3);
    assert Steps(Step(c), 3) == Steps(Step(Step(c)), 2);
    assert Steps(Step(Step(c)), 2) == Steps(Step(Step(Step(c))), 1);
  }

  lemma EightSteps(c: Word)
    ensures Steps(c, 8) == Step(Step(Step(Step(Step(Step(Step(Step(c))))))))
  {
    hide Step;
    FourSteps(c);
    FourSteps(Step(Step(Step(Step(c)))));
    assert Steps(c, 8) == Steps(Step(c), 7);
    assert Steps(Step(c), 7) == Steps(Step(Step(c)), 6);
    assert Steps(Step(Step(c)), 6) == Steps(Step(Step(Step(c))), 5);
    assert Steps(Step(Step(Step(c))), 5) == Steps(Step(Step(Step(Step(c)))), 4);
  }

  lemma FirstRow(k: Word)
    requires k < 16
    ensures Table(0, k) == Steps(k, 8)
  {
    EightSteps(k);
  }

  lemma FirstEntries(r: Word)
    requires r < 16
    ensures Table(r, 0) == Steps(r << 4, 8)
  {
    EightSteps(r << 4);
  }

  lemma Halves(n: Word)
    requires n < 256
    ensures n >> 4 < 16 && n & 15 < 16 && Xor((n >> 4) << 4, n & 15) == n
  {
  }

  lemma TableRight(n: Word)
    requires n < 256
    ensures Table(n >> 4, n & 15) == Steps(n, 8)
  {
    Halves(n);
    Rows(n >> 4, n & 15);
    FirstRow(n & 15);
    FirstEntries(n >> 4);
    StepsSum((n >> 4) << 4, n & 15, 8);
    hide Table, Xor, Steps;
  }

  // ------------------------------------------------------------------ a byte at a time

  predicate Even(c: Word) { c & 1 == 0 }

  // A step over a zero bit only shifts.
  lemma EvenStep(c: Word)
    requires Even(c)
    ensures Step(c) == Half(c)
  {
    assert Feed(c) == 0;
    NoFeed(Half(c));
    hide Xor, Half;
  }

  lemma NoFeed(c: Word)
    ensures Xor(c, 0) == c
  {
  }

  function High8(c: Word): Word { c >> 8 }

  function Low8(c: Word): Word { c & 255 }

  // What is left of a word without its low eight bits.
  function Rest8(c: Word): Word { c & 0xffff_ffff_ffff_ff00 }

  function Rest4(c: Word): Word { c & 0xffff_ffff_ffff_fff0 }

  function High4(c: Word): Word { c >> 4 }

  lemma Split8(c: Word)
    ensures Low8(c) < 256 && Xor(Rest8(c), Low8(c)) == c
  {
  }

  lemma RestEven(c: Word)
    ensures var x := Rest4(c); Even(x) && Even(Half(x)) && Even(Half(Half(x))) && Even(Half(Half(Half(x))))
    ensures Half(Half(Half(Half(Rest4(c))))) == High4(c)
  {
  }

  lemma RestSteps(c: Word)
    ensures Steps(Rest4(c), 4) == High4(c)
  {
    hide Step, Half, Even, Rest4, High4;
    var x := Rest4(c);
    RestEven(c);
    FourSteps(x);
    EvenStep(x);
    EvenStep(Half(x));
    EvenStep(Half(Half(x)));
    EvenStep(Half(Half(Half(x))));
  }

  lemma RestTwice(c: Word)
    ensures Rest4(Rest8(c)) == Rest8(c)
  {
  }

  function Low4(c: Word): Word { c & 15 }

  lemma HighEven(c: Word)
    ensures Low4(High4(Rest8(c))) == 0
  {
  }

  lemma NothingLow(c: Word)
    requires Low4(c) == 0
    ensures Rest4(c) == c
  {
  }

  lemma HighOfHigh(c: Word)
    ensures High4(High4(Rest8(c))) == High8(c)
  {
  }

  lemma {:induction false} StepsMore(c: Word, n: nat, m: nat)
    ensures Steps(c, n + m) == Steps(Steps(c, n), m)
    decreases n
  {
    hide Step;
    if n > 0 {
      StepsMore(Step(c), n - 1, m);
    }
  }

  // The entry of the table for a byte.
  function Entry(n: Word): Word { Table(n >> 4, n & 15) }

  lemma EntryRight(n: Word)
    requires n < 256
    ensures Entry(n) == Steps(n, 8)
  {
    hide Table, Steps;
    TableRight(n);
  }

  // Eight bits by the table.
  lemma ByTable(c: Word)
    ensures Xor(Entry(Low8(c)), High8(c)) == Steps(c, 8)
  {
    Split8(c);
    EntryRight(Low8(c));
    hide Steps, Xor, Entry, Low4, Low8, High4, High8, Rest4, Rest8;
    RestTwice(c);
    HighEven(c);
    NothingLow(High4(Rest8(c)));
    HighOfHigh(c);
    RestSteps(Rest8(c));
    RestSteps(High4(Rest8(c)));
    StepsMore(Rest8(c), 4, 4);
    StepsSum(Rest8(c), Low8(c), 8);
    Swap(High8(c), Steps(Low8(c), 8));
  }

  // ------------------------------------------------------------------ the checksum

  function Widened(b: Byte): Word { b as Word }

  // Division of the data bit by bit, from a register on.
  function Divided(c: Word, p: seq<Byte>): Word
    decreases |p|
  {
    if p == [] then c else Divided(Steps(Xor(c, Widened(p[0])), 8), p[1..])
  }

  // Data in parts: the register goes on where it stood.
  lemma {:induction false} Chained(c: Word, p: seq<Byte>, q: seq<Byte>)
    ensures Divided(c, p + q) == Divided(Divided(c, p), q)
    decreases |p|
  {
    hide Steps, Xor;
    if p == [] {
      assert p + q == q;
    } else {
      assert (p + q)[1..] == p[1..] + q;
      Chained(Steps(Xor(c, Widened(p[0])), 8), p[1..], q);
    }
  }

  lemma DividedNext(c: Word, p: seq<Byte>, i: nat)
    requires i < |p|
    ensures Divided(c, p[i..]) == Divided(Steps(Xor(c, Widened(p[i])), 8), p[i + 1..])
  {
    hide Steps, Xor;
    assert p[i..][1..] == p[i + 1..];
  }

  // A byte only touches the low eight bits.
  lemma FedByte(c: Word, b: Byte)
    ensures High8(Xor(c, Widened(b))) == High8(c)
    ensures Low8(Xor(c, Widened(b))) == Xor(Low8(c), Widened(b))
  {
  }

  // ztl_crc64
  method Crc64(crc: Word, s: seq<Byte>) returns (c: Word)
    ensures c == Divided(crc, s)
  {
    hide Xor, Entry, Low8, High8, Steps, Widened;
    c := crc;
    for j := 0 to |s|
      invariant Divided(c, s[j..]) == Divided(crc, s)
    {
      DividedNext(c, s, j);
      ByTable(Xor(c, Widened(s[j])));
      FedByte(c, s[j]);
      c := Xor(Entry(Xor(Low8(c), Widened(s[j]))), High8(c));
    }
  }

  // ------------------------------------------------------------------ a check value

  // A byte by the table.
  lemma OneByte(c: Word, p: seq<Byte>, i: nat, b: Byte, d: Word)
    requires i < |p| && p[i] == b && Fed(c, b, d)
    ensures Divided(c, p[i..]) == Divided(d, p[i + 1..])
  {
    hide Steps, Entry, Low8, High8, Widened, Divided;
    DividedNext(c, p, i);
    ByTable(Xor(c, Widened(p[i])));
  }

  // The register after a byte.
  predicate Fed(c: Word, b: Byte, d: Word) {
    var x := Xor(c, Widened(b));
    Xor(Entry(Low8(x)), High8(x)) == d
  }

  lemma NothingLeft(c: Word, p: seq<Byte>)
    ensures Divided(c, p[|p|..]) == c
  {
  }

  lemma Lookups0()
    ensures Fed(0x0000000000000000, 49, 0xfdc17184a9f739fa)
    ensures Fed(0xfdc17184a9f739fa, 50, 0xe10364513a98ed96)
  {
  }

  lemma Lookups1()
    ensures Fed(0xe10364513a98ed96, 51, 0xd5bcfb814479b1ac)
    ensures Fed(0xd5bcfb814479b1ac, 52, 0x43593c5dcda521f0)
  {
  }

  lemma Lookups2()
    ensures Fed(0x43593c5dcda521f0, 53, 0xf0758513239c7e0d)
    ensures Fed(0xf0758513239c7e0d, 54, 0xa3a90925b2ab4903)
  {
  }

  lemma Lookups3()
    ensures Fed(0xa3a90925b2ab4903, 55, 0x47824d362431ad45)
    ensures Fed(0x47824d362431ad45, 56, 0x49ec20b315e86dc2)
  {
  }

  lemma Lookups4()
    ensures Fed(0x49ec20b315e86dc2, 57, 0xe9c6d914c4b8d9ca)
  {
  }

  lemma FourBytes(p: seq<Byte>)
    requires |p| == 9 && p[0] == 49 && p[1] == 50 && p[2] == 51 && p[3] == 52 && p[4] == 53 && p[5] == 54
    requires p[6] == 55 && p[7] == 56 && p[8] == 57
    ensures Divided(0x0000000000000000, p) == Divided(0x43593c5dcda521f0, p[4..])
  {
    hide Divided, Fed;
    Lookups0();
    Lookups1();
    OneByte(0x0000000000000000, p, 0, 49, 0xfdc17184a9f739fa);
    OneByte(0xfdc17184a9f739fa, p, 1, 50, 0xe10364513a98ed96);
    OneByte(0xe10364513a98ed96, p, 2, 51, 0xd5bcfb814479b1ac);
    OneByte(0xd5bcfb814479b1ac, p, 3, 52, 0x43593c5dcda521f0);
    assert p[0..] == p;
  }

  lemma FiveMoreBytes(p: seq<Byte>)
    requires |p| == 9 && p[0] == 49 && p[1] == 50 && p[2] == 51 && p[3] == 52 && p[4] == 53 && p[5] == 54
    requires p[6] == 55 && p[7] == 56 && p[8] == 57
    ensures Divided(0x43593c5dcda521f0, p[4..]) == 0xe9c6d914c4b8d9ca
  {
    hide Divided, Fed;
    Lookups2();
    Lookups3();
    Lookups4();
    OneByte(0x43593c5dcda521f0, p, 4, 53, 0xf0758513239c7e0d);
    OneByte(0xf0758513239c7e0d, p, 5, 54, 0xa3a90925b2ab4903);
    OneByte(0xa3a90925b2ab4903, p, 6, 55, 0x47824d362431ad45);
    OneByte(0x47824d362431ad45, p, 7, 56, 0x49ec20b315e86dc2);
    OneByte(0x49ec20b315e86dc2, p, 8, 57, 0xe9c6d914c4b8d9ca);
    NothingLeft(0xe9c6d914c4b8d9ca, p);
  }

  // The checksum of the digits from 1 to 9.
  lemma CheckValue()
    ensures Divided(0, [49, 50, 51, 52, 53, 54, 55, 56, 57]) == 0xe9c6d914c4b8d9ca
  {
    hide Divided;
    var p := [49, 50, 51, 52, 53, 54, 55, 56, 57];
    FourBytes(p);
    FiveMoreBytes(p);
  }
}
