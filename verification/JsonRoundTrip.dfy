// Parsing what was printed gives the value back.
module JsonRoundTrip {
  import opened Common
  import opened Octets
  import opened JsonText
  import opened JsonParse

  // ------------------------------------------------------------------ pieces of a text

  lemma AtParts(c: seq<Byte>, off: nat, a: seq<Byte>, b: seq<Byte>)
    requires At(c, off, a + b)
    ensures At(c, off, a) && At(c, off + |a|, b)
  {
    assert c[off..off + |a|] == c[off..off + |a + b|][..|a|];
    assert c[off + |a|..off + |a| + |b|] == c[off..off + |a + b|][|a|..];
  }

  lemma AtByte(c: seq<Byte>, off: nat, t: seq<Byte>, i: nat)
    requires At(c, off, t) && i < |t|
    ensures off + i < |c| && c[off + i] == t[i]
  {
    assert c[off..off + |t|][i] == t[i];
  }

  lemma {:induction false} SkipBlanks(c: seq<Byte>, off: nat, k: nat)
    requires off + k < |c| && c[off + k] > 32 && forall i :: off <= i < off + k ==> c[i] <= 32
    ensures Skip(c, off) == off + k
    decreases k
  {
    if k > 0 {
      SkipBlanks(c, off + 1, k - 1);
    }
  }

  // ------------------------------------------------------------------ strings

  lemma HexBack(b: Byte)
    requires b < 32
    ensures HexValue(HexDigit(b / 16)) == Some(b / 16) && HexValue(HexDigit(b % 16)) == Some(b % 16)
  {
  }

  // Every byte is escaped into something that holds no bare quote.
  lemma EndAfterByte(c: seq<Byte>, p: nat, b: Byte)
    requires At(c, p, Escaped(b))
    ensures StringEnd(c, p) == StringEnd(c, p + |Escaped(b)|)
  {
    var e := Escaped(b);
    AtByte(c, p, e, 0);
    if |e| > 1 {
      AtByte(c, p, e, 1);
    }
    if |e| == 6 {
      HexBack(b);
      AtByte(c, p, e, 2);
      AtByte(c, p, e, 3);
      AtByte(c, p, e, 4);
      AtByte(c, p, e, 5);
      FourMore(c, p + 2);
    }
  }

  lemma FourMore(c: seq<Byte>, p: nat)
    requires p + 4 <= |c| && forall i :: p <= i < p + 4 ==> c[i] != QUOTE && c[i] != BACKSLASH
    ensures StringEnd(c, p) == StringEnd(c, p + 4)
  {
    assert StringEnd(c, p) == StringEnd(c, p + 1);
    assert StringEnd(c, p + 1) == StringEnd(c, p + 2);
    assert StringEnd(c, p + 2) == StringEnd(c, p + 3);
  }

  lemma {:induction false} EndFound(c: seq<Byte>, p: nat, s: seq<Byte>)
    requires At(c, p, EscapedAll(s) + [QUOTE])
    ensures StringEnd(c, p) == Some(p + |EscapedAll(s)|)
    decreases |s|
  {
    hide At, Escaped;
    AtParts(c, p, EscapedAll(s), [QUOTE]);
    AtByte(c, p + |EscapedAll(s)|, [QUOTE], 0);
    if s != [] {
      assert EscapedAll(s) + [QUOTE] == Escaped(s[0]) + (EscapedAll(s[1..]) + [QUOTE]);
      AtParts(c, p, Escaped(s[0]), EscapedAll(s[1..]) + [QUOTE]);
      EndAfterByte(c, p, s[0]);
      EndFound(c, p + |Escaped(s[0])|, s[1..]);
    }
  }

  lemma ByteBack(c: seq<Byte>, p: nat, end: nat, b: Byte, out: seq<Byte>)
    requires At(c, p, Escaped(b)) && b != 0 && p + |Escaped(b)| <= end < |c|
    ensures Unescape(c, p, end, out) == Unescape(c, p + |Escaped(b)|, end, out + [b])
  {
    var e := Escaped(b);
    AtByte(c, p, e, 0);
    if |e| > 1 {
      AtByte(c, p, e, 1);
    }
    if |e| == 6 {
      HexBack(b);
      AtByte(c, p, e, 2);
      AtByte(c, p, e, 3);
      AtByte(c, p, e, 4);
      AtByte(c, p, e, 5);
      assert Hex4(c, p + 2) == b / 16 * 16 + b % 16 == b;
      assert Literal(c, p, end) == Some(([b], 6));
    }
  }

  lemma UnescapedAll(c: seq<Byte>, p: nat, out: seq<Byte>)
    requires p < |c|
    ensures Unescape(c, p, p, out) == Done(out, p + 1)
  {
  }

  lemma {:induction false} BytesBack(c: seq<Byte>, p: nat, s: seq<Byte>, out: seq<Byte>)
    requires At(c, p, EscapedAll(s)) && Printable(s) && p + |EscapedAll(s)| < |c|
    ensures Unescape(c, p, p + |EscapedAll(s)|, out) == Done(out + s, p + |EscapedAll(s)| + 1)
    decreases |s|
  {
    hide Escaped, At;
    if s == [] {
      assert out + s == out;
      UnescapedAll(c, p, out);
    } else {
      hide Unescape;
      AtParts(c, p, Escaped(s[0]), EscapedAll(s[1..]));
      ByteBack(c, p, p + |EscapedAll(s)|, s[0], out);
      BytesBack(c, p + |Escaped(s[0])|, s[1..], out + [s[0]]);
      assert out + [s[0]] + s[1..] == out + s;
    }
  }

  lemma StringBack(c: seq<Byte>, off: nat, s: seq<Byte>)
    requires At(c, off, StringText(s)) && Printable(s)
    ensures c[off] == QUOTE && PString(c, off) == Done(s, off + |StringText(s)|)
  {
    assert StringText(s) == [QUOTE] + (EscapedAll(s) + [QUOTE]);
    AtParts(c, off, [QUOTE], EscapedAll(s) + [QUOTE]);
    AtByte(c, off, [QUOTE], 0);
    EndFound(c, off + 1, s);
    AtParts(c, off + 1, EscapedAll(s), [QUOTE]);
    BytesBack(c, off + 1, s, []);
    assert [] + s == s;
  }

  // ------------------------------------------------------------------ numbers

  lemma {:induction false} RunIs(c: seq<Byte>, off: nat, n: nat, len: nat)
    requires n <= len <= 63 && off + len < |c| && !NumberByte(c[off + len])
    requires forall i :: off <= i < off + len ==> NumberByte(c[i])
    ensures Run(c, off, n) == len
    decreases len - n
  {
    if n < len {
      RunIs(c, off, n + 1, len);
    }
  }

  lemma NumberBack<N>(c: seq<Byte>, off: nat, t: seq<Byte>, n: N, read: seq<Byte> -> Reading<N>)
    requires At(c, off, t) && NumberText(t) && read(t) == Read(n, |t|)
    requires off + |t| < |c| && !NumberByte(c[off + |t|])
    ensures PNumber(c, off, read) == Done(n, off + |t|)
    ensures c[off] == 45 || IsDigit(c[off])
  {
    forall i | off <= i < off + |t|
      ensures NumberByte(c[i])
    {
      AtByte(c, off, t, i - off);
    }
    AtByte(c, off, t, 0);
    RunIs(c, off, 0, |t|);
  }

  // ------------------------------------------------------------------ values

  // Every number of the value is read back as what was printed.
  ghost predicate Faithful<N(!new)>(v: Value<N>, render: N -> seq<Byte>, read: seq<Byte> -> Reading<N>)
    decreases v
  {
    match v
    case Number(n) => read(render(n)) == Read(n, |render(n)|)
    case Array(items) => forall i :: 0 <= i < |items| ==> Faithful(items[i], render, read)
    case Object(members) => forall i :: 0 <= i < |members| ==> Faithful(members[i].value, render, read)
    case _ => true
  }

  // The first byte tells the kind of value.
  lemma FirstByte<N(!new)>(v: Value<N>, fmt: bool, d: nat, render: N -> seq<Byte>)
    requires Clean(v, render)
    ensures var t := Text(v, fmt, d, render);
      |t| >= 1 && t[0] == match v
        case Null => 110
        case False => 102
        case True => 116
        case Number(n) => render(n)[0]
        case String(_) => QUOTE
        case Array(_) => OPEN_ARRAY
        case Object(_) => OPEN_OBJECT
    ensures Text(v, fmt, d, render)[0] > 32 && Text(v, fmt, d, render)[0] != CLOSE_ARRAY
  {
  }

  lemma NotAt(c: seq<Byte>, off: nat, t: seq<Byte>)
    requires off < |c| && t != [] && c[off] != t[0]
    ensures !At(c, off, t)
  {
    if At(c, off, t) {
      AtByte(c, off, t, 0);
    }
  }

  // None of the three words starts here.
  lemma NoWord(c: seq<Byte>, off: nat)
    requires off < |c| && c[off] != 110 && c[off] != 102 && c[off] != 116
    ensures !At(c, off, NULL_TEXT) && !At(c, off, FALSE_TEXT) && !At(c, off, TRUE_TEXT)
  {
    NotAt(c, off, NULL_TEXT);
    NotAt(c, off, FALSE_TEXT);
    NotAt(c, off, TRUE_TEXT);
  }

  // Whatever follows a text must not continue a number.
  predicate Closed(c: seq<Byte>, off: nat) { off < |c| && !NumberByte(c[off]) }

  lemma {:induction false} ValueBack<N(!new)>(v: Value<N>, fmt: bool, d: nat, render: N -> seq<Byte>,
                                              read: seq<Byte> -> Reading<N>, c: seq<Byte>, off: nat, depth: nat)
    requires Terminated(c) && ReadsPrefix(read) && Clean(v, render) && Faithful(v, render, read)
    requires At(c, off, Text(v, fmt, d, render)) && Closed(c, off + |Text(v, fmt, d, render)|)
    requires depth + Nesting(v) <= NESTING_LIMIT
    ensures PValue(c, off, depth, read) == Done(v, off + |Text(v, fmt, d, render)|)
    decreases v, Children(v) + 1
  {
    hide PArray, PObject, PString, PNumber, StringText, Elements, Members, Terminated;
    var t := Text(v, fmt, d, render);
    FirstByte(v, fmt, d, render);
    AtByte(c, off, t, 0);
    match v
    case Null =>
    case False =>
      NotAt(c, off, NULL_TEXT);
    case True =>
      NotAt(c, off, NULL_TEXT);
      NotAt(c, off, FALSE_TEXT);
    case Number(n) =>
      NoWord(c, off);
      NumberBack(c, off, render(n), n, read);
    case String(s) =>
      NoWord(c, off);
      StringBack(c, off, s);
    case Array(items) =>
      NoWord(c, off);
      ArrayBack(v, fmt, d, render, read, c, off, depth);
    case Object(members) =>
      NoWord(c, off);
      ObjectBack(v, fmt, d, render, read, c, off, depth);
  }

  // Blanks between two parts of a text.
  predicate Blank(w: seq<Byte>) { forall i :: 0 <= i < |w| ==> w[i] <= 32 }

  lemma SkipOver(c: seq<Byte>, p: nat, w: seq<Byte>, x: seq<Byte>)
    requires At(c, p, w + x) && Blank(w) && x != [] && x[0] > 32
    ensures Skip(c, p) == p + |w| && At(c, p + |w|, x)
  {
    AtParts(c, p, w, x);
    AtByte(c, p + |w|, x, 0);
    forall i | p <= i < p + |w|
      ensures c[i] <= 32
    {
      AtByte(c, p, w, i - p);
    }
    SkipBlanks(c, p, |w|);
  }

  lemma {:induction false} ArrayBack<N(!new)>(v: Value<N>, fmt: bool, d: nat, render: N -> seq<Byte>,
                                              read: seq<Byte> -> Reading<N>, c: seq<Byte>, off: nat, depth: nat)
    requires v.Array? && Terminated(c) && ReadsPrefix(read) && Clean(v, render) && Faithful(v, render, read)
    requires At(c, off, Text(v, fmt, d, render)) && depth + Nesting(v) <= NESTING_LIMIT
    requires off < |c| && c[off] == OPEN_ARRAY
    ensures PArray(c, off, depth, read) == Done(v, off + |Text(v, fmt, d, render)|)
    decreases v, Children(v) + 1, 0
  {
    hide Text, Elements, Members, At, Skip, PValue, PElements, PArray, PObject, PMembers, PString, Clean, Faithful,
         Nesting, NestingOf, ReadsPrefix, Terminated, Blank, Closed;
    var e := Elements(v, 0, fmt, d + 1, render) + [CLOSE_ARRAY];
    ArrayLayout(v, fmt, d, render);
    AtParts(c, off, [OPEN_ARRAY], e);
    AtByte(c, off, [OPEN_ARRAY] + e, 1);
    NestedOne(v);
    if v.items == [] {
      SkipOver(c, off + 1, [], e);
      AtByte(c, off + 1, e, 0);
      PArrayStep(c, off, depth, read, off + 1, [], 0);
    } else {
      ElementsLayout(v, 0, fmt, d + 1, render);
      BlankNothing();
      assert [] + e == e;
      SkipOver(c, off + 1, [], e);
      AtByte(c, off + 1, e, 0);
      assert v.items[..0] == [];
      ElementsBack(v, 0, fmt, d + 1, render, read, c, off, off + 1, depth + 1);
      PArrayStep(c, off, depth, read, off + 1, v.items, off + 1 + |e|);
    }
  }

  lemma BlankNothing()
    ensures Blank([]) && Blank([SPACE]) && Blank([TAB])
  {
  }

  lemma NestedOne<N>(v: Value<N>)
    requires v.Array? || v.Object?
    ensures Nesting(v) == 1 + NestingOf(v, 0)
  {
  }

  lemma ArrayLayout<N>(v: Value<N>, fmt: bool, d: nat, render: N -> seq<Byte>)
    requires v.Array?
    ensures Text(v, fmt, d, render) == [OPEN_ARRAY] + (Elements(v, 0, fmt, d + 1, render) + [CLOSE_ARRAY])
    ensures v.items == [] ==> Elements(v, 0, fmt, d + 1, render) == [] && Array([]) == v && Blank([])
    ensures v.items == [] ==> [] + (Elements(v, 0, fmt, d + 1, render) + [CLOSE_ARRAY]) == [CLOSE_ARRAY]
    ensures v.items == [] ==> Elements(v, 0, fmt, d + 1, render) + [CLOSE_ARRAY] == [CLOSE_ARRAY]
  {
  }

  // Element i, and what follows it.
  lemma ElementsLayout<N(!new)>(v: Value<N>, i: nat, fmt: bool, d: nat, render: N -> seq<Byte>)
    requires v.Array? && i < |v.items| && Clean(v, render)
    ensures var t, e := Text(v.items[i], fmt, d, render), Elements(v, i, fmt, d, render) + [CLOSE_ARRAY];
      && e != [] && e[0] > 32 && e[0] != CLOSE_ARRAY && |e| == |Elements(v, i, fmt, d, render)| + 1
      && e == t + if i + 1 == |v.items| then [CLOSE_ARRAY]
                  else [COMMA] + ((if fmt then [SPACE] else []) + (Elements(v, i + 1, fmt, d, render) + [CLOSE_ARRAY]))
  {
    FirstByte(v.items[i], fmt, d, render);
    ElementsStep(v, i, fmt, d, render);
    hide Text, Elements, Clean;
    var t, rest := Text(v.items[i], fmt, d, render), Elements(v, i + 1, fmt, d, render);
    if i + 1 == |v.items| {
      assert t + [] + [] == t;
    } else {
      Regrouped(t, [COMMA], if fmt then [SPACE] else [], rest, [CLOSE_ARRAY]);
    }
  }

  lemma Regrouped(a: seq<Byte>, b: seq<Byte>, c: seq<Byte>, d: seq<Byte>, e: seq<Byte>)
    ensures (a + (b + c) + d) + e == a + (b + (c + (d + e)))
  {
  }

  lemma ElementsStep<N>(v: Value<N>, i: nat, fmt: bool, d: nat, render: N -> seq<Byte>)
    requires v.Array? && i < |v.items|
    ensures Elements(v, i, fmt, d, render) == Text(v.items[i], fmt, d, render)
      + (if i + 1 < |v.items| then [COMMA] + (if fmt then [SPACE] else []) else []) + Elements(v, i + 1, fmt, d, render)
    ensures i + 1 == |v.items| ==> Elements(v, i + 1, fmt, d, render) == []
  {
    assert i + 1 == |v.items| ==> Elements(v, i + 1, fmt, d, render) == [];
    hide Text, Elements;
  }

  lemma PArrayStep<N(!new)>(c: seq<Byte>, off: nat, depth: nat, read: seq<Byte> -> Reading<N>, o: nat,
                            items: seq<Value<N>>, p: nat)
    requires Terminated(c) && off + 1 < |c| && ReadsPrefix(read) && c[off] == OPEN_ARRAY && depth < NESTING_LIMIT
    requires o == off + 1 == Skip(c, off + 1)
    ensures c[o] == CLOSE_ARRAY ==> PArray(c, off, depth, read) == Done(Array([]), o + 1)
    ensures c[o] != CLOSE_ARRAY && PElements(c, off, depth + 1, [], read) == Done(items, p) ==>
      PArray(c, off, depth, read) == Done(Array(items), p)
  {
  }

  lemma PElementsStep<N(!new)>(c: seq<Byte>, off: nat, depth: nat, items: seq<Value<N>>, read: seq<Byte> -> Reading<N>,
                               v: Value<N>, p: nat)
    requires Terminated(c) && off + 1 < |c| && ReadsPrefix(read)
    requires PValue(c, Skip(c, off + 1), depth, read) == Done(v, p)
    ensures var q := Skip(c, p);
      && (c[q] == COMMA ==> q + 1 < |c| && PElements(c, off, depth, items, read) == PElements(c, q, depth, items + [v],
        read))
      && (c[q] == CLOSE_ARRAY ==> PElements(c, off, depth, items, read) == Done(items + [v], q + 1))
  {
  }

  lemma ItemFacts<N(!new)>(v: Value<N>, i: nat, render: N -> seq<Byte>, read: seq<Byte> -> Reading<N>)
    requires v.Array? && i < |v.items| && Clean(v, render) && Faithful(v, render, read)
    ensures v.items[i] < v && Clean(v.items[i], render) && Faithful(v.items[i], render, read)
    ensures Nesting(v.items[i]) <= NestingOf(v, i) && NestingOf(v, i + 1) <= NestingOf(v, i)
  {
  }

  // Where element i lies, and the next one.
  lemma ElementPlaced<N(!new)>(v: Value<N>, i: nat, fmt: bool, d: nat, render: N -> seq<Byte>, c: seq<Byte>, p: nat)
    requires v.Array? && i < |v.items| && Clean(v, render)
    requires At(c, p, Elements(v, i, fmt, d, render) + [CLOSE_ARRAY])
    ensures var t, end := Text(v.items[i], fmt, d, render), p + |Elements(v, i, fmt, d, render) + [CLOSE_ARRAY]|;
      var q := p + |t|;
      && At(c, p, t) && Closed(c, q) && Skip(c, q) == q
      && if i + 1 == |v.items| then c[q] == CLOSE_ARRAY && end == q + 1
         else
           var rest := Elements(v, i + 1, fmt, d, render) + [CLOSE_ARRAY];
           c[q] == COMMA && q + 1 < |c| && At(c, Skip(c, q + 1), rest) && end == Skip(c, q + 1) + |rest|
  {
    hide Text, Elements, At, Skip, Clean, Blank, Closed;
    var t := Text(v.items[i], fmt, d, render);
    ElementsLayout(v, i, fmt, d, render);
    if i + 1 == |v.items| {
      AtParts(c, p, t, [CLOSE_ARRAY]);
      AtByte(c, p + |t|, [CLOSE_ARRAY], 0);
      IsClosed(c, p + |t|);
      SkipOne(c, p + |t|);
    } else {
      BlankNothing();
      ElementsLayout(v, i + 1, fmt, d, render);
      CommaPlaced(c, p, t, if fmt then [SPACE] else [], Elements(v, i + 1, fmt, d, render) + [CLOSE_ARRAY]);
    }
  }

  lemma CommaPlaced(c: seq<Byte>, p: nat, t: seq<Byte>, gap: seq<Byte>, rest: seq<Byte>)
    requires At(c, p, t + ([COMMA] + (gap + rest))) && Blank(gap) && rest != [] && rest[0] > 32
    ensures var q := p + |t|;
      && At(c, p, t) && q + 1 < |c| && c[q] == COMMA && Closed(c, q) && Skip(c, q) == q
      && Skip(c, q + 1) == q + 1 + |gap| && At(c, Skip(c, q + 1), rest)
  {
    hide At, Skip, Blank, Closed;
    var q := p + |t|;
    AtParts(c, p, t, [COMMA] + (gap + rest));
    AtByte(c, q, [COMMA] + (gap + rest), 0);
    AtByte(c, q, [COMMA] + (gap + rest), 1);
    AtParts(c, q, [COMMA], gap + rest);
    SkipOver(c, q + 1, gap, rest);
    IsClosed(c, q);
    SkipOne(c, q);
  }

  lemma {:induction false} ElementsBack<N(!new)>(v: Value<N>, i: nat, fmt: bool, d: nat, render: N -> seq<Byte>,
                                                 read: seq<Byte> -> Reading<N>, c: seq<Byte>, off: nat, p: nat,
                                                 depth: nat)
    requires v.Array? && i < |v.items| && Terminated(c) && ReadsPrefix(read)
    requires Clean(v, render) && Faithful(v, render, read)
    requires off + 1 < |c| && Skip(c, off + 1) == p && At(c, p, Elements(v, i, fmt, d, render) + [CLOSE_ARRAY])
    requires depth + NestingOf(v, i) <= NESTING_LIMIT
    ensures PElements(c, off, depth, v.items[..i], read)
      == Done(v.items, p + |Elements(v, i, fmt, d, render) + [CLOSE_ARRAY]|)
    decreases v, |v.items| - i
  {
    hide Text, Elements, Members, At, Skip, PValue, PElements, PArray, PObject, PMembers, PString, Clean, Faithful,
         Nesting, NestingOf, ReadsPrefix, Terminated, Blank, Closed;
    ItemFacts(v, i, render, read);
    ElementPlaced(v, i, fmt, d, render, c, p);
    var q := p + |Text(v.items[i], fmt, d, render)|;
    ValueBack(v.items[i], fmt, d, render, read, c, p, depth);
    PElementsStep(c, off, depth, v.items[..i], read, v.items[i], q);
    assert v.items[..i] + [v.items[i]] == v.items[..i + 1];
    if i + 1 == |v.items| {
      assert v.items[..i + 1] == v.items;
    } else {
      ElementsBack(v, i + 1, fmt, d, render, read, c, q, Skip(c, q + 1), depth);
    }
  }

  lemma IsClosed(c: seq<Byte>, q: nat)
    requires q < |c| && (c[q] == COMMA || c[q] == CLOSE_ARRAY || c[q] == CLOSE_OBJECT || c[q] == NEWLINE)
    ensures Closed(c, q)
  {
  }

  lemma SkipOne(c: seq<Byte>, q: nat)
    requires q < |c| && c[q] > 32
    ensures Skip(c, q) == q
  {
  }

  function Indent(fmt: bool, d: nat): seq<Byte> { if fmt then Tabs(d) else [] }

  function Break(fmt: bool): seq<Byte> { if fmt then [NEWLINE] else [] }

  // What remains of the object once i members are written.
  function Rest<N>(v: Value<N>, i: nat, fmt: bool, d: nat, render: N -> seq<Byte>): seq<Byte>
    requires v.Object? && i <= |v.members|
  {
    Members(v, i, fmt, d + 1, render) + Indent(fmt, d) + [CLOSE_OBJECT]
  }

  // The same from the quote of the next name on.
  function FromName<N>(v: Value<N>, i: nat, fmt: bool, d: nat, render: N -> seq<Byte>): seq<Byte>
    requires v.Object? && i < |v.members|
  {
    StringText(v.members[i].name)
    + ([COLON] + ((if fmt then [TAB] else [])
                  + (Text(v.members[i].value, fmt, d + 1, render)
                     + (MemberEnd(i + 1 == |v.members|, fmt) + Rest(v, i + 1, fmt, d, render)))))
  }

  lemma MembersStep<N>(v: Value<N>, i: nat, fmt: bool, d: nat, render: N -> seq<Byte>)
    requires v.Object? && i < |v.members|
    ensures Members(v, i, fmt, d, render) == (Indent(fmt, d) + StringText(v.members[i].name)
      + ([COLON] + if fmt then [TAB] else []))
      + Text(v.members[i].value, fmt, d, render) + MemberEnd(i + 1 == |v.members|, fmt)
        + Members(v, i + 1, fmt, d, render)
  {
    assert [COLON] + [] == [COLON] && [COLON] + [TAB] == [COLON, TAB];
    hide Text, StringText, MemberEnd;
  }

  lemma Flatten(ind: seq<Byte>, s: seq<Byte>, col: seq<Byte>, tab: seq<Byte>, b: seq<Byte>, e: seq<Byte>, r: seq<Byte>,
                x: seq<Byte>, z: seq<Byte>)
    ensures ((ind + s + (col + tab)) + b + e + r) + x + z == ind + (s + (col + (tab + (b + (e + (r + x + z))))))
  {
    var i1, i2 := (ind + s + (col + tab)) + b, ind + (s + (col + (tab + b)));
    assert i1 == i2;
    var y := e + (r + x + z);
    assert (i1 + e + r) + x + z == i1 + y;
    assert i2 + y == ind + (s + (col + (tab + (b + y))));
  }

  lemma MembersFrom<N>(v: Value<N>, i: nat, fmt: bool, d: nat, render: N -> seq<Byte>)
    requires v.Object? && i < |v.members|
    ensures Rest(v, i, fmt, d, render) == Indent(fmt, d + 1) + FromName(v, i, fmt, d, render)
    ensures FromName(v, i, fmt, d, render) != [] && FromName(v, i, fmt, d, render)[0] == QUOTE
  {
    NameFirst(v, i, fmt, d, render);
    MembersStep(v, i, fmt, d + 1, render);
    RestIs(v, i, fmt, d, render);
    RestIs(v, i + 1, fmt, d, render);
    FromNameIs(v, i, fmt, d, render);
    hide Text, Members, StringText, MemberEnd, Indent, Rest, FromName;
    Flatten(Indent(fmt, d + 1), StringText(v.members[i].name), [COLON], if fmt then [TAB] else [],
      Text(v.members[i].value, fmt, d + 1, render), MemberEnd(i + 1 == |v.members|, fmt),
      Members(v, i + 1, fmt, d + 1, render), Indent(fmt, d), [CLOSE_OBJECT]);
  }

  lemma RestIs<N>(v: Value<N>, i: nat, fmt: bool, d: nat, render: N -> seq<Byte>)
    requires v.Object? && i <= |v.members|
    ensures Rest(v, i, fmt, d, render) == Members(v, i, fmt, d + 1, render) + Indent(fmt, d) + [CLOSE_OBJECT]
  {
    hide Members, Indent;
  }

  lemma FromNameIs<N>(v: Value<N>, i: nat, fmt: bool, d: nat, render: N -> seq<Byte>)
    requires v.Object? && i < |v.members|
    ensures FromName(v, i, fmt, d, render) == StringText(v.members[i].name)
      + ([COLON] + ((if fmt then [TAB] else [])
                    + (Text(v.members[i].value, fmt, d + 1, render)
                       + (MemberEnd(i + 1 == |v.members|, fmt) + Rest(v, i + 1, fmt, d, render)))))
  {
    hide Text, StringText, Rest, MemberEnd;
  }

  lemma NameFirst<N>(v: Value<N>, i: nat, fmt: bool, d: nat, render: N -> seq<Byte>)
    requires v.Object? && i < |v.members|
    ensures FromName(v, i, fmt, d, render) != [] && FromName(v, i, fmt, d, render)[0] == QUOTE
  {
    QuoteFirst(v.members[i].name);
    hide Text, StringText, Rest, MemberEnd;
  }

  lemma QuoteFirst(s: seq<Byte>)
    ensures StringText(s) != [] && StringText(s)[0] == QUOTE
  {
  }

  lemma ObjectLayout<N>(v: Value<N>, fmt: bool, d: nat, render: N -> seq<Byte>)
    requires v.Object?
    ensures Text(v, fmt, d, render) == [OPEN_OBJECT] + (Break(fmt) + Rest(v, 0, fmt, d, render))
    ensures v.members == [] ==> Object([]) == v
  {
    hide Members;
    var e, x, z := Members(v, 0, fmt, d + 1, render), Indent(fmt, d), [CLOSE_OBJECT];
    assert [OPEN_OBJECT] + Break(fmt) + e + x + z == [OPEN_OBJECT] + (Break(fmt) + (e + x + z));
  }

  // After the last member: blanks, and the end of the object.
  lemma LastRest<N>(v: Value<N>, fmt: bool, d: nat, render: N -> seq<Byte>)
    requires v.Object?
    ensures Break(fmt) + Rest(v, |v.members|, fmt, d, render) == (Break(fmt) + Indent(fmt, d)) + [CLOSE_OBJECT]
    ensures MemberEnd(true, fmt) == Break(fmt) && Blank(Break(fmt) + Indent(fmt, d))
    ensures MemberEnd(false, fmt) == [COMMA] + Break(fmt) && Blank(Break(fmt) + Indent(fmt, d + 1))
  {
  }

  lemma {:induction false} ObjectBack<N(!new)>(v: Value<N>, fmt: bool, d: nat, render: N -> seq<Byte>,
                                               read: seq<Byte> -> Reading<N>, c: seq<Byte>, off: nat, depth: nat)
    requires v.Object? && Terminated(c) && ReadsPrefix(read) && Clean(v, render) && Faithful(v, render, read)
    requires At(c, off, Text(v, fmt, d, render)) && depth + Nesting(v) <= NESTING_LIMIT
    requires off < |c| && c[off] == OPEN_OBJECT
    ensures PObject(c, off, depth, read) == Done(v, off + |Text(v, fmt, d, render)|)
    decreases v, Children(v) + 1, 0
  {
    hide Text, Elements, Members, At, Skip, PValue, PElements, PArray, PObject, PMembers, PString, Clean, Faithful,
         Nesting, NestingOf, ReadsPrefix, Terminated, Blank, Closed, StringText, FromName, Rest, Indent, Break,
           Printable;
    ObjectLayout(v, fmt, d, render);
    NestedOne(v);
    if v.members == [] {
      EmptyBack(v, fmt, d, render, read, c, off, depth);
    } else {
      FirstPlaced(v, fmt, d, render, c, off);
      var f, q := FromName(v, 0, fmt, d, render), Skip(c, off + 1);
      assert v.members[..0] == [];
      MembersBack(v, 0, fmt, d, render, read, c, q - 1, q, depth + 1);
      PObjectStep(c, off, depth, read, q, v.members, q + |f|);
    }
  }

  // Where the first name lies.
  lemma FirstPlaced<N(!new)>(v: Value<N>, fmt: bool, d: nat, render: N -> seq<Byte>, c: seq<Byte>, off: nat)
    requires v.Object? && v.members != [] && At(c, off, Text(v, fmt, d, render)) && off < |c|
    ensures var f, q := FromName(v, 0, fmt, d, render), Skip(c, off + 1);
      && off + 1 < |c| && off < q && At(c, q, f) && c[q] != CLOSE_OBJECT && Skip(c, q) == q
      && q + |f| == off + |Text(v, fmt, d, render)|
  {
    hide Text, Elements, Members, At, Skip, Blank, StringText, FromName, Rest, Indent, Break;
    var f, w := FromName(v, 0, fmt, d, render), Break(fmt) + Indent(fmt, d + 1);
    ObjectLayout(v, fmt, d, render);
    LastRest(v, fmt, d, render);
    MembersFrom(v, 0, fmt, d, render);
    assert Break(fmt) + Rest(v, 0, fmt, d, render) == w + f;
    AtParts(c, off, [OPEN_OBJECT], w + f);
    SkipOver(c, off + 1, w, f);
    AtByte(c, off + 1 + |w|, f, 0);
    SkipOne(c, off + 1 + |w|);
    SkipsForward(c, off + 1);
  }

  lemma SkipsForward(c: seq<Byte>, p: nat)
    requires p < |c|
    ensures p <= Skip(c, p)
  {
  }

  lemma EmptyBack<N(!new)>(v: Value<N>, fmt: bool, d: nat, render: N -> seq<Byte>, read: seq<Byte> -> Reading<N>,
                           c: seq<Byte>, off: nat, depth: nat)
    requires v.Object? && v.members == [] && Terminated(c) && ReadsPrefix(read)
    requires At(c, off, Text(v, fmt, d, render)) && depth < NESTING_LIMIT && off < |c| && c[off] == OPEN_OBJECT
    ensures PObject(c, off, depth, read) == Done(v, off + |Text(v, fmt, d, render)|)
  {
    hide Text, Elements, Members, At, Skip, PValue, PObject, PMembers, ReadsPrefix, Terminated, Blank, Rest, Indent,
      Break;
    var w := Break(fmt) + Indent(fmt, d);
    ObjectLayout(v, fmt, d, render);
    LastRest(v, fmt, d, render);
    AtParts(c, off, [OPEN_OBJECT], w + [CLOSE_OBJECT]);
    SkipOver(c, off + 1, w, [CLOSE_OBJECT]);
    AtByte(c, off + 1 + |w|, [CLOSE_OBJECT], 0);
    PObjectStep(c, off, depth, read, off + 1 + |w|, [], 0);
  }

  lemma PObjectStep<N(!new)>(c: seq<Byte>, off: nat, depth: nat, read: seq<Byte> -> Reading<N>, o: nat,
                             members: seq<Member<N>>, p: nat)
    requires Terminated(c) && off + 1 < |c| && ReadsPrefix(read) && c[off] == OPEN_OBJECT && depth < NESTING_LIMIT
    requires o == Skip(c, off + 1)
    ensures c[o] == CLOSE_OBJECT ==> PObject(c, off, depth, read) == Done(Object([]), o + 1)
    ensures o > off && (c[o] != CLOSE_OBJECT && PMembers(c, o - 1, depth + 1, [], read) == Done(members, p) ==>
      PObject(c, off, depth, read) == Done(Object(members), p))
  {
  }

  lemma PMembersStep<N(!new)>(c: seq<Byte>, off: nat, depth: nat, members: seq<Member<N>>,
                             read: seq<Byte> -> Reading<N>, m: Member<N>, z: nat)
    requires Terminated(c) && off + 1 < |c| && ReadsPrefix(read)
    requires PMember(c, Skip(c, off + 1), depth, read) == Done(m, z)
    ensures var q, more := Skip(c, z), members + [m];
      && (c[q] == COMMA ==> q + 1 < |c| && PMembers(c, off, depth, members, read) == PMembers(c, q, depth, more, read))
      && (c[q] == CLOSE_OBJECT ==> PMembers(c, off, depth, members, read) == Done(more, q + 1))
  {
    hide PMember;
  }

  lemma MemberFacts<N(!new)>(v: Value<N>, i: nat, render: N -> seq<Byte>, read: seq<Byte> -> Reading<N>)
    requires v.Object? && i < |v.members| && Clean(v, render) && Faithful(v, render, read)
    ensures v.members[i].value < v && Clean(v.members[i].value, render) && Faithful(v.members[i].value, render, read)
    ensures Printable(v.members[i].name)
    ensures Nesting(v.members[i].value) <= NestingOf(v, i) && NestingOf(v, i + 1) <= NestingOf(v, i)
  {
  }

  // Where the parts of a member lie, if something that ends it follows.
  lemma MemberPlaced<N(!new)>(m: Member<N>, fmt: bool, d: nat, render: N -> seq<Byte>, c: seq<Byte>, q: nat,
                              after: seq<Byte>)
    requires Terminated(c) && Printable(m.name) && Clean(m.value, render)
    requires At(c, q, StringText(m.name) + ([COLON]
      + ((if fmt then [TAB] else []) + (Text(m.value, fmt, d, render) + after))))
    requires after != [] && (after[0] == COMMA || after[0] == CLOSE_OBJECT || after[0] == NEWLINE)
    ensures var k, z := q + |StringText(m.name)|, MemberStop(m, fmt, d, render, q);
      && k + 1 < |c| && PString(c, q) == Done(m.name, k) && Skip(c, k) == k && c[k] == COLON
      && At(c, Skip(c, k + 1), Text(m.value, fmt, d, render)) && Skip(c, k + 1) + |Text(m.value, fmt, d, render)| == z
      && At(c, z, after) && Closed(c, z)
  {
    hide Text, Elements, Members, At, Skip, PString, Clean, Terminated, Blank, Closed, StringText, Rest, MemberEnd,
         Indent, Break, Printable, MemberStop;
    var s, tab, t := StringText(m.name), if fmt then [TAB] else [], Text(m.value, fmt, d, render);
    var k := q + |s|;
    NamePlaced(c, q, m.name, tab + (t + after));
    FirstByte(m.value, fmt, d, render);
    BlankNothing();
    SkipOver(c, k + 1, tab, t + after);
    var p := k + 1 + |tab|;
    AtParts(c, p, t, after);
    AtByte(c, p + |t|, after, 0);
    IsClosed(c, p + |t|);
    MemberStopIs(m, fmt, d, render, q);
  }

  lemma NamePlaced(c: seq<Byte>, q: nat, name: seq<Byte>, after: seq<Byte>)
    requires Terminated(c) && Printable(name) && At(c, q, StringText(name) + ([COLON] + after)) && after != []
    ensures var k := q + |StringText(name)|;
      && k + 1 < |c| && PString(c, q) == Done(name, k) && Skip(c, k) == k && c[k] == COLON && At(c, k + 1, after)
  {
    hide At, Skip, PString, StringText, Printable;
    var s := StringText(name);
    var k := q + |s|;
    AtParts(c, q, s, [COLON] + after);
    StringBack(c, q, name);
    AtByte(c, k, [COLON] + after, 0);
    SkipOne(c, k);
    AtParts(c, k, [COLON], after);
    AtByte(c, k + 1, after, 0);
  }

  // One member, and then something that ends it.
  lemma {:induction false} MemberBack<N(!new)>(m: Member<N>, fmt: bool, d: nat, render: N -> seq<Byte>,
                                               read: seq<Byte> -> Reading<N>, c: seq<Byte>, q: nat, depth: nat,
                                               after: seq<Byte>)
    requires Terminated(c) && ReadsPrefix(read) && Printable(m.name)
    requires Clean(m.value, render) && Faithful(m.value, render, read) && depth + Nesting(m.value) <= NESTING_LIMIT
    requires At(c, q, StringText(m.name) + ([COLON]
      + ((if fmt then [TAB] else []) + (Text(m.value, fmt, d, render) + after))))
    requires after != [] && (after[0] == COMMA || after[0] == CLOSE_OBJECT || after[0] == NEWLINE)
    ensures q < |c| && At(c, MemberStop(m, fmt, d, render, q), after)
    ensures PMember(c, q, depth, read) == Done(m, MemberStop(m, fmt, d, render, q))
    decreases m.value, Children(m.value) + 2
  {
    hide Text, Elements, Members, At, Skip, PValue, PElements, PArray, PObject, PMember, PMembers, PString, Clean,
         Faithful, Nesting, NestingOf, ReadsPrefix, Terminated, Blank, Closed, StringText, Rest, MemberEnd, Indent,
         Break, Printable, MemberStop;
    MemberPlaced(m, fmt, d, render, c, q, after);
    var k := q + |StringText(m.name)|;
    ValueBack(m.value, fmt, d, render, read, c, Skip(c, k + 1), depth);
    MemberRead(c, q, depth, read, m, k, MemberStop(m, fmt, d, render, q));
  }

  // Where the member that begins at q ends.
  function MemberStop<N>(m: Member<N>, fmt: bool, d: nat, render: N -> seq<Byte>, q: nat): nat {
    q + |StringText(m.name)| + 1 + (if fmt then 1 else 0) + |Text(m.value, fmt, d, render)|
  }

  lemma MemberStopIs<N>(m: Member<N>, fmt: bool, d: nat, render: N -> seq<Byte>, q: nat)
    ensures MemberStop(m, fmt, d, render, q)
      == q + |StringText(m.name)| + 1 + (if fmt then 1 else 0) + |Text(m.value, fmt, d, render)|
  {
  }

  lemma MemberRead<N(!new)>(c: seq<Byte>, q: nat, depth: nat, read: seq<Byte> -> Reading<N>, m: Member<N>, k: nat,
                     z: nat)
    requires Terminated(c) && ReadsPrefix(read) && q < |c| && PString(c, q) == Done(m.name, k)
    requires Skip(c, k) == k && c[k] == COLON && k + 1 < |c|
      && PValue(c, Skip(c, k + 1), depth, read) == Done(m.value, z)
    ensures PMember(c, q, depth, read) == Done(m, z)
  {
    hide PString, PValue, Skip;
  }

  lemma {:induction false} MembersBack<N(!new)>(v: Value<N>, i: nat, fmt: bool, d: nat, render: N -> seq<Byte>,
                                                read: seq<Byte> -> Reading<N>, c: seq<Byte>, off: nat, q: nat,
                                                depth: nat)
    requires v.Object? && i < |v.members| && Terminated(c) && ReadsPrefix(read)
    requires Clean(v, render) && Faithful(v, render, read)
    requires off + 1 < |c| && Skip(c, off + 1) == q && At(c, q, FromName(v, i, fmt, d, render))
    requires depth + NestingOf(v, i) <= NESTING_LIMIT
    ensures PMembers(c, off, depth, v.members[..i], read) == Done(v.members, q + |FromName(v, i, fmt, d, render)|)
    decreases v, |v.members| - i
  {
    hide Text, Elements, Members, At, Skip, PValue, PElements, PArray, PObject, PMember, PMembers, PString, Clean,
         Faithful, Nesting, NestingOf, ReadsPrefix, Terminated, Blank, Closed, StringText, Rest, MemberEnd, Indent,
         Break, Printable;
    var last, m := i + 1 == |v.members|, v.members[i];
    var after := MemberEnd(last, fmt) + Rest(v, i + 1, fmt, d, render);
    MemberFacts(v, i, render, read);
    LastRest(v, fmt, d, render);
    assert v.members[..i] + [m] == v.members[..i + 1];
    var z := MemberStop(m, fmt, d + 1, render, q);
    if last {
      var w := Break(fmt) + Indent(fmt, d);
      EndByte(fmt, d);
      MemberBack(m, fmt, d + 1, render, read, c, q, depth, after);
      AfterLast(c, z, fmt, d);
      PMembersStep(c, off, depth, v.members[..i], read, m, z);
      assert v.members[..i + 1] == v.members && after == w + [CLOSE_OBJECT];
    } else {
      var w, f := Break(fmt) + Indent(fmt, d + 1), FromName(v, i + 1, fmt, d, render);
      MembersFrom(v, i + 1, fmt, d, render);
      CommaNext([COMMA], Break(fmt), Indent(fmt, d + 1), f);
      MemberBack(m, fmt, d + 1, render, read, c, q, depth, after);
      AtByte(c, z, after, 0);
      SkipOne(c, z);
      PMembersStep(c, off, depth, v.members[..i], read, m, z);
      AtParts(c, z, [COMMA], w + f);
      QuoteFirst(v.members[i + 1].name);
      SkipOver(c, z + 1, w, f);
      MembersBack(v, i + 1, fmt, d, render, read, c, z, z + 1 + |w|, depth);
    }
  }

  lemma CommaNext(a: seq<Byte>, b: seq<Byte>, i: seq<Byte>, f: seq<Byte>)
    ensures (a + b) + (i + f) == a + ((b + i) + f)
  {
  }

  lemma EndByte(fmt: bool, d: nat)
    ensures var e := (Break(fmt) + Indent(fmt, d)) + [CLOSE_OBJECT]; e[0] == NEWLINE || e[0] == CLOSE_OBJECT
  {
  }

  lemma AfterLast(c: seq<Byte>, z: nat, fmt: bool, d: nat)
    requires At(c, z, (Break(fmt) + Indent(fmt, d)) + [CLOSE_OBJECT])
    ensures Closed(c, z) && Skip(c, z) == z + |Break(fmt) + Indent(fmt, d)| && c[Skip(c, z)] == CLOSE_OBJECT
  {
    var w := Break(fmt) + Indent(fmt, d);
    AtByte(c, z, w + [CLOSE_OBJECT], 0);
    SkipOver(c, z, w, [CLOSE_OBJECT]);
    AtByte(c, z + |w|, [CLOSE_OBJECT], 0);
  }

  // ------------------------------------------------------------------ the round trip

  // Parsing the text of a value gives that value, whichever way it was formatted, and uses the whole text.
  lemma RoundTrip<N(!new)>(v: Value<N>, fmt: bool, render: N -> seq<Byte>, read: seq<Byte> -> Reading<N>)
    requires ReadsPrefix(read) && Clean(v, render) && Faithful(v, render, read) && Nesting(v) <= NESTING_LIMIT
    ensures Parse(Text(v, fmt, 0, render), true, read) == Done(v, |Text(v, fmt, 0, render)|)
  {
    var s := Text(v, fmt, 0, render);
    var c := s + [0];
    FirstByte(v, fmt, 0, render);
    hide Text, PValue, Clean, Faithful, Nesting;
    assert c[0] == s[0] && c[|s|] == 0 && |c| == |s| + 1;
    assert c[0..|s|] == s;
    BomFirst(c);
    SkipOne(c, 0);
    ValueBack(v, fmt, 0, render, read, c, 0, 0);
    assert Skip(c, |s|) == |s|;
  }

  lemma BomFirst(c: seq<Byte>)
    requires |c| >= 1
    ensures SkipBom(c) == 0 || c[0] == 0xEF
  {
    if 4 < |c| {
      assert c[0] == c[..3][0];
    }
  }

  // ------------------------------------------------------------------ whole numbers

  function Pow10(k: nat): nat { if k == 0 then 1 else 10 * Pow10(k - 1) }

  function Digits(n: nat): seq<Byte> { if n < 10 then [48 + n] else Digits(n / 10) + [48 + n % 10] }

  // What "%1.15g" makes of a whole number below 10^15 in magnitude.
  function IntText(n: int): seq<Byte> { if n < 0 then [45] + Digits(-n) else Digits(n) }

  // The value of the digits at the start of s, and how many there are.
  function ReadDigits(s: seq<Byte>, i: nat, acc: nat): (nat, nat)
    requires i <= |s|
    decreases |s| - i
  {
    if i < |s| && IsDigit(s[i]) then ReadDigits(s, i + 1, acc * 10 + (s[i] - 48)) else (acc, i)
  }

  // strtod on the decimal notation of a whole number.
  function ReadInt(s: seq<Byte>): Reading<int> {
    var start := if s != [] && s[0] == 45 then 1 else 0;
    var (n, end) := ReadDigits(s, start, 0);
    if start < end <= |s| then Read(if start == 1 then 0 - n else n, end) else NoNumber
  }

  lemma ReadIntPrefix()
    ensures ReadsPrefix(ReadInt)
  {
  }

  lemma {:induction false} DigitsAre(n: nat, k: nat)
    requires n < Pow10(k) && k >= 1
    ensures 1 <= |Digits(n)| <= k && forall i :: 0 <= i < |Digits(n)| ==> IsDigit(Digits(n)[i])
    decreases k
  {
    assert Pow10(1) == 10 * Pow10(0);
    if n >= 10 {
      DigitsAre(n / 10, k - 1);
    }
  }

  lemma {:induction false} ReadBack(n: nat, s: seq<Byte>, i: nat)
    requires i + |Digits(n)| <= |s| && s[i..i + |Digits(n)|] == Digits(n)
    ensures ReadDigits(s, i, 0) == ReadDigits(s, i + |Digits(n)|, n)
    decreases n
  {
    var t := Digits(n);
    if n < 10 {
      assert s[i] == s[i..i + 1][0];
    } else {
      var u := Digits(n / 10);
      assert s[i..i + |u|] == s[i..i + |t|][..|u|] == u;
      assert s[i + |u|] == s[i..i + |t|][|u|];
      ReadBack(n / 10, s, i);
    }
  }

  lemma IntBack(n: int)
    requires 0 - Pow10(15) < n < Pow10(15)
    ensures NumberText(IntText(n)) && ReadInt(IntText(n)) == Read(n, |IntText(n)|)
  {
    hide Pow10, Digits;
    var m, t := if n < 0 then -n else n, IntText(n);
    DigitsAre(m, 15);
    var start := if n < 0 then 1 else 0;
    assert t[start..start + |Digits(m)|] == Digits(m);
    ReadBack(m, t, start);
  }

  ghost predicate SmallInts(v: Value<int>)
    decreases v
  {
    match v
    case Number(n) => 0 - Pow10(15) < n < Pow10(15)
    case Array(items) => forall i :: 0 <= i < |items| ==> SmallInts(items[i])
    case Object(members) => forall i :: 0 <= i < |members| ==> SmallInts(members[i].value)
    case _ => true
  }

  ghost predicate CleanStrings<N>(v: Value<N>)
    decreases v
  {
    match v
    case String(s) => Printable(s)
    case Array(items) => forall i :: 0 <= i < |items| ==> CleanStrings(items[i])
    case Object(members) =>
      forall i :: 0 <= i < |members| ==> Printable(members[i].name) && CleanStrings(members[i].value)
    case _ => true
  }

  lemma {:induction false} SmallIntsAreFine(v: Value<int>)
    requires SmallInts(v) && CleanStrings(v)
    ensures Clean(v, IntText) && Faithful(v, IntText, ReadInt)
    decreases v
  {
    match v
    case Number(n) =>
      IntBack(n);
    case Array(items) =>
      forall i | 0 <= i < |items|
        ensures Clean(items[i], IntText) && Faithful(items[i], IntText, ReadInt)
      {
        SmallIntsAreFine(items[i]);
      }
    case Object(members) =>
      forall i | 0 <= i < |members|
        ensures Clean(members[i].value, IntText) && Faithful(members[i].value, IntText, ReadInt)
      {
        SmallIntsAreFine(members[i].value);
      }
    case _ =>
  }

  // Trees of strings without NUL and whole numbers below 10^15 in magnitude.
  lemma IntRoundTrip(v: Value<int>, fmt: bool)
    requires SmallInts(v) && CleanStrings(v) && Nesting(v) <= NESTING_LIMIT
    ensures Parse(Text(v, fmt, 0, IntText), true, ReadInt) == Done(v, |Text(v, fmt, 0, IntText)|)
  {
    ReadIntPrefix();
    SmallIntsAreFine(v);
    RoundTrip(v, fmt, IntText, ReadInt);
  }

  // ------------------------------------------------------------------ the layout

  const A: Byte := 97
  const B: Byte := 98

  // [true,null] and {"a":[true,null],"b":{}}
  function Pair<N>(): Value<N> { Array([True, Null]) }

  function Sample<N>(): Value<N> { Object([Member([A], Pair()), Member([B], Object([]))]) }

  lemma PairText<N>(fmt: bool, d: nat, render: N -> seq<Byte>)
    ensures Text(Pair(), fmt, d, render) ==
      [OPEN_ARRAY] + (TRUE_TEXT + ((if fmt then [COMMA, SPACE] else [COMMA]) + (NULL_TEXT + [CLOSE_ARRAY])))
  {
    var v: Value<N> := Pair();
    ArrayLayout(v, fmt, d, render);
    ElementsStep(v, 0, fmt, d + 1, render);
    ElementsStep(v, 1, fmt, d + 1, render);
    WordTexts(fmt, d + 1, render);
    hide Elements, Text;
    assert [COMMA] + [] == [COMMA] && [COMMA] + [SPACE] == [COMMA, SPACE];
    var gap := if fmt then [COMMA, SPACE] else [COMMA];
    assert NULL_TEXT + [] + [] == NULL_TEXT;
    assert (TRUE_TEXT + gap + NULL_TEXT) + [CLOSE_ARRAY] == TRUE_TEXT + (gap + (NULL_TEXT + [CLOSE_ARRAY]));
  }

  lemma WordTexts<N>(fmt: bool, d: nat, render: N -> seq<Byte>)
    ensures Text(True, fmt, d, render) == TRUE_TEXT && Text(Null, fmt, d, render) == NULL_TEXT
  {
  }

  lemma EmptyText<N>(fmt: bool, d: nat, render: N -> seq<Byte>)
    ensures Text(Object([]), fmt, d, render) ==
      [OPEN_OBJECT] + ((if fmt then [NEWLINE] + Tabs(d) else []) + [CLOSE_OBJECT])
  {
    var v: Value<N> := Object([]);
    assert Members(v, 0, fmt, d + 1, render) == [];
  }

  lemma Names()
    ensures StringText([A]) == [QUOTE, A, QUOTE] && StringText([B]) == [QUOTE, B, QUOTE]
  {
    assert EscapedAll([A]) == [A] && EscapedAll([B]) == [B];
  }

  // Where line breaks, tabs and blanks stand in a formatted text, and that there are none in an unformatted one.
  lemma SampleText<N>(fmt: bool, render: N -> seq<Byte>)
    ensures var line, tab := if fmt then [NEWLINE] else [], if fmt then [TAB] else [];
      var colon, gap := if fmt then [COLON, TAB] else [COLON], if fmt then [COMMA, SPACE] else [COMMA];
      Text(Sample(), fmt, 0, render) ==
        [OPEN_OBJECT] + (line
          + ((tab + [QUOTE, A, QUOTE] + colon)
             + ([OPEN_ARRAY] + (TRUE_TEXT + (gap + (NULL_TEXT + [CLOSE_ARRAY])))) + ([COMMA] + line)
             + ((tab + [QUOTE, B, QUOTE] + colon) + ([OPEN_OBJECT] + ((line + tab) + [CLOSE_OBJECT])) + line + [])
             + [] + [CLOSE_OBJECT]))
  {
    var v: Value<N> := Sample();
    Names();
    PairText(fmt, 1, render);
    EmptyText(fmt, 1, render);
    LastRest(v, fmt, 0, render);
    assert Members(v, 2, fmt, 1, render) == [];
    assert Tabs(1) == [TAB] && Tabs(0) == [] && [COLON] + [] == [COLON] && [COLON] + [TAB] == [COLON, TAB];
    hide Text, Members, StringText, MemberEnd;
    ObjectLayout(v, fmt, 0, render);
    RestIs(v, 0, fmt, 0, render);
    MembersStep(v, 0, fmt, 1, render);
    MembersStep(v, 1, fmt, 1, render);
  }
}
