// Texts that spell a value by the grammar of RFC 8259, and what the parser makes of them.
module JsonGrammar {
  import opened Common
  import opened Octets
  import opened JsonText
  import opened JsonParse
  import opened JsonRoundTrip
  import opened JsonUnicode

  // ------------------------------------------------------------------ strings

  // A piece of a string (section 7): a byte as it is, an escape of two characters, or the code point of one or two
  // \u sequences.
  datatype Unit = Plain(b: Byte) | Short(e: Byte) | Coded(n: nat, upper: Cases, low: Cases)

  function Escape(e: Byte): Option<Byte> {
    if e == QUOTE || e == BACKSLASH || e == SLASH then Some(e)
    else if e == 98 then Some(8)
    else if e == 102 then Some(12)
    else if e == 110 then Some(10)
    else if e == 114 then Some(13)
    else if e == 116 then Some(9)
    else None
  }

  predicate UnitFormed(u: Unit) {
    match u
    case Plain(b) => b != QUOTE && b != BACKSLASH
    case Short(e) => Escape(e).Some?
    case Coded(n, _, _) => Scalar(n)
  }

  function UnitText(u: Unit): (t: seq<Byte>)
    requires UnitFormed(u)
  {
    match u
    case Plain(b) => [b]
    case Short(e) => [BACKSLASH, e]
    case Coded(n, upper, low) => Utf16Text(n, upper, low)
  }

  function UnitBytes(u: Unit): seq<Byte>
    requires UnitFormed(u)
  {
    match u
    case Plain(b) => [b]
    case Short(e) => [Escape(e).value]
    case Coded(n, _, _) => Utf8(n)
  }

  predicate UnitsFormed(s: seq<Unit>) { forall i :: 0 <= i < |s| ==> UnitFormed(s[i]) }

  function UnitsText(s: seq<Unit>): seq<Byte>
    requires UnitsFormed(s)
  {
    if s == [] then [] else UnitText(s[0]) + UnitsText(s[1..])
  }

  function UnitsBytes(s: seq<Unit>): seq<Byte>
    requires UnitsFormed(s)
  {
    if s == [] then [] else UnitBytes(s[0]) + UnitsBytes(s[1..])
  }

  function Quoted(s: seq<Unit>): seq<Byte>
    requires UnitsFormed(s)
  {
    [QUOTE] + (UnitsText(s) + [QUOTE])
  }

  // ------------------------------------------------------------------ values

  // How a value is spelled: its parts, with the blanks between them (sections 2 to 6). A number is spelled by a text
  // and stands for n.
  datatype Spelling<N> =
    | SNull
    | SFalse
    | STrue
    | SNumber(t: seq<Byte>, n: N)
    | SString(s: seq<Unit>)
    | SArray(gap: seq<Byte>, items: seq<SItem<N>>)
    | SObject(gap: seq<Byte>, members: seq<SMember<N>>)

  datatype SItem<N> = SItem(before: seq<Byte>, value: Spelling<N>, after: seq<Byte>)

  datatype SMember<N> = SMember(before: seq<Byte>, name: seq<Unit>, colon: seq<Byte>, gap: seq<Byte>,
                                value: Spelling<N>, after: seq<Byte>)

  // Number characters, the first a digit or a minus sign, that are all read as the number. More than 63 are not
  // collected.
  ghost predicate NumberFormed<N(!new)>(t: seq<Byte>, n: N, read: seq<Byte> -> Reading<N>) {
    && 1 <= |t| <= 63 && (IsDigit(t[0]) || t[0] == 45) && (forall i :: 0 <= i < |t| ==> NumberByte(t[i]))
    && read(t) == Read(n, |t|)
  }

  ghost predicate Formed<N(!new)>(t: Spelling<N>, read: seq<Byte> -> Reading<N>)
    decreases t
  {
    match t
    case SNumber(text, n) => NumberFormed(text, n, read)
    case SString(s) => UnitsFormed(s)
    case SArray(gap, items) =>
      Blank(gap) && forall i :: 0 <= i < |items| ==>
        Blank(items[i].before) && Formed(items[i].value, read) && Blank(items[i].after)
    case SObject(gap, members) =>
      Blank(gap) && forall i :: 0 <= i < |members| ==>
        && Blank(members[i].before) && UnitsFormed(members[i].name) && Blank(members[i].colon)
        && Blank(members[i].gap) && Formed(members[i].value, read) && Blank(members[i].after)
    case _ => true
  }

  // The value that is spelled.
  ghost function Meaning<N(!new)>(t: Spelling<N>, read: seq<Byte> -> Reading<N>): Value<N>
    requires Formed(t, read)
    decreases t
  {
    match t
    case SNull => Null
    case SFalse => False
    case STrue => True
    case SNumber(_, n) => Number(n)
    case SString(s) => String(UnitsBytes(s))
    case SArray(_, items) => Array(seq(|items|, i requires 0 <= i < |items| => Meaning(items[i].value, read)))
    case SObject(_, members) =>
      Object(seq(|members|, i requires 0 <= i < |members| =>
        Member(UnitsBytes(members[i].name), Meaning(members[i].value, read))))
  }

  ghost function Parts<N>(t: Spelling<N>): nat {
    match t
    case SArray(_, items) => |items|
    case SObject(_, members) => |members|
    case _ => 0
  }

  // The text that spells it.
  ghost function TextOf<N(!new)>(t: Spelling<N>, read: seq<Byte> -> Reading<N>): (s: seq<Byte>)
    requires Formed(t, read)
    ensures s != [] && 32 < s[0] < 0xEF && s[0] != CLOSE_ARRAY && s[0] != CLOSE_OBJECT
    decreases t, Parts(t) + 1
  {
    match t
    case SNull => NULL_TEXT
    case SFalse => FALSE_TEXT
    case STrue => TRUE_TEXT
    case SNumber(text, _) => text
    case SString(s) => Quoted(s)
    case SArray(gap, items) =>
      [OPEN_ARRAY] + if items == [] then gap + [CLOSE_ARRAY] else items[0].before + FromItem(t, 0, read)
    case SObject(gap, members) =>
      [OPEN_OBJECT] + if members == [] then gap + [CLOSE_OBJECT] else members[0].before + FromMember(t, 0, read)
  }

  // From the value of element i to the closing bracket.
  ghost function FromItem<N(!new)>(t: Spelling<N>, i: nat, read: seq<Byte> -> Reading<N>): (s: seq<Byte>)
    requires Formed(t, read) && t.SArray? && i < |t.items|
    ensures s != [] && s[0] > 32 && s[0] != CLOSE_ARRAY
    decreases t, |t.items| - i
  {
    TextOf(t.items[i].value, read) + (t.items[i].after
      + if i + 1 < |t.items| then [COMMA] + (t.items[i + 1].before + FromItem(t, i + 1, read)) else [CLOSE_ARRAY])
  }

  // From the name of member i to the closing bracket.
  ghost function FromMember<N(!new)>(t: Spelling<N>, i: nat, read: seq<Byte> -> Reading<N>): (s: seq<Byte>)
    requires Formed(t, read) && t.SObject? && i < |t.members|
    ensures s != [] && s[0] > 32 && s[0] != CLOSE_OBJECT
    decreases t, |t.members| - i
  {
    var m := t.members[i];
    Quoted(m.name) + (m.colon + ([COLON] + (m.gap + (TextOf(m.value, read) + (m.after
      + if i + 1 < |t.members| then [COMMA] + (t.members[i + 1].before + FromMember(t, i + 1, read))
        else [CLOSE_OBJECT])))))
  }

  // ------------------------------------------------------------------ strings are read

  lemma EndAfterUnit(c: seq<Byte>, p: nat, u: Unit)
    requires UnitFormed(u) && At(c, p, UnitText(u))
    ensures StringEnd(c, p) == StringEnd(c, p + |UnitText(u)|)
  {
    hide Utf16Text, Unit16, Scalar;
    var t := UnitText(u);
    match u
    case Plain(_) =>
      AtByte(c, p, t, 0);
    case Short(_) =>
      AtByte(c, p, t, 0);
      AtByte(c, p, t, 1);
    case Coded(n, upper, low) =>
      CodedParts(n, upper, low);
      if n < 0x10000 {
        EndAfterSix(c, p, n, upper);
      } else {
        var (first, second) := (0xD800 + (n - 0x10000) / 0x400, 0xDC00 + (n - 0x10000) % 0x400);
        AtParts(c, p, Unit16(first, upper), Unit16(second, low));
        EndAfterSix(c, p, first, upper);
        EndAfterSix(c, p + 6, second, low);
      }
  }

  lemma CodedParts(n: nat, upper: Cases, low: Cases)
    requires Scalar(n)
    ensures n < 0x10000 ==> Utf16Text(n, upper, low) == Unit16(n, upper) && |Unit16(n, upper)| == 6
    ensures n >= 0x10000 ==>
      var (first, second) := (0xD800 + (n - 0x10000) / 0x400, 0xDC00 + (n - 0x10000) % 0x400);
      && first < 0x10000 && second < 0x10000 && |Unit16(first, upper)| == |Unit16(second, low)| == 6
      && Utf16Text(n, upper, low) == Unit16(first, upper) + Unit16(second, low)
  {
  }

  lemma EndAfterSix(c: seq<Byte>, p: nat, n: nat, upper: Cases)
    requires n < 0x10000 && At(c, p, Unit16(n, upper))
    ensures p + 6 <= |c| && StringEnd(c, p) == StringEnd(c, p + 6)
  {
    var t := Unit16(n, upper);
    forall i | 0 <= i < 6
      ensures p + i < |c| && c[p + i] == t[i]
    {
      AtByte(c, p, t, i);
    }
    AtByte(c, p, t, 5);
    forall i | p + 2 <= i < p + 6
      ensures c[i] != QUOTE && c[i] != BACKSLASH
    {
      assert c[p + (i - p)] == t[i - p];
    }
    assert c[p + 0] == t[0] && c[p + 1] == t[1];
    assert StringEnd(c, p) == StringEnd(c, p + 2);
    FourMore(c, p + 2);
  }

  lemma {:induction false} UnitsEnd(c: seq<Byte>, p: nat, s: seq<Unit>)
    requires UnitsFormed(s) && At(c, p, UnitsText(s) + [QUOTE])
    ensures StringEnd(c, p) == Some(p + |UnitsText(s)|)
    decreases |s|
  {
    hide At, UnitFormed, UnitText;
    AtParts(c, p, UnitsText(s), [QUOTE]);
    AtByte(c, p + |UnitsText(s)|, [QUOTE], 0);
    if s != [] {
      assert UnitsText(s) + [QUOTE] == UnitText(s[0]) + (UnitsText(s[1..]) + [QUOTE]);
      AtParts(c, p, UnitText(s[0]), UnitsText(s[1..]) + [QUOTE]);
      EndAfterUnit(c, p, s[0]);
      UnitsEnd(c, p + |UnitText(s[0])|, s[1..]);
    }
  }

  lemma UnitRead(c: seq<Byte>, p: nat, end: nat, u: Unit, out: seq<Byte>)
    requires UnitFormed(u) && At(c, p, UnitText(u)) && p + |UnitText(u)| <= end < |c|
    ensures Unescape(c, p, end, out) == Unescape(c, p + |UnitText(u)|, end, out + UnitBytes(u))
  {
    hide Utf16Text, Utf8, Literal, Scalar;
    var t := UnitText(u);
    match u
    case Plain(_) =>
      AtByte(c, p, t, 0);
    case Short(_) =>
      AtByte(c, p, t, 0);
      AtByte(c, p, t, 1);
    case Coded(n, upper, low) =>
      CodedStarts(n, upper, low);
      AtByte(c, p, t, 0);
      AtByte(c, p, t, 1);
      CodePointBack(c, p, end, n, upper, low);
  }

  lemma CodedStarts(n: nat, upper: Cases, low: Cases)
    requires Scalar(n)
    ensures var t := Utf16Text(n, upper, low); |t| >= 2 && t[0] == BACKSLASH && t[1] == 117
  {
  }

  lemma Grouped(a: seq<Byte>, b: seq<Byte>, c: seq<Byte>)
    ensures (a + b) + c == a + (b + c)
  {
  }

  lemma {:induction false} UnitsRead(c: seq<Byte>, p: nat, s: seq<Unit>, out: seq<Byte>)
    requires UnitsFormed(s) && At(c, p, UnitsText(s)) && p + |UnitsText(s)| < |c|
    ensures Unescape(c, p, p + |UnitsText(s)|, out) == Done(out + UnitsBytes(s), p + |UnitsText(s)| + 1)
    decreases |s|
  {
    hide UnitFormed, UnitText, UnitBytes, At;
    if s == [] {
      assert out + UnitsBytes(s) == out;
      UnescapedAll(c, p, out);
    } else {
      hide Unescape;
      AtParts(c, p, UnitText(s[0]), UnitsText(s[1..]));
      UnitRead(c, p, p + |UnitsText(s)|, s[0], out);
      UnitsRead(c, p + |UnitText(s[0])|, s[1..], out + UnitBytes(s[0]));
      Grouped(out, UnitBytes(s[0]), UnitsBytes(s[1..]));
    }
  }

  // A quoted string is read as the bytes that its units stand for.
  lemma StringRead(c: seq<Byte>, off: nat, s: seq<Unit>)
    requires UnitsFormed(s) && At(c, off, Quoted(s))
    ensures off < |c| && c[off] == QUOTE && PString(c, off) == Done(UnitsBytes(s), off + |Quoted(s)|)
  {
    hide UnitFormed, UnitText, UnitBytes;
    AtParts(c, off, [QUOTE], UnitsText(s) + [QUOTE]);
    AtByte(c, off, [QUOTE], 0);
    UnitsEnd(c, off + 1, s);
    AtParts(c, off + 1, UnitsText(s), [QUOTE]);
    UnitsRead(c, off + 1, s, []);
    assert [] + UnitsBytes(s) == UnitsBytes(s);
  }

  // ------------------------------------------------------------------ values are read

  // What follows a number must not continue it.
  predicate Ends<N>(t: Spelling<N>, c: seq<Byte>, p: nat) { p < |c| && (t.SNumber? ==> !NumberByte(c[p])) }

  lemma NumberParsed<N(!new)>(c: seq<Byte>, off: nat, t: seq<Byte>, n: N, read: seq<Byte> -> Reading<N>)
    requires NumberFormed(t, n, read) && At(c, off, t) && off + |t| < |c| && !NumberByte(c[off + |t|])
    ensures c[off] == t[0] && PNumber(c, off, read) == Done(n, off + |t|)
  {
    forall i | off <= i < off + |t|
      ensures NumberByte(c[i])
    {
      AtByte(c, off, t, i - off);
    }
    AtByte(c, off, t, 0);
    RunIs(c, off, 0, |t|);
  }

  // The value of a spelling is read, and no more than its text.
  lemma {:induction false} ValueParsed<N(!new)>(t: Spelling<N>, read: seq<Byte> -> Reading<N>, c: seq<Byte>, off: nat,
                                                depth: nat)
    requires Terminated(c) && ReadsPrefix(read) && Formed(t, read)
    requires At(c, off, TextOf(t, read)) && Ends(t, c, off + |TextOf(t, read)|)
    requires depth + Nesting(Meaning(t, read)) <= NESTING_LIMIT
    ensures PValue(c, off, depth, read) == Done(Meaning(t, read), off + |TextOf(t, read)|)
    decreases t, Parts(t) + 2
  {
    hide PArray, PObject, PString, PNumber, FromItem, FromMember, Terminated, ReadsPrefix, Nesting, UnitsText,
      UnitsBytes, UnitsFormed;
    var s := TextOf(t, read);
    AtByte(c, off, s, 0);
    match t
    case SNull =>
    case SFalse =>
      NotAt(c, off, NULL_TEXT);
    case STrue =>
      NotAt(c, off, NULL_TEXT);
      NotAt(c, off, FALSE_TEXT);
    case SNumber(text, n) =>
      NoWord(c, off);
      NumberParsed(c, off, text, n, read);
    case SString(units) =>
      NoWord(c, off);
      StringRead(c, off, units);
    case SArray(_, _) =>
      NoWord(c, off);
      ArrayParsed(t, read, c, off, depth);
    case SObject(_, _) =>
      NoWord(c, off);
      ObjectParsed(t, read, c, off, depth);
  }

  // What holds of an element.
  lemma ItemOf<N(!new)>(t: Spelling<N>, i: nat, read: seq<Byte> -> Reading<N>)
    requires Formed(t, read) && t.SArray? && i < |t.items|
    ensures var (v, m) := (Meaning(t, read), t.items[i]);
      && m.value < t && Blank(m.before) && Formed(m.value, read) && Blank(m.after)
      && v.Array? && |v.items| == |t.items| && v.items[i] == Meaning(m.value, read)
      && Nesting(v) == 1 + NestingOf(v, 0)
      && Nesting(Meaning(m.value, read)) <= NestingOf(v, i) && NestingOf(v, i + 1) <= NestingOf(v, i)
  {
    hide Blank;
  }

  lemma ItemBlanks<N(!new)>(t: Spelling<N>, i: nat, read: seq<Byte> -> Reading<N>)
    requires Formed(t, read) && t.SArray? && i < |t.items|
    ensures Blank(t.items[i].before) && Formed(t.items[i].value, read) && Blank(t.items[i].after)
  {
    hide Blank;
  }

  lemma FromItemIs<N(!new)>(t: Spelling<N>, i: nat, read: seq<Byte> -> Reading<N>)
    requires Formed(t, read) && t.SArray? && i < |t.items|
    ensures Formed(t.items[i].value, read)
    ensures FromItem(t, i, read) == TextOf(t.items[i].value, read) + (t.items[i].after
      + if i + 1 < |t.items| then [COMMA] + (t.items[i + 1].before + FromItem(t, i + 1, read)) else [CLOSE_ARRAY])
    ensures FromItem(t, i, read) != [] && FromItem(t, i, read)[0] > 32
  {
    hide TextOf, Blank;
  }

  // Where the parts of element i lie: its value, and behind the blanks a comma or the bracket.
  lemma ItemPlaced<N(!new)>(t: Spelling<N>, i: nat, read: seq<Byte> -> Reading<N>, c: seq<Byte>, q: nat)
    requires Formed(t, read) && t.SArray? && i < |t.items| && At(c, q, FromItem(t, i, read))
    ensures Formed(t.items[i].value, read)
    ensures var (m, z) := (t.items[i], q + |TextOf(t.items[i].value, read)|);
      && At(c, q, TextOf(m.value, read)) && Ends(m.value, c, z)
      && var k := Skip(c, z);
         if i + 1 == |t.items| then c[k] == CLOSE_ARRAY && k + 1 == q + |FromItem(t, i, read)|
         else
           var f := FromItem(t, i + 1, read);
           && c[k] == COMMA && k + 1 < |c| && At(c, Skip(c, k + 1), f)
           && Skip(c, k + 1) + |f| == q + |FromItem(t, i, read)|
  {
    hide FromItem, TextOf, Formed, At, Skip, Blank, Ends;
    ItemBlanks(t, i, read);
    FromItemIs(t, i, read);
    var m, s := t.items[i], TextOf(t.items[i].value, read);
    if i + 1 == |t.items| {
      AfterValue(m.value, c, q, s, m.after, [CLOSE_ARRAY]);
    } else {
      ItemBlanks(t, i + 1, read);
      FromItemIs(t, i + 1, read);
      var w, f := t.items[i + 1].before, FromItem(t, i + 1, read);
      AfterValue(m.value, c, q, s, m.after, [COMMA] + (w + f));
      AfterComma(c, q + |s| + |m.after|, w, f);
    }
  }

  // A value, blanks, and something else.
  lemma AfterValue<N>(t: Spelling<N>, c: seq<Byte>, q: nat, s: seq<Byte>, w: seq<Byte>, x: seq<Byte>)
    requires At(c, q, s + (w + x)) && Blank(w) && x != [] && x[0] in {COMMA, CLOSE_ARRAY, CLOSE_OBJECT}
    ensures At(c, q, s) && Ends(t, c, q + |s|)
    ensures var k := q + |s| + |w|; k < |c| && Skip(c, q + |s|) == k && c[k] == x[0] && At(c, k, x)
  {
    AtParts(c, q, s, w + x);
    AtByte(c, q + |s|, w + x, 0);
    SkipOver(c, q + |s|, w, x);
    AtByte(c, q + |s| + |w|, x, 0);
  }

  lemma AfterComma(c: seq<Byte>, k: nat, w: seq<Byte>, f: seq<Byte>)
    requires At(c, k, [COMMA] + (w + f)) && Blank(w) && f != [] && f[0] > 32
    ensures k + 1 < |c| && Skip(c, k + 1) == k + 1 + |w| && At(c, k + 1 + |w|, f)
  {
    AtParts(c, k, [COMMA], w + f);
    AtByte(c, k + 1, w + f, 0);
    SkipOver(c, k + 1, w, f);
  }

  lemma ArrayStep<N(!new)>(c: seq<Byte>, off: nat, depth: nat, read: seq<Byte> -> Reading<N>, o: nat,
                           items: seq<Value<N>>, p: nat)
    requires Terminated(c) && off + 1 < |c| && ReadsPrefix(read) && c[off] == OPEN_ARRAY && depth < NESTING_LIMIT
    requires o == Skip(c, off + 1)
    ensures c[o] == CLOSE_ARRAY ==> PArray(c, off, depth, read) == Done(Array([]), o + 1)
    ensures o > off && (c[o] != CLOSE_ARRAY && PElements(c, o - 1, depth + 1, [], read) == Done(items, p) ==>
      PArray(c, off, depth, read) == Done(Array(items), p))
  {
  }

  lemma {:induction false} ArrayParsed<N(!new)>(t: Spelling<N>, read: seq<Byte> -> Reading<N>, c: seq<Byte>, off: nat,
                                                depth: nat)
    requires t.SArray? && Terminated(c) && ReadsPrefix(read) && Formed(t, read) && At(c, off, TextOf(t, read))
    requires depth + Nesting(Meaning(t, read)) <= NESTING_LIMIT && off < |c| && c[off] == OPEN_ARRAY
    ensures PArray(c, off, depth, read) == Done(Meaning(t, read), off + |TextOf(t, read)|)
    decreases t, Parts(t) + 1
  {
    hide TextOf, FromItem, Formed, Meaning, Nesting, NestingOf, At, Skip, Blank, PArray, PElements, Terminated,
      ReadsPrefix;
    var v := Meaning(t, read);
    ArrayText(t, read);
    if t.items == [] {
      Inside(c, off, OPEN_ARRAY, t.gap, [CLOSE_ARRAY]);
      ArrayStep(c, off, depth, read, Skip(c, off + 1), [], 0);
    } else {
      ItemOf(t, 0, read);
      FromItemIs(t, 0, read);
      var w, f := t.items[0].before, FromItem(t, 0, read);
      Inside(c, off, OPEN_ARRAY, w, f);
      assert v.items[..0] == [];
      ItemsParsed(t, 0, read, c, off + |w|, off + 1 + |w|, depth + 1);
      ArrayStep(c, off, depth, read, off + 1 + |w|, v.items, off + 1 + |w| + |f|);
    }
  }

  lemma ArrayText<N(!new)>(t: Spelling<N>, read: seq<Byte> -> Reading<N>)
    requires t.SArray? && Formed(t, read)
    ensures Blank(t.gap) && Nesting(Meaning(t, read)) >= 1 && Meaning(t, read).Array?
    ensures t.items == [] ==> Meaning(t, read) == Array([]) && TextOf(t, read) == [OPEN_ARRAY] + (t.gap + [CLOSE_ARRAY])
    ensures t.items != [] ==> TextOf(t, read) == [OPEN_ARRAY] + (t.items[0].before + FromItem(t, 0, read))
    ensures t.items != [] ==> FromItem(t, 0, read)[0] != CLOSE_ARRAY
  {
    hide FromItem, Blank;
  }

  // Behind the opening bracket: blanks, and something else.
  lemma Inside(c: seq<Byte>, off: nat, b: Byte, w: seq<Byte>, x: seq<Byte>)
    requires At(c, off, [b] + (w + x)) && Blank(w) && x != [] && x[0] > 32
    ensures off + 1 < |c| && Skip(c, off + 1) == off + 1 + |w| < |c| && At(c, off + 1 + |w|, x)
    ensures c[off + 1 + |w|] == x[0] && Skip(c, off + 1 + |w|) == off + 1 + |w|
  {
    AtParts(c, off, [b], w + x);
    AtByte(c, off + 1, w + x, 0);
    SkipOver(c, off + 1, w, x);
    AtByte(c, off + 1 + |w|, x, 0);
  }

  lemma {:induction false} ItemsParsed<N(!new)>(t: Spelling<N>, i: nat, read: seq<Byte> -> Reading<N>, c: seq<Byte>,
                                                off: nat, q: nat, depth: nat)
    requires Formed(t, read) && t.SArray? && i < |t.items| && Terminated(c) && ReadsPrefix(read)
    requires off + 1 < |c| && Skip(c, off + 1) == q && At(c, q, FromItem(t, i, read))
    requires Meaning(t, read).Array? && |Meaning(t, read).items| == |t.items|
    requires depth + NestingOf(Meaning(t, read), i) <= NESTING_LIMIT
    ensures PElements(c, off, depth, Meaning(t, read).items[..i], read)
      == Done(Meaning(t, read).items, q + |FromItem(t, i, read)|)
    decreases t, |t.items| - i
  {
    hide TextOf, FromItem, Formed, Meaning, Nesting, NestingOf, At, Skip, Blank, PValue, PArray, PElements, Terminated,
      ReadsPrefix;
    ItemOf(t, i, read);
    ItemPlaced(t, i, read, c, q);
    var v, m := Meaning(t, read), t.items[i];
    var z := q + |TextOf(m.value, read)|;
    ValueParsed(m.value, read, c, q, depth);
    PElementsStep(c, off, depth, v.items[..i], read, v.items[i], z);
    assert v.items[..i] + [v.items[i]] == v.items[..i + 1];
    if i + 1 == |t.items| {
      assert v.items[..i + 1] == v.items;
    } else {
      ItemsParsed(t, i + 1, read, c, Skip(c, z), Skip(c, Skip(c, z) + 1), depth);
    }
  }

  // ------------------------------------------------------------------ objects

  // What holds of a member.
  lemma MemberOf<N(!new)>(t: Spelling<N>, i: nat, read: seq<Byte> -> Reading<N>)
    requires Formed(t, read) && t.SObject? && i < |t.members|
    ensures var (v, m) := (Meaning(t, read), t.members[i]);
      && m.value < t && Blank(m.before) && UnitsFormed(m.name) && Blank(m.colon) && Blank(m.gap)
      && Formed(m.value, read) && Blank(m.after)
      && v.Object? && |v.members| == |t.members|
      && v.members[i] == Member(UnitsBytes(m.name), Meaning(m.value, read))
      && Nesting(v) == 1 + NestingOf(v, 0)
      && Nesting(Meaning(m.value, read)) <= NestingOf(v, i) && NestingOf(v, i + 1) <= NestingOf(v, i)
  {
    hide Blank, UnitsFormed, UnitsBytes;
  }

  // What follows the value of member i.
  ghost function BehindMember<N(!new)>(t: Spelling<N>, i: nat, read: seq<Byte> -> Reading<N>): (s: seq<Byte>)
    requires Formed(t, read) && t.SObject? && i < |t.members|
    ensures s != [] && s[0] in {COMMA, CLOSE_OBJECT}
  {
    if i + 1 < |t.members| then [COMMA] + (t.members[i + 1].before + FromMember(t, i + 1, read)) else [CLOSE_OBJECT]
  }

  lemma FromMemberIs<N(!new)>(t: Spelling<N>, i: nat, read: seq<Byte> -> Reading<N>)
    requires Formed(t, read) && t.SObject? && i < |t.members|
    ensures var m := t.members[i];
      && UnitsFormed(m.name) && Formed(m.value, read)
      && FromMember(t, i, read) == Quoted(m.name) + (m.colon + ([COLON] + (m.gap + (TextOf(m.value, read)
        + (m.after + BehindMember(t, i, read))))))
    ensures FromMember(t, i, read) != [] && FromMember(t, i, read)[0] > 32 && FromMember(t, i, read)[0] != CLOSE_OBJECT
  {
    hide TextOf, Blank, Quoted, UnitsFormed;
  }

  // Where the parts of member i lie.
  lemma NameRead<N(!new)>(t: Spelling<N>, i: nat, read: seq<Byte> -> Reading<N>, c: seq<Byte>, q: nat)
    requires Formed(t, read) && t.SObject? && i < |t.members| && At(c, q, FromMember(t, i, read)) && Terminated(c)
    ensures UnitsFormed(t.members[i].name) && Formed(t.members[i].value, read) && q < |c|
    ensures var (m, k) := (t.members[i], q + |Quoted(t.members[i].name)| + |t.members[i].colon|);
      && PString(c, q) == Done(UnitsBytes(m.name), q + |Quoted(m.name)|)
      && Skip(c, q + |Quoted(m.name)|) == k && k + 1 < |c| && c[k] == COLON
      && Skip(c, k + 1) == k + 1 + |m.gap|
      && At(c, k + 1 + |m.gap|, TextOf(m.value, read) + (m.after + BehindMember(t, i, read)))
  {
    hide FromMember, BehindMember, TextOf, Formed, Meaning, Nesting, NestingOf, At, Skip, Blank, UnitsFormed, PString,
      Quoted, UnitsBytes;
    MemberOf(t, i, read);
    FromMemberIs(t, i, read);
    var m, r := t.members[i], TextOf(t.members[i].value, read) + (t.members[i].after + BehindMember(t, i, read));
    var x := [COLON] + (m.gap + r);
    var k := q + |Quoted(m.name)| + |m.colon|;
    AtParts(c, q, Quoted(m.name), m.colon + x);
    StringRead(c, q, m.name);
    SkipOver(c, q + |Quoted(m.name)|, m.colon, x);
    AtByte(c, k, x, 0);
    AfterColon(c, k, m.gap, r);
  }

  lemma AfterColon(c: seq<Byte>, k: nat, w: seq<Byte>, f: seq<Byte>)
    requires At(c, k, [COLON] + (w + f)) && Blank(w) && f != [] && f[0] > 32
    ensures k + 1 < |c| && Skip(c, k + 1) == k + 1 + |w| && At(c, k + 1 + |w|, f)
  {
    AtParts(c, k, [COLON], w + f);
    AtByte(c, k + 1, w + f, 0);
    SkipOver(c, k + 1, w, f);
  }

  // A name, a colon and a value, wherever the blanks are.
  lemma MemberMade<N(!new)>(c: seq<Byte>, q: nat, depth: nat, read: seq<Byte> -> Reading<N>, m: Member<N>, p: nat,
                            z: nat)
    requires Terminated(c) && ReadsPrefix(read) && q < |c| && PString(c, q) == Done(m.name, p)
    requires p <= |c| && c[Skip(c, p)] == COLON && Skip(c, p) + 1 < |c|
      && PValue(c, Skip(c, Skip(c, p) + 1), depth, read) == Done(m.value, z)
    ensures PMember(c, q, depth, read) == Done(m, z)
  {
    hide PString, PValue, Skip;
  }

  lemma {:induction false} MembersParsed<N(!new)>(t: Spelling<N>, i: nat, read: seq<Byte> -> Reading<N>, c: seq<Byte>,
                                                  off: nat, q: nat, depth: nat)
    requires Formed(t, read) && t.SObject? && i < |t.members| && Terminated(c) && ReadsPrefix(read)
    requires off + 1 < |c| && Skip(c, off + 1) == q && At(c, q, FromMember(t, i, read))
    requires Meaning(t, read).Object? && |Meaning(t, read).members| == |t.members|
    requires depth + NestingOf(Meaning(t, read), i) <= NESTING_LIMIT
    ensures PMembers(c, off, depth, Meaning(t, read).members[..i], read)
      == Done(Meaning(t, read).members, q + |FromMember(t, i, read)|)
    decreases t, |t.members| - i
  {
    hide TextOf, FromMember, BehindMember, Formed, Meaning, Nesting, NestingOf, At, Skip, Blank, UnitsFormed, Quoted,
      UnitsBytes, PString, PValue, PMember, PObject, PMembers, Terminated, ReadsPrefix, Ends;
    MemberOf(t, i, read);
    NameRead(t, i, read, c, q);
    FromMemberIs(t, i, read);
    var v, m, s := Meaning(t, read), t.members[i], TextOf(t.members[i].value, read);
    var p := q + |Quoted(m.name)| + |m.colon| + 1 + |m.gap|;
    AfterValue(m.value, c, p, s, m.after, BehindMember(t, i, read));
    ValueParsed(m.value, read, c, p, depth);
    MemberMade(c, q, depth, read, v.members[i], q + |Quoted(m.name)|, p + |s|);
    PMembersStep(c, off, depth, v.members[..i], read, v.members[i], p + |s|);
    assert v.members[..i] + [v.members[i]] == v.members[..i + 1];
    var k := p + |s| + |m.after|;
    if i + 1 == |t.members| {
      BehindLast(t, i, read);
      assert v.members[..i + 1] == v.members;
    } else {
      MemberOf(t, i + 1, read);
      FromMemberIs(t, i + 1, read);
      BehindComma(t, i, read);
      AfterComma(c, k, t.members[i + 1].before, FromMember(t, i + 1, read));
      MembersParsed(t, i + 1, read, c, k, Skip(c, k + 1), depth);
    }
  }

  lemma BehindLast<N(!new)>(t: Spelling<N>, i: nat, read: seq<Byte> -> Reading<N>)
    requires Formed(t, read) && t.SObject? && i + 1 == |t.members|
    ensures BehindMember(t, i, read) == [CLOSE_OBJECT]
  {
  }

  lemma BehindComma<N(!new)>(t: Spelling<N>, i: nat, read: seq<Byte> -> Reading<N>)
    requires Formed(t, read) && t.SObject? && i + 1 < |t.members|
    ensures BehindMember(t, i, read) == [COMMA] + (t.members[i + 1].before + FromMember(t, i + 1, read))
  {
    hide FromMember, Formed;
  }

  lemma ObjectText<N(!new)>(t: Spelling<N>, read: seq<Byte> -> Reading<N>)
    requires t.SObject? && Formed(t, read)
    ensures Blank(t.gap) && Nesting(Meaning(t, read)) >= 1 && Meaning(t, read).Object?
    ensures t.members == [] ==>
      Meaning(t, read) == Object([]) && TextOf(t, read) == [OPEN_OBJECT] + (t.gap + [CLOSE_OBJECT])
    ensures t.members != [] ==> TextOf(t, read) == [OPEN_OBJECT] + (t.members[0].before + FromMember(t, 0, read))
  {
    hide FromMember, Blank, UnitsFormed;
  }

  lemma {:induction false} ObjectParsed<N(!new)>(t: Spelling<N>, read: seq<Byte> -> Reading<N>, c: seq<Byte>, off: nat,
                                                 depth: nat)
    requires t.SObject? && Terminated(c) && ReadsPrefix(read) && Formed(t, read) && At(c, off, TextOf(t, read))
    requires depth + Nesting(Meaning(t, read)) <= NESTING_LIMIT && off < |c| && c[off] == OPEN_OBJECT
    ensures PObject(c, off, depth, read) == Done(Meaning(t, read), off + |TextOf(t, read)|)
    decreases t, Parts(t) + 1
  {
    hide TextOf, FromMember, Formed, Meaning, Nesting, NestingOf, At, Skip, Blank, PObject, PMembers, Terminated,
      ReadsPrefix, UnitsFormed, UnitsBytes;
    var v := Meaning(t, read);
    ObjectText(t, read);
    if t.members == [] {
      Inside(c, off, OPEN_OBJECT, t.gap, [CLOSE_OBJECT]);
      PObjectStep(c, off, depth, read, Skip(c, off + 1), [], 0);
    } else {
      MemberOf(t, 0, read);
      FromMemberIs(t, 0, read);
      var w, f := t.members[0].before, FromMember(t, 0, read);
      Inside(c, off, OPEN_OBJECT, w, f);
      assert v.members[..0] == [];
      MembersParsed(t, 0, read, c, off + |w|, off + 1 + |w|, depth + 1);
      PObjectStep(c, off, depth, read, off + 1 + |w|, v.members, off + 1 + |w| + |f|);
    }
  }

  // ------------------------------------------------------------------ whole texts

  // A text that holds a value between blanks, behind a byte order mark or not, and whatever else.
  ghost function Whole<N(!new)>(mark: bool, lead: seq<Byte>, t: Spelling<N>, rest: seq<Byte>,
                                read: seq<Byte> -> Reading<N>): seq<Byte>
    requires Formed(t, read)
  {
    (if mark then BOM else []) + (lead + (TextOf(t, read) + rest))
  }

  // The parser reads the value and stops behind it, whatever follows, as long as that does not continue a number.
  // Asked for the end of the text, it skips the blanks that follow, and fails at anything else.
  lemma Parses<N(!new)>(mark: bool, lead: seq<Byte>, t: Spelling<N>, rest: seq<Byte>, read: seq<Byte> -> Reading<N>)
    requires ReadsPrefix(read) && Formed(t, read) && Blank(lead) && Nesting(Meaning(t, read)) <= NESTING_LIMIT
    requires t.SNumber? && rest != [] ==> !NumberByte(rest[0])
    ensures var s := Whole(mark, lead, t, rest, read);
      && Parse(s, false, read) == Done(Meaning(t, read), |s| - |rest|)
      && (if Blank(rest) then Parse(s, true, read) == Done(Meaning(t, read), |s|)
          else
            var o := |s| - |rest| + FirstNoBlank(rest);
            Parse(s, true, read) == Fail(o) && s[o] > 32)
  {
    hide TextOf, Formed, Meaning, Nesting, Blank, At, Skip, PValue, ReadsPrefix, SkipBom, Parse, Whole;
    var s, x := Whole(mark, lead, t, rest, read), TextOf(t, read);
    var b, end := if mark then 3 else 0, |s| - |rest|;
    WholeIs(mark, lead, t, rest, read);
    Start(mark, lead, x, rest, s);
    ValueParsed(t, read, s + [0], b + |lead|, 0);
    Finish(s, rest);
    ParseIs(s, read, b, Meaning(t, read), end);
  }

  lemma WholeIs<N(!new)>(mark: bool, lead: seq<Byte>, t: Spelling<N>, rest: seq<Byte>, read: seq<Byte> -> Reading<N>)
    requires Formed(t, read)
    ensures Whole(mark, lead, t, rest, read) == (if mark then BOM else []) + (lead + (TextOf(t, read) + rest))
  {
  }

  // What comes after the value.
  lemma ParseIs<N(!new)>(s: seq<Byte>, read: seq<Byte> -> Reading<N>, b: nat, v: Value<N>, end: nat)
    requires ReadsPrefix(read) && SkipBom(s + [0]) == b && end <= |s|
    requires PValue(s + [0], Skip(s + [0], b), 0, read) == Done(v, end)
    ensures Parse(s, false, read) == Done(v, end)
    ensures var o := Skip(s + [0], end); Parse(s, true, read) == if (s + [0])[o] != 0 then Fail(o) else Done(v, o)
  {
    hide PValue, Skip, SkipBom, ReadsPrefix;
  }

  function FirstNoBlank(w: seq<Byte>): (i: nat)
    requires !Blank(w)
    ensures i < |w| && w[i] > 32 && forall k :: 0 <= k < i ==> w[k] <= 32
  {
    if w[0] > 32 then 0
    else
      assert forall k :: 1 <= k < |w| ==> w[k] == w[1..][k - 1];
      1 + FirstNoBlank(w[1..])
  }

  lemma Start(mark: bool, lead: seq<Byte>, x: seq<Byte>, rest: seq<Byte>, s: seq<Byte>)
    requires s == (if mark then BOM else []) + (lead + (x + rest)) && Blank(lead) && x != [] && 32 < x[0] < 0xEF
    ensures var (c, b) := (s + [0], if mark then 3 else 0);
      && SkipBom(c) == b && Skip(c, b) == b + |lead| && At(c, b + |lead|, x)
      && |s| == b + |lead| + |x| + |rest| && s[|s| - |rest|..] == rest
      && c[|s| - |rest|] == (if rest == [] then 0 else rest[0])
  {
    var c, b := s + [0], |if mark then BOM else []|;
    assert c[b..b + |lead| + |x|] == lead + x;
    assert (lead + x)[0] < 0xEF;
    assert c[b] == c[b..b + |lead| + |x|][0];
    if mark {
      assert c[..3] == BOM;
    } else {
      BomFirst(c);
    }
    SkipOver(c, b, lead, x);
  }

  // What follows the value.
  lemma Finish(s: seq<Byte>, rest: seq<Byte>)
    requires |rest| <= |s| && s[|s| - |rest|..] == rest
    ensures var (c, p) := (s + [0], |s| - |rest|);
      && c[|s|] == 0
      && if Blank(rest) then Skip(c, p) == |s|
         else Skip(c, p) == p + FirstNoBlank(rest) < |s| && c[Skip(c, p)] == s[Skip(c, p)] > 32
  {
    var c, p := s + [0], |s| - |rest|;
    assert forall i :: 0 <= i < |rest| ==> c[p + i] == s[p..][i] == rest[i];
    if Blank(rest) {
      AllBlank(c, p);
    } else {
      SkipBlanks(c, p, FirstNoBlank(rest));
    }
  }

  lemma {:induction false} AllBlank(c: seq<Byte>, p: nat)
    requires p < |c| && forall i :: p <= i < |c| ==> c[i] <= 32
    ensures Skip(c, p) == |c| - 1
    decreases |c| - p
  {
    if p + 1 < |c| {
      AllBlank(c, p + 1);
    }
  }

  // ------------------------------------------------------------------ numbers of the grammar

  // Section 6: a minus sign or not, an integer part, and maybe a fraction and an exponent.
  datatype Numeral = Numeral(minus: bool, whole: seq<Byte>, fraction: seq<Byte>, exponent: seq<Byte>)

  predicate AllDigits(s: seq<Byte>) { |s| >= 1 && forall i :: 0 <= i < |s| ==> IsDigit(s[i]) }

  predicate NumeralFormed(m: Numeral) {
    && AllDigits(m.whole) && (m.whole[0] == 48 ==> |m.whole| == 1)
    && (m.fraction == [] || (m.fraction[0] == 46 && AllDigits(m.fraction[1..])))
    && (m.exponent == [] || (m.exponent[0] in {69, 101} && m.exponent != [m.exponent[0]]
                             && AllDigits(m.exponent[if m.exponent[1] in {43, 45} then 2 else 1..])))
  }

  function NumeralText(m: Numeral): seq<Byte> { (if m.minus then [45] else []) + m.whole + m.fraction + m.exponent }

  // Such a text is one that the parser collects whole, if it has no more than 63 bytes.
  lemma NumeralFits<N(!new)>(m: Numeral, n: N, read: seq<Byte> -> Reading<N>)
    requires NumeralFormed(m) && |NumeralText(m)| <= 63 && read(NumeralText(m)) == Read(n, |NumeralText(m)|)
    ensures NumberFormed(NumeralText(m), n, read)
  {
    forall i | 0 <= i < |m.fraction|
      ensures NumberByte(m.fraction[i])
    {
      assert i > 0 ==> m.fraction[i] == m.fraction[1..][i - 1];
    }
    forall i | 0 <= i < |m.exponent|
      ensures NumberByte(m.exponent[i])
    {
      var k := if m.exponent[1] in {43, 45} then 2 else 1;
      assert i >= k ==> m.exponent[i] == m.exponent[k..][i - k];
    }
  }

  // ------------------------------------------------------------------ what is printed for a byte

  // What is printed for a byte spells it, and no unit of the grammar that stands for the byte is shorter. Bytes below
  // 32 may not stand as they are.
  lemma PrintedByte(b: Byte) returns (u: Unit)
    ensures UnitFormed(u) && UnitText(u) == Escaped(b) && UnitBytes(u) == [b] && (u.Plain? ==> b >= 32)
    ensures forall w: Unit :: UnitFormed(w) && UnitBytes(w) == [b] && (w.Plain? ==> b >= 32) ==>
      |UnitText(w)| >= |Escaped(b)|
  {
    if b > 31 && b != QUOTE && b != BACKSLASH {
      u := Plain(b);
    } else if b in {BACKSLASH, QUOTE} {
      u := Short(b);
    } else if b in {8, 9, 10, 12, 13} {
      u := Short(if b == 8 then 98 else if b == 9 then 116 else if b == 10 then 110 else if b == 12 then 102 else 114);
    } else {
      u := Coded(b, Cases(false, false, false, false), Cases(false, false, false, false));
      ControlUnit(b);
    }
    forall w: Unit | UnitFormed(w) && UnitBytes(w) == [b] && (w.Plain? ==> b >= 32)
      ensures |UnitText(w)| >= |Escaped(b)|
    {
      SizeOfUnit(w);
    }
  }

  lemma ControlUnit(b: Byte)
    requires b < 32
    ensures Utf16Text(b, Cases(false, false, false, false), Cases(false, false, false, false)) ==
      [BACKSLASH, 117, 48, 48, HexDigit(b / 16), HexDigit(b % 16)]
  {
    assert b / 4096 == 0 && b / 256 % 16 == 0 && b / 16 % 16 == b / 16;
  }

  lemma SizeOfUnit(w: Unit)
    requires UnitFormed(w)
    ensures |UnitText(w)| >= if w.Plain? then 1 else if w.Short? then 2 else 6
  {
  }
}
