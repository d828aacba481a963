// Whatever the parser accepts is spelled by the grammar, unless a string of the result holds a NUL byte.
module JsonSound {
  import opened Common
  import opened Octets
  import opened JsonText
  import opened JsonParse
  import opened JsonRoundTrip
  import opened JsonUnicode
  import opened JsonGrammar

  // Reading only the characters that were used gives the same number.
  ghost predicate Consistent<N(!new)>(read: seq<Byte> -> Reading<N>) {
    forall s :: read(s).Read? && read(s).used <= |s| ==> read(s[..read(s).used]) == read(s)
  }

  lemma SkipIsBlank(c: seq<Byte>, p: nat)
    requires p < |c|
    ensures p <= Skip(c, p) < |c| && Blank(c[p..Skip(c, p)])
    ensures c[Skip(c, p)] <= 32 ==> Skip(c, p) == |c| - 1
    decreases |c| - p
  {
    if c[p] <= 32 && p + 1 < |c| {
      SkipIsBlank(c, p + 1);
      assert c[p..Skip(c, p)] == [c[p]] + c[p + 1..Skip(c, p)];
    }
  }

  // ------------------------------------------------------------------ strings

  // The loop only adds to what it has written.
  lemma {:induction false} UnescapeAdds(c: seq<Byte>, p: nat, end: nat, out: seq<Byte>)
    requires end < |c| && Unescape(c, p, end, out).Done?
    ensures out <= Unescape(c, p, end, out).value
    decreases |c| - p
  {
    if p < end {
      if c[p] != BACKSLASH {
        UnescapeAdds(c, p + 1, end, out + [c[p]]);
      } else if c[p + 1] == 117 {
        var l := Literal(c, p, end).value;
        UnescapeAdds(c, p + l.1, end, out + l.0);
      } else {
        UnescapeAdds(c, p + 2, end, out + [Escape(c[p + 1]).value]);
      }
    }
  }

  lemma HexDigitIs(b: Byte)
    requires HexValue(b).Some?
    ensures HexValue(b).value < 16 && b == Digit(HexValue(b).value, b <= 70)
  {
  }

  function CasesOf(c: seq<Byte>, i: nat): Cases
    requires i + 4 <= |c|
  {
    Cases(c[i] <= 70, c[i + 1] <= 70, c[i + 2] <= 70, c[i + 3] <= 70)
  }

  // Four digits that do not read as 0 are hexadecimal digits.
  lemma HexIs(c: seq<Byte>, p: nat)
    requires p + 6 <= |c| && c[p] == BACKSLASH && c[p + 1] == 117 && Hex4(c, p + 2) != 0
    ensures c[p..p + 6] == Unit16(Hex4(c, p + 2), CasesOf(c, p + 2))
    ensures forall i :: p + 2 <= i < p + 6 ==> c[i] != QUOTE && c[i] != BACKSLASH
  {
    HexDigitIs(c[p + 2]);
    HexDigitIs(c[p + 3]);
    HexDigitIs(c[p + 4]);
    HexDigitIs(c[p + 5]);
    HexParts(HexValue(c[p + 2]).value, HexValue(c[p + 3]).value, HexValue(c[p + 4]).value, HexValue(c[p + 5]).value);
  }

  lemma HexParts(a: nat, b: nat, d: nat, e: nat)
    requires a < 16 && b < 16 && d < 16 && e < 16
    ensures var n := ((a * 16 + b) * 16 + d) * 16 + e;
      n / 4096 == a && n / 256 % 16 == b && n / 16 % 16 == d && n % 16 == e
  {
  }

  // The sequence that was taken for a code point other than 0.
  lemma CodedIs(c: seq<Byte>, p: nat, end: nat) returns (u: Unit)
    requires p + 1 < end < |c| && c[p] == BACKSLASH && c[p + 1] == 117 && StringEnd(c, p) == Some(end)
    requires Literal(c, p, end).Some? && Printable(Literal(c, p, end).value.0)
    ensures UnitFormed(u) && UnitBytes(u) == Literal(c, p, end).value.0
    ensures UnitText(u) == c[p..p + Literal(c, p, end).value.1]
    ensures StringEnd(c, p + Literal(c, p, end).value.1) == Some(end)
  {
    hide Hex4, Unit16, Digit;
    var first := Hex4(c, p + 2);
    assert Literal(c, p, end).value.0[0] != 0;
    HexIs(c, p);
    assert StringEnd(c, p) == StringEnd(c, p + 2);
    FourMore(c, p + 2);
    if 0xD800 <= first <= 0xDBFF {
      var second := Hex4(c, p + 8);
      HexIs(c, p + 6);
      assert StringEnd(c, p + 6) == StringEnd(c, p + 8);
      FourMore(c, p + 8);
      var n := 0x10000 + (first - 0xD800) * 0x400 + (second - 0xDC00);
      u := Coded(n, CasesOf(c, p + 2), CasesOf(c, p + 8));
      assert c[p..p + 12] == c[p..p + 6] + c[p + 6..p + 12];
      assert (n - 0x10000) / 0x400 == first - 0xD800 && (n - 0x10000) % 0x400 == second - 0xDC00;
    } else {
      u := Coded(first, CasesOf(c, p + 2), CasesOf(c, p + 2));
    }
  }

  lemma PartPrintable(a: seq<Byte>, b: seq<Byte>, w: seq<Byte>)
    requires a + b <= w && Printable(w)
    ensures Printable(b)
  {
    forall i | 0 <= i < |b|
      ensures b[i] != 0
    {
      assert w[|a| + i] == (a + b)[|a| + i];
    }
  }

  // One turn of the loop reads one unit.
  lemma UnitIs(c: seq<Byte>, p: nat, end: nat, out: seq<Byte>) returns (u: Unit)
    requires p < end < |c| && StringEnd(c, p) == Some(end)
    requires Unescape(c, p, end, out).Done? && Printable(Unescape(c, p, end, out).value)
    ensures UnitFormed(u) && p + |UnitText(u)| <= end && UnitText(u) == c[p..p + |UnitText(u)|] && |UnitText(u)| > 0
    ensures StringEnd(c, p + |UnitText(u)|) == Some(end)
    ensures Unescape(c, p, end, out) == Unescape(c, p + |UnitText(u)|, end, out + UnitBytes(u))
  {
    hide Literal, Utf16Text, Utf8;
    if c[p] != BACKSLASH {
      u := Plain(c[p]);
    } else if c[p + 1] == 117 {
      assert p + 1 < end;
      var l := Literal(c, p, end).value;
      UnescapeAdds(c, p + l.1, end, out + l.0);
      PartPrintable(out, l.0, Unescape(c, p, end, out).value);
      u := CodedIs(c, p, end);
    } else {
      u := Short(c[p + 1]);
    }
  }

  lemma {:induction false} UnitsAre(c: seq<Byte>, p: nat, end: nat, out: seq<Byte>) returns (us: seq<Unit>)
    requires p <= end < |c| && StringEnd(c, p) == Some(end)
    requires Unescape(c, p, end, out).Done? && Printable(Unescape(c, p, end, out).value)
    ensures UnitsFormed(us) && UnitsText(us) == c[p..end]
    ensures Unescape(c, p, end, out).value == out + UnitsBytes(us)
    decreases end - p
  {
    hide UnitFormed, UnitText, UnitBytes, StringEnd;
    if p == end {
      us := [];
      UnescapedAll(c, p, out);
      assert out + UnitsBytes(us) == out;
    } else {
      hide Unescape;
      var u := UnitIs(c, p, end, out);
      var q := p + |UnitText(u)|;
      var rest := UnitsAre(c, q, end, out + UnitBytes(u));
      us := [u] + rest;
      assert us[1..] == rest;
      Grouped(out, UnitBytes(u), UnitsBytes(rest));
      assert c[p..end] == c[p..q] + c[q..end];
    }
  }

  // A string that was accepted.
  lemma StringIs(c: seq<Byte>, off: nat) returns (us: seq<Unit>)
    requires off < |c| && PString(c, off).Done? && Printable(PString(c, off).value)
    ensures UnitsFormed(us) && PString(c, off).value == UnitsBytes(us) && PString(c, off).offset <= |c|
    ensures Quoted(us) == c[off..PString(c, off).offset] && c[PString(c, off).offset - 1] == QUOTE
  {
    hide UnitFormed, UnitText, UnitBytes, Unescape;
    var end := StringEnd(c, off + 1).value;
    UnescapeEnds(c, off + 1, end, []);
    us := UnitsAre(c, off + 1, end, []);
    assert [] + UnitsBytes(us) == UnitsBytes(us);
    assert c[off..end + 1] == [c[off]] + (c[off + 1..end] + [c[end]]);
  }

  // ------------------------------------------------------------------ numbers

  lemma {:induction false} RunBytes(c: seq<Byte>, off: nat, n: nat)
    requires off + n <= |c| && n <= 63 && forall i :: off <= i < off + n ==> NumberByte(c[i])
    ensures forall i :: off <= i < off + Run(c, off, n) ==> NumberByte(c[i])
    decreases 63 - n
  {
    if n < 63 && off + n < |c| && NumberByte(c[off + n]) {
      RunBytes(c, off, n + 1);
    }
  }

  lemma NumberIs<N(!new)>(c: seq<Byte>, off: nat, read: seq<Byte> -> Reading<N>)
    requires Terminated(c) && ReadsPrefix(read) && Consistent(read) && off < |c| && (c[off] == 45 || IsDigit(c[off]))
    requires PNumber(c, off, read).Done?
    ensures var (n, o) := (PNumber(c, off, read).value, PNumber(c, off, read).offset);
      off < o < |c| && NumberFormed(c[off..o], n, read)
  {
    hide Consistent, ReadsPrefix;
    RunBytes(c, off, 0);
    var len := Run(c, off, 0);
    var s := c[off..off + len];
    UsedAgain(s, read);
    var t := c[off..off + read(s).used];
    assert s[..read(s).used] == t;
    forall i | 0 <= i < |t|
      ensures NumberByte(t[i])
    {
      assert t[i] == c[off + i];
    }
    assert c[off + (|t| - 1)] == t[|t| - 1];
  }

  lemma UsedAgain<N(!new)>(s: seq<Byte>, read: seq<Byte> -> Reading<N>)
    requires ReadsPrefix(read) && Consistent(read) && read(s).Read?
    ensures 1 <= read(s).used <= |s| && read(s[..read(s).used]) == read(s)
  {
  }

  // ------------------------------------------------------------------ elements and members

  ghost predicate ItemFormed<N(!new)>(m: SItem<N>, read: seq<Byte> -> Reading<N>) {
    Blank(m.before) && Formed(m.value, read) && Blank(m.after)
  }

  ghost predicate ItemsFormed<N(!new)>(s: seq<SItem<N>>, read: seq<Byte> -> Reading<N>) {
    forall i :: 0 <= i < |s| ==> ItemFormed(s[i], read)
  }

  // The text of elements with the blanks around them, and the bracket.
  ghost function Joined<N(!new)>(s: seq<SItem<N>>, read: seq<Byte> -> Reading<N>): seq<Byte>
    requires s != [] && ItemsFormed(s, read)
    decreases |s|
  {
    s[0].before + (TextOf(s[0].value, read) + (s[0].after
      + if |s| == 1 then [CLOSE_ARRAY] else [COMMA] + Joined(s[1..], read)))
  }

  lemma {:induction false} JoinedIs<N(!new)>(t: Spelling<N>, i: nat, read: seq<Byte> -> Reading<N>)
    requires t.SArray? && Formed(t, read) && i < |t.items|
    ensures ItemsFormed(t.items[i..], read)
    ensures Joined(t.items[i..], read) == t.items[i].before + FromItem(t, i, read)
    decreases |t.items| - i
  {
    FormedItems(t, read);
    FromItemIs(t, i, read);
    hide TextOf, FromItem, Formed;
    assert t.items[i..][1..] == t.items[i + 1..];
    if i + 1 < |t.items| {
      JoinedIs(t, i + 1, read);
    }
  }

  lemma FormedItems<N(!new)>(t: Spelling<N>, read: seq<Byte> -> Reading<N>)
    requires t.SArray? && Formed(t, read)
    ensures ItemsFormed(t.items, read)
  {
    hide Blank;
  }

  ghost predicate MemberFormed<N(!new)>(m: SMember<N>, read: seq<Byte> -> Reading<N>) {
    && Blank(m.before) && UnitsFormed(m.name) && Blank(m.colon) && Blank(m.gap) && Formed(m.value, read)
    && Blank(m.after)
  }

  ghost predicate MembersFormed<N(!new)>(s: seq<SMember<N>>, read: seq<Byte> -> Reading<N>) {
    forall i :: 0 <= i < |s| ==> MemberFormed(s[i], read)
  }

  // The same for members.
  ghost function JoinedMembers<N(!new)>(s: seq<SMember<N>>, read: seq<Byte> -> Reading<N>): seq<Byte>
    requires s != [] && MembersFormed(s, read)
    decreases |s|
  {
    s[0].before + (Quoted(s[0].name) + (s[0].colon + ([COLON] + (s[0].gap + (TextOf(s[0].value, read) + (s[0].after
      + if |s| == 1 then [CLOSE_OBJECT] else [COMMA] + JoinedMembers(s[1..], read)))))))
  }

  lemma JoinedMembersHead<N(!new)>(s: seq<SMember<N>>, read: seq<Byte> -> Reading<N>)
    requires s != [] && MembersFormed(s, read)
    ensures UnitsFormed(s[0].name) && Formed(s[0].value, read) && (|s| > 1 ==> MembersFormed(s[1..], read))
    ensures JoinedMembers(s, read) ==
      s[0].before + (Quoted(s[0].name) + (s[0].colon + ([COLON] + (s[0].gap + (TextOf(s[0].value, read) + (s[0].after
        + if |s| == 1 then [CLOSE_OBJECT] else [COMMA] + JoinedMembers(s[1..], read)))))))
  {
    hide TextOf, Formed, Quoted, UnitsFormed, Blank;
  }

  lemma MembersFormedFrom<N(!new)>(s: seq<SMember<N>>, i: nat, read: seq<Byte> -> Reading<N>)
    requires MembersFormed(s, read) && i <= |s|
    ensures MembersFormed(s[i..], read)
  {
    hide MemberFormed;
  }

  lemma {:induction false} JoinedMembersIs<N(!new)>(t: Spelling<N>, i: nat, read: seq<Byte> -> Reading<N>)
    requires t.SObject? && Formed(t, read) && i < |t.members|
    ensures MembersFormed(t.members[i..], read)
    ensures JoinedMembers(t.members[i..], read) == t.members[i].before + FromMember(t, i, read)
    decreases |t.members| - i
  {
    hide TextOf, FromMember, Formed, Quoted, UnitsFormed, Blank, JoinedMembers, BehindMember;
    FormedMembers(t, read);
    FromMemberIs(t, i, read);
    assert t.members[i..][1..] == t.members[i + 1..];
    MembersFormedFrom(t.members, i, read);
    JoinedMembersHead(t.members[i..], read);
    if i + 1 < |t.members| {
      JoinedMembersIs(t, i + 1, read);
      BehindComma(t, i, read);
    } else {
      BehindLast(t, i, read);
    }
  }

  lemma FormedMembers<N(!new)>(t: Spelling<N>, read: seq<Byte> -> Reading<N>)
    requires t.SObject? && Formed(t, read)
    ensures MembersFormed(t.members, read)
  {
    hide Blank, UnitsFormed;
  }

  // ------------------------------------------------------------------ values

  // What a value that was accepted is spelled by.
  lemma {:induction false} ValueIs<N(!new)>(c: seq<Byte>, off: nat, depth: nat, read: seq<Byte> -> Reading<N>)
    returns (t: Spelling<N>)
    requires Terminated(c) && ReadsPrefix(read) && Consistent(read) && off < |c|
    requires PValue(c, off, depth, read).Done? && CleanStrings(PValue(c, off, depth, read).value)
    ensures var (v, o) := (PValue(c, off, depth, read).value, PValue(c, off, depth, read).offset);
      && off < o < |c| && Formed(t, read) && TextOf(t, read) == c[off..o] && Meaning(t, read) == v
      && (depth <= NESTING_LIMIT ==> depth + Nesting(v) <= NESTING_LIMIT)
    decreases |c| - off, 2
  {
    hide PArray, PObject, PString, PNumber, ReadsPrefix, Consistent, NumberFormed, UnitsFormed, UnitsText, UnitsBytes;
    if At(c, off, NULL_TEXT) {
      t := SNull;
      AtByte(c, off, NULL_TEXT, 3);
    } else if At(c, off, FALSE_TEXT) {
      t := SFalse;
      AtByte(c, off, FALSE_TEXT, 4);
    } else if At(c, off, TRUE_TEXT) {
      t := STrue;
      AtByte(c, off, TRUE_TEXT, 3);
    } else if c[off] == QUOTE {
      var us := StringIs(c, off);
      t := SString(us);
    } else if c[off] == 45 || IsDigit(c[off]) {
      NumberIs(c, off, read);
      t := SNumber(c[off..PNumber(c, off, read).offset], PNumber(c, off, read).value);
    } else if c[off] == OPEN_ARRAY {
      t := ArrayIs(c, off, depth, read);
    } else {
      t := ObjectIs(c, off, depth, read);
    }
  }

  lemma SkipAgain(c: seq<Byte>, p: nat)
    requires p < |c|
    ensures Skip(c, Skip(c, p)) == Skip(c, p)
    decreases |c| - p
  {
    if c[p] <= 32 && p + 1 < |c| {
      SkipAgain(c, p + 1);
    }
  }

  lemma {:induction false} NestingBelow<N>(v: Value<N>, i: nat, m: nat)
    requires v.Array? && i <= |v.items| && forall k :: i <= k < |v.items| ==> Nesting(v.items[k]) <= m
    ensures NestingOf(v, i) <= m
    decreases |v.items| - i
  {
    if i < |v.items| {
      NestingBelow(v, i + 1, m);
    }
  }

  // What the elements mean.
  ghost predicate Mean<N(!new)>(s: seq<SItem<N>>, all: seq<Value<N>>, read: seq<Byte> -> Reading<N>)
    requires ItemsFormed(s, read)
  {
    |all| == |s| && forall k :: 0 <= k < |s| ==> all[k] == ItemMeans(s[k], read)
  }

  ghost function ItemMeans<N(!new)>(m: SItem<N>, read: seq<Byte> -> Reading<N>): Value<N>
    requires ItemFormed(m, read)
  {
    Meaning(m.value, read)
  }

  lemma ArrayMade<N(!new)>(s: seq<SItem<N>>, all: seq<Value<N>>, read: seq<Byte> -> Reading<N>)
    requires s != [] && ItemsFormed(s, read) && Mean(s, all, read)
    ensures var t := SArray([], s);
      Formed(t, read) && TextOf(t, read) == [OPEN_ARRAY] + Joined(s, read) && Meaning(t, read) == Array(all)
  {
    var t := SArray([], s);
    assert Formed(t, read) by {
      BlankNothing();
      assert forall i :: 0 <= i < |s| ==> ItemFormed(s[i], read);
    }
    assert Meaning(t, read).items == all;
    ArrayText(t, read);
    JoinedIs(t, 0, read);
    assert s[0..] == s;
  }

  lemma {:induction false} ElementsKeep<N(!new)>(c: seq<Byte>, off: nat, depth: nat, items: seq<Value<N>>,
                                                 read: seq<Byte> -> Reading<N>)
    requires Terminated(c) && off + 1 < |c| && ReadsPrefix(read) && PElements(c, off, depth, items, read).Done?
    ensures items <= PElements(c, off, depth, items, read).value
    decreases |c| - off
  {
    hide PValue, ReadsPrefix;
    var v, p := PValue(c, Skip(c, off + 1), depth, read).value, PValue(c, Skip(c, off + 1), depth, read).offset;
    if c[Skip(c, p)] == COMMA {
      ElementsKeep(c, Skip(c, p), depth, items + [v], read);
    }
  }

  // One element that was accepted, with the blanks around it.
  lemma {:induction false} ElementIs<N(!new)>(c: seq<Byte>, off: nat, depth: nat, read: seq<Byte> -> Reading<N>)
    returns (m: SItem<N>)
    requires Terminated(c) && ReadsPrefix(read) && Consistent(read) && off + 1 < |c| && depth <= NESTING_LIMIT
    requires var r := PValue(c, Skip(c, off + 1), depth, read); r.Done? && CleanStrings(r.value)
    ensures ItemFormed(m, read)
    ensures var (o, r) := (Skip(c, off + 1), PValue(c, Skip(c, off + 1), depth, read));
      var q := Skip(c, r.offset);
      && off < o < r.offset <= q < |c|
      && m.before == c[off + 1..o] && TextOf(m.value, read) == c[o..r.offset] && m.after == c[r.offset..q]
      && ItemMeans(m, read) == r.value && depth + Nesting(r.value) <= NESTING_LIMIT
    decreases |c| - off - 1, 3
  {
    hide PValue, ReadsPrefix, Consistent, Skip, Formed, Meaning, TextOf, Blank, CleanStrings, Nesting, Terminated;
    SkipIsBlank(c, off + 1);
    var o := Skip(c, off + 1);
    var x := ValueIs(c, o, depth, read);
    var p := PValue(c, o, depth, read).offset;
    SkipIsBlank(c, p);
    m := SItem(c[off + 1..o], x, c[p..Skip(c, p)]);
  }

  lemma JoinedStep<N(!new)>(m: SItem<N>, rest: seq<SItem<N>>, read: seq<Byte> -> Reading<N>)
    requires ItemFormed(m, read) && ItemsFormed(rest, read)
    ensures ItemsFormed([m] + rest, read)
    ensures Joined([m] + rest, read) == m.before + (TextOf(m.value, read) + (m.after
      + if rest == [] then [CLOSE_ARRAY] else [COMMA] + Joined(rest, read)))
  {
    hide TextOf, Formed, Blank;
    assert ([m] + rest)[1..] == rest;
  }

  lemma MeanStep<N(!new)>(m: SItem<N>, rest: seq<SItem<N>>, v: Value<N>, all: seq<Value<N>>,
                          read: seq<Byte> -> Reading<N>)
    requires ItemFormed(m, read) && ItemsFormed(rest, read) && ItemsFormed([m] + rest, read)
    requires ItemMeans(m, read) == v && Mean(rest, all, read)
    ensures Mean([m] + rest, [v] + all, read)
  {
    hide ItemMeans, ItemFormed;
  }

  // The elements that were accepted behind those there were.
  lemma {:induction false} ElementsAre<N(!new)>(c: seq<Byte>, off: nat, depth: nat, items: seq<Value<N>>,
                                                read: seq<Byte> -> Reading<N>) returns (s: seq<SItem<N>>)
    requires Terminated(c) && ReadsPrefix(read) && Consistent(read) && off + 1 < |c| && depth <= NESTING_LIMIT
    requires PElements(c, off, depth, items, read).Done?
    requires forall k :: 0 <= k < |PElements(c, off, depth, items, read).value| ==>
      CleanStrings(PElements(c, off, depth, items, read).value[k])
    ensures s != [] && ItemsFormed(s, read)
    ensures var (all, p) := (PElements(c, off, depth, items, read).value, PElements(c, off, depth, items, read).offset);
      && off + 1 < p < |c| && Joined(s, read) == c[off + 1..p]
      && items <= all && Mean(s, all[|items|..], read)
      && forall k :: |items| <= k < |all| ==> depth + Nesting(all[k]) <= NESTING_LIMIT
    decreases |c| - off - 1, 4
  {
    hide PValue, ReadsPrefix, Consistent, Skip, Joined, Mean, ItemFormed, ItemMeans, ItemsFormed, CleanStrings, Nesting;
    var all, end := PElements(c, off, depth, items, read).value, PElements(c, off, depth, items, read).offset;
    var o := Skip(c, off + 1);
    var v, p := PValue(c, o, depth, read).value, PValue(c, o, depth, read).offset;
    FirstKept(c, off, depth, items, read, v, p);
    assert all[|items|] == v;
    var m := ElementIs(c, off, depth, read);
    var q, rest := Skip(c, p), [];
    if c[q] == COMMA {
      rest := ElementsAre(c, q, depth, items + [v], read);
      assert c[q..end] == [COMMA] + c[q + 1..end];
      assert |items + [v]| == |items| + 1 && all[|items|..] == [v] + all[|items| + 1..];
    } else {
      assert c[q..end] == [CLOSE_ARRAY];
      assert all[|items|..] == [v] + [] && all[|items| + 1..] == [];
      MeanNothing(read);
    }
    s := [m] + rest;
    JoinedStep(m, rest, read);
    Slices(c, off + 1, o, p, q, end);
    MeanStep(m, rest, v, all[|items| + 1..], read);
  }

  lemma MeanNothing<N(!new)>(read: seq<Byte> -> Reading<N>)
    ensures ItemsFormed([], read) && Mean([], [], read)
  {
  }

  lemma Slices(c: seq<Byte>, a: nat, b: nat, d: nat, e: nat, f: nat)
    requires a <= b <= d <= e <= f <= |c|
    ensures c[a..f] == c[a..b] + (c[b..d] + (c[d..e] + c[e..f]))
  {
  }

  lemma FirstKept<N(!new)>(c: seq<Byte>, off: nat, depth: nat, items: seq<Value<N>>, read: seq<Byte> -> Reading<N>,
                           v: Value<N>, p: nat)
    requires Terminated(c) && off + 1 < |c| && ReadsPrefix(read) && PElements(c, off, depth, items, read).Done?
    requires PValue(c, Skip(c, off + 1), depth, read) == Done(v, p)
    ensures items + [v] <= PElements(c, off, depth, items, read).value
  {
    hide PValue, ReadsPrefix, Skip;
    if c[Skip(c, p)] == COMMA {
      ElementsKeep(c, Skip(c, p), depth, items + [v], read);
    }
  }

  lemma {:induction false} ArrayIs<N(!new)>(c: seq<Byte>, off: nat, depth: nat, read: seq<Byte> -> Reading<N>)
    returns (t: Spelling<N>)
    requires Terminated(c) && ReadsPrefix(read) && Consistent(read) && off < |c| && c[off] == OPEN_ARRAY
    requires PArray(c, off, depth, read).Done? && CleanStrings(PArray(c, off, depth, read).value)
    ensures var (v, o) := (PArray(c, off, depth, read).value, PArray(c, off, depth, read).offset);
      && off < o < |c| && Formed(t, read) && TextOf(t, read) == c[off..o] && Meaning(t, read) == v
      && (depth <= NESTING_LIMIT ==> depth + Nesting(v) <= NESTING_LIMIT)
    decreases |c| - off, 1
  {
    hide PElements, PValue, ReadsPrefix, Consistent, Skip, Formed, TextOf, Meaning, CleanStrings, Nesting, NestingOf,
      Mean, ItemsFormed, Joined;
    SkipIsBlank(c, off + 1);
    var o := Skip(c, off + 1);
    if c[o] == CLOSE_ARRAY {
      t := SArray(c[off + 1..o], []);
      EmptyArray(c[off + 1..o], read);
      assert c[off..o + 1] == [OPEN_ARRAY] + (c[off + 1..o] + [CLOSE_ARRAY]);
    } else {
      SkipAgain(c, off + 1);
      SameElements(c, off, o - 1, depth + 1, read);
      var all, end := PElements(c, off, depth + 1, [], read).value, PElements(c, off, depth + 1, [], read).offset;
      CleanItems(all);
      var s := ElementsAre(c, off, depth + 1, [], read);
      t := SArray([], s);
      assert all[0..] == all;
      ArrayMade(s, all, read);
      assert c[off..end] == [OPEN_ARRAY] + c[off + 1..end];
      NestedOne(Array(all));
      NestingBelow(Array(all), 0, NESTING_LIMIT - depth - 1);
    }
  }

  lemma CleanItems<N>(all: seq<Value<N>>)
    requires CleanStrings(Array(all))
    ensures forall k :: 0 <= k < |all| ==> CleanStrings(all[k])
  {
    assert Array(all).items == all;
  }

  lemma EmptyArray<N(!new)>(w: seq<Byte>, read: seq<Byte> -> Reading<N>)
    requires Blank(w)
    ensures var t: Spelling<N> := SArray(w, []);
      && Formed(t, read) && TextOf(t, read) == [OPEN_ARRAY] + (w + [CLOSE_ARRAY]) && Meaning(t, read) == Array([])
      && Nesting(Meaning(t, read)) == 1
  {
  }

  lemma SameElements<N(!new)>(c: seq<Byte>, a: nat, b: nat, depth: nat, read: seq<Byte> -> Reading<N>)
    requires Terminated(c) && ReadsPrefix(read) && a + 1 < |c| && b + 1 < |c| && Skip(c, a + 1) == Skip(c, b + 1)
    ensures PElements(c, a, depth, [], read) == PElements(c, b, depth, [], read)
  {
    hide PValue, Skip, ReadsPrefix;
  }

  // ------------------------------------------------------------------ objects

  ghost predicate MeanMembers<N(!new)>(s: seq<SMember<N>>, all: seq<Member<N>>, read: seq<Byte> -> Reading<N>)
    requires MembersFormed(s, read)
  {
    |all| == |s| && forall k :: 0 <= k < |s| ==> all[k] == MemberMeans(s[k], read)
  }

  ghost function MemberMeans<N(!new)>(m: SMember<N>, read: seq<Byte> -> Reading<N>): Member<N>
    requires MemberFormed(m, read)
  {
    Member(UnitsBytes(m.name), Meaning(m.value, read))
  }

  lemma ObjectMade<N(!new)>(s: seq<SMember<N>>, all: seq<Member<N>>, read: seq<Byte> -> Reading<N>)
    requires s != [] && MembersFormed(s, read) && MeanMembers(s, all, read)
    ensures var t := SObject([], s);
      Formed(t, read) && TextOf(t, read) == [OPEN_OBJECT] + JoinedMembers(s, read) && Meaning(t, read) == Object(all)
  {
    hide UnitsFormed, UnitsBytes;
    var t := SObject([], s);
    assert Formed(t, read) by {
      BlankNothing();
      assert forall i :: 0 <= i < |s| ==> MemberFormed(s[i], read);
    }
    assert Meaning(t, read).members == all;
    ObjectText(t, read);
    JoinedMembersIs(t, 0, read);
    assert s[0..] == s;
  }

  lemma {:induction false} MembersKeep<N(!new)>(c: seq<Byte>, off: nat, depth: nat, members: seq<Member<N>>,
                                                read: seq<Byte> -> Reading<N>)
    requires Terminated(c) && off + 1 < |c| && ReadsPrefix(read) && PMembers(c, off, depth, members, read).Done?
    ensures members <= PMembers(c, off, depth, members, read).value
    decreases |c| - off
  {
    hide PMember, ReadsPrefix;
    var m, z := PMember(c, Skip(c, off + 1), depth, read).value, PMember(c, Skip(c, off + 1), depth, read).offset;
    if c[Skip(c, z)] == COMMA {
      MembersKeep(c, Skip(c, z), depth, members + [m], read);
    }
  }

  lemma FirstMemberKept<N(!new)>(c: seq<Byte>, off: nat, depth: nat, members: seq<Member<N>>,
                                 read: seq<Byte> -> Reading<N>, m: Member<N>, z: nat)
    requires Terminated(c) && off + 1 < |c| && ReadsPrefix(read) && PMembers(c, off, depth, members, read).Done?
    requires PMember(c, Skip(c, off + 1), depth, read) == Done(m, z)
    ensures members + [m] <= PMembers(c, off, depth, members, read).value
  {
    hide PMember, ReadsPrefix;
    if c[Skip(c, z)] == COMMA {
      MembersKeep(c, Skip(c, z), depth, members + [m], read);
    }
  }

  ghost predicate CleanMember<N>(m: Member<N>) { Printable(m.name) && CleanStrings(m.value) }

  // A name, a colon and a value that were accepted.
  lemma {:induction false} MemberIs<N(!new)>(c: seq<Byte>, o: nat, depth: nat, read: seq<Byte> -> Reading<N>)
    returns (m: SMember<N>)
    requires Terminated(c) && ReadsPrefix(read) && Consistent(read) && o < |c| && depth <= NESTING_LIMIT
    requires var r := PMember(c, o, depth, read); r.Done? && CleanMember(r.value)
    ensures MemberFormed(m, read) && m.before == [] && m.after == []
    ensures var r := PMember(c, o, depth, read);
      && o < r.offset < |c| && MemberMeans(m, read) == r.value
      && Quoted(m.name) + (m.colon + ([COLON] + (m.gap + TextOf(m.value, read)))) == c[o..r.offset]
      && depth + Nesting(r.value.value) <= NESTING_LIMIT
    decreases |c| - o, 3
  {
    hide PString, PValue, ReadsPrefix, Consistent, Skip, Formed, Meaning, TextOf, Blank, CleanStrings, Nesting, Quoted,
      UnitsFormed, UnitsBytes;
    var us := StringIs(c, o);
    var p := PString(c, o).offset;
    SkipIsBlank(c, p);
    var q := Skip(c, p);
    SkipIsBlank(c, q + 1);
    var a := Skip(c, q + 1);
    var x := ValueIs(c, a, depth, read);
    var z := PValue(c, a, depth, read).offset;
    m := SMember([], us, c[p..q], c[q + 1..a], x, []);
    BlankNothing();
    Slices(c, o, p, q, q + 1, z);
    assert c[q..q + 1] == [COLON] && c[q + 1..z] == c[q + 1..a] + c[a..z];
  }

  lemma JoinedMembersStep<N(!new)>(m: SMember<N>, rest: seq<SMember<N>>, read: seq<Byte> -> Reading<N>)
    requires MemberFormed(m, read) && MembersFormed(rest, read)
    ensures MembersFormed([m] + rest, read)
    ensures JoinedMembers([m] + rest, read) == m.before + ((Quoted(m.name) + (m.colon + ([COLON] + (m.gap
      + TextOf(m.value, read))))) + (m.after
      + if rest == [] then [CLOSE_OBJECT] else [COMMA] + JoinedMembers(rest, read)))
  {
    hide TextOf, Formed, Blank, Quoted, UnitsFormed;
    assert ([m] + rest)[1..] == rest;
    var y := m.after + if rest == [] then [CLOSE_OBJECT] else [COMMA] + JoinedMembers(rest, read);
    Grouped5(Quoted(m.name), m.colon, [COLON], m.gap, TextOf(m.value, read), y);
  }

  lemma Grouped5(a: seq<Byte>, b: seq<Byte>, c: seq<Byte>, d: seq<Byte>, e: seq<Byte>, y: seq<Byte>)
    ensures (a + (b + (c + (d + e)))) + y == a + (b + (c + (d + (e + y))))
  {
    Grouped(d, e, y);
    Grouped(c, d + e, y);
    Grouped(b, c + (d + e), y);
    Grouped(a, b + (c + (d + e)), y);
  }

  lemma MeanMembersStep<N(!new)>(m: SMember<N>, rest: seq<SMember<N>>, v: Member<N>, all: seq<Member<N>>,
                                 read: seq<Byte> -> Reading<N>)
    requires MemberFormed(m, read) && MembersFormed(rest, read) && MembersFormed([m] + rest, read)
    requires MemberMeans(m, read) == v && MeanMembers(rest, all, read)
    ensures MeanMembers([m] + rest, [v] + all, read)
  {
    hide MemberMeans, MemberFormed;
  }

  lemma MeanNoMembers<N(!new)>(read: seq<Byte> -> Reading<N>)
    ensures MembersFormed([], read) && MeanMembers([], [], read)
  {
  }

  // A member with the blanks around it.
  lemma {:induction false} BlankedIs<N(!new)>(c: seq<Byte>, off: nat, depth: nat, read: seq<Byte> -> Reading<N>)
    returns (m: SMember<N>)
    requires Terminated(c) && ReadsPrefix(read) && Consistent(read) && off + 1 < |c| && depth <= NESTING_LIMIT
    requires var r := PMember(c, Skip(c, off + 1), depth, read); r.Done? && CleanMember(r.value)
    ensures MemberFormed(m, read)
    ensures var (o, r) := (Skip(c, off + 1), PMember(c, Skip(c, off + 1), depth, read));
      var q := Skip(c, r.offset);
      && off < o < r.offset <= q < |c|
      && m.before == c[off + 1..o] && m.after == c[r.offset..q]
      && Quoted(m.name) + (m.colon + ([COLON] + (m.gap + TextOf(m.value, read)))) == c[o..r.offset]
      && MemberMeans(m, read) == r.value && depth + Nesting(r.value.value) <= NESTING_LIMIT
    decreases |c| - off - 1, 4
  {
    hide PMember, ReadsPrefix, Consistent, Skip, Formed, Meaning, TextOf, Blank, CleanMember, Nesting, Terminated,
      Quoted, UnitsFormed, UnitsBytes;
    SkipIsBlank(c, off + 1);
    var o := Skip(c, off + 1);
    var x := MemberIs(c, o, depth, read);
    var p := PMember(c, o, depth, read).offset;
    SkipIsBlank(c, p);
    m := x.(before := c[off + 1..o], after := c[p..Skip(c, p)]);
  }

  // The members that were accepted behind those there were.
  lemma {:induction false} MembersAre<N(!new)>(c: seq<Byte>, off: nat, depth: nat, members: seq<Member<N>>,
                                               read: seq<Byte> -> Reading<N>) returns (s: seq<SMember<N>>)
    requires Terminated(c) && ReadsPrefix(read) && Consistent(read) && off + 1 < |c| && depth <= NESTING_LIMIT
    requires PMembers(c, off, depth, members, read).Done?
    requires forall k :: 0 <= k < |PMembers(c, off, depth, members, read).value| ==>
      CleanMember(PMembers(c, off, depth, members, read).value[k])
    ensures s != [] && MembersFormed(s, read)
    ensures var r := PMembers(c, off, depth, members, read);
      var (all, p) := (r.value, r.offset);
      && off + 1 < p < |c| && JoinedMembers(s, read) == c[off + 1..p]
      && members <= all && MeanMembers(s, all[|members|..], read)
      && forall k :: |members| <= k < |all| ==> depth + Nesting(all[k].value) <= NESTING_LIMIT
    decreases |c| - off - 1, 5
  {
    hide PMember, ReadsPrefix, Consistent, Skip, JoinedMembers, MeanMembers, MemberFormed, MemberMeans, MembersFormed,
      CleanMember, Nesting, Quoted;
    var all, end := PMembers(c, off, depth, members, read).value, PMembers(c, off, depth, members, read).offset;
    var o := Skip(c, off + 1);
    var v, p := PMember(c, o, depth, read).value, PMember(c, o, depth, read).offset;
    FirstMemberKept(c, off, depth, members, read, v, p);
    assert all[|members|] == v;
    var m := BlankedIs(c, off, depth, read);
    var q, rest := Skip(c, p), [];
    if c[q] == COMMA {
      rest := MembersAre(c, q, depth, members + [v], read);
      assert c[q..end] == [COMMA] + c[q + 1..end];
      assert |members + [v]| == |members| + 1 && all[|members|..] == [v] + all[|members| + 1..];
    } else {
      assert c[q..end] == [CLOSE_OBJECT];
      assert all[|members|..] == [v] + [] && all[|members| + 1..] == [];
      MeanNoMembers(read);
    }
    s := [m] + rest;
    JoinedMembersStep(m, rest, read);
    Slices(c, off + 1, o, p, q, end);
    MeanMembersStep(m, rest, v, all[|members| + 1..], read);
  }

  lemma SameMembers<N(!new)>(c: seq<Byte>, a: nat, b: nat, depth: nat, read: seq<Byte> -> Reading<N>)
    requires Terminated(c) && ReadsPrefix(read) && a + 1 < |c| && b + 1 < |c| && Skip(c, a + 1) == Skip(c, b + 1)
    ensures PMembers(c, a, depth, [], read) == PMembers(c, b, depth, [], read)
  {
    hide PMember, Skip, ReadsPrefix;
  }

  lemma {:induction false} NestingOfMembers<N>(v: Value<N>, i: nat, m: nat)
    requires v.Object? && i <= |v.members| && forall k :: i <= k < |v.members| ==> Nesting(v.members[k].value) <= m
    ensures NestingOf(v, i) <= m
    decreases |v.members| - i
  {
    if i < |v.members| {
      NestingOfMembers(v, i + 1, m);
    }
  }

  lemma CleanMembers<N>(all: seq<Member<N>>)
    requires CleanStrings(Object(all))
    ensures forall k :: 0 <= k < |all| ==> CleanMember(all[k])
  {
    assert Object(all).members == all;
  }

  lemma EmptyObject<N(!new)>(w: seq<Byte>, read: seq<Byte> -> Reading<N>)
    requires Blank(w)
    ensures var t: Spelling<N> := SObject(w, []);
      && Formed(t, read) && TextOf(t, read) == [OPEN_OBJECT] + (w + [CLOSE_OBJECT]) && Meaning(t, read) == Object([])
      && Nesting(Meaning(t, read)) == 1
  {
  }

  lemma {:induction false} ObjectIs<N(!new)>(c: seq<Byte>, off: nat, depth: nat, read: seq<Byte> -> Reading<N>)
    returns (t: Spelling<N>)
    requires Terminated(c) && ReadsPrefix(read) && Consistent(read) && off < |c| && c[off] == OPEN_OBJECT
    requires PObject(c, off, depth, read).Done? && CleanStrings(PObject(c, off, depth, read).value)
    ensures var (v, o) := (PObject(c, off, depth, read).value, PObject(c, off, depth, read).offset);
      && off < o < |c| && Formed(t, read) && TextOf(t, read) == c[off..o] && Meaning(t, read) == v
      && (depth <= NESTING_LIMIT ==> depth + Nesting(v) <= NESTING_LIMIT)
    decreases |c| - off, 1
  {
    hide PMembers, PValue, ReadsPrefix, Consistent, Skip, Formed, TextOf, Meaning, CleanStrings, Nesting, NestingOf,
      MeanMembers, MembersFormed, JoinedMembers;
    SkipIsBlank(c, off + 1);
    var o := Skip(c, off + 1);
    if c[o] == CLOSE_OBJECT {
      t := SObject(c[off + 1..o], []);
      EmptyObject(c[off + 1..o], read);
      assert c[off..o + 1] == [OPEN_OBJECT] + (c[off + 1..o] + [CLOSE_OBJECT]);
    } else {
      SkipAgain(c, off + 1);
      SameMembers(c, off, o - 1, depth + 1, read);
      var all, end := PMembers(c, off, depth + 1, [], read).value, PMembers(c, off, depth + 1, [], read).offset;
      CleanMembers(all);
      var s := MembersAre(c, off, depth + 1, [], read);
      t := SObject([], s);
      assert all[0..] == all;
      ObjectMade(s, all, read);
      assert c[off..end] == [OPEN_OBJECT] + c[off + 1..end];
      NestedOne(Object(all));
      NestingOfMembers(Object(all), 0, NESTING_LIMIT - depth - 1);
    }
  }

  // ------------------------------------------------------------------ whole texts

  // s spells v, between blanks and with rest behind it.
  ghost predicate Spells<N(!new)>(s: seq<Byte>, mark: bool, lead: seq<Byte>, t: Spelling<N>, rest: seq<Byte>,
                                  v: Value<N>, read: seq<Byte> -> Reading<N>) {
    && Formed(t, read) && Blank(lead) && s == Whole(mark, lead, t, rest, read) && Meaning(t, read) == v
    && Nesting(v) <= NESTING_LIMIT
  }

  // How an accepted text is spelled.
  lemma AcceptedIs<N(!new)>(s: seq<Byte>, toEnd: bool, read: seq<Byte> -> Reading<N>)
    returns (mark: bool, lead: seq<Byte>, t: Spelling<N>, rest: seq<Byte>)
    requires ReadsPrefix(read) && Consistent(read)
    requires Parse(s, toEnd, read).Done? && CleanStrings(Parse(s, toEnd, read).value)
    ensures Spells(s, mark, lead, t, rest, Parse(s, toEnd, read).value, read)
    ensures if toEnd then Blank(rest) && Parse(s, toEnd, read).offset == |s|
            else Parse(s, toEnd, read).offset == |s| - |rest|
  {
    hide PValue, ReadsPrefix, Consistent, Skip, CleanStrings, Nesting, Formed, Meaning, TextOf, Blank;
    var c, b := s + [0], SkipBom(s + [0]);
    SkipIsBlank(c, b);
    var k := Skip(c, b);
    t := ValueIs(c, k, 0, read);
    var o := PValue(c, k, 0, read).offset;
    mark, lead, rest := b == 3, c[b..k], s[o..];
    assert c[..b] == if mark then BOM else [];
    assert s == c[..b] + (c[b..k] + (c[k..o] + s[o..]));
    if toEnd {
      SkipIsBlank(c, o);
      assert c[o..|c| - 1] == rest;
    }
  }

  // Asked for the end of the text, the parser accepts exactly the texts that spell a value, with that value, as far as
  // values without NUL bytes in their strings are concerned.
  lemma AcceptsExactly<N(!new)>(s: seq<Byte>, v: Value<N>, read: seq<Byte> -> Reading<N>)
    requires ReadsPrefix(read) && Consistent(read) && CleanStrings(v)
    ensures Parse(s, true, read) == Done(v, |s|) <==>
      exists mark: bool, lead: seq<Byte>, t: Spelling<N>, rest: seq<Byte> ::
        Spells(s, mark, lead, t, rest, v, read) && Blank(rest)
  {
    hide Parse, ReadsPrefix, Consistent, CleanStrings, Blank;
    if Parse(s, true, read) == Done(v, |s|) {
      var mark, lead, t, rest := AcceptedIs(s, true, read);
    }
    forall mark: bool, lead: seq<Byte>, t: Spelling<N>, rest: seq<Byte> |
      Spells(s, mark, lead, t, rest, v, read) && Blank(rest)
      ensures Parse(s, true, read) == Done(v, |s|)
    {
      BlankEnds(rest);
      hide Formed, Meaning, Nesting, Whole;
      Parses(mark, lead, t, rest, read);
    }
  }

  lemma BlankEnds(w: seq<Byte>)
    requires Blank(w)
    ensures w != [] ==> !NumberByte(w[0])
  {
  }

  // "\uZZZZ", with its quotes
  const BROKEN: seq<Byte> := [QUOTE, BACKSLASH, 117, 90, 90, 90, 90, QUOTE]

  // With NUL bytes it is not so: four characters that are no hexadecimal digits pass for the code point 0.
  lemma BrokenHex<N(!new)>(read: seq<Byte> -> Reading<N>, us: seq<Unit>)
    requires ReadsPrefix(read)
    ensures Parse(BROKEN, true, read) == Done(String([0]), 8)
    ensures UnitsFormed(us) ==> Quoted(us) != BROKEN
  {
    BrokenString();
    assert SkipBom(BROKEN + [0]) == 0;
    NoWord(BROKEN + [0], 0);
    hide PString;
    assert Parse(BROKEN, true, read) == Done(String([0]), 8);
    if UnitsFormed(us) && Quoted(us) == BROKEN {
      BrokenUnits(us);
    }
  }

  lemma BrokenString()
    ensures PString(BROKEN + [0], 0) == Done([0], 8)
  {
    var c := BROKEN + [0];
    assert StringEnd(c, 1) == StringEnd(c, 3);
    FourMore(c, 3);
    assert StringEnd(c, 7) == Some(7);
    assert Hex4(c, 3) == 0;
    assert Literal(c, 1, 7) == Some(([0], 6));
    assert Unescape(c, 7, 7, [0]) == Done([0], 8);
    assert [] + [0] == [0 as Byte];
    assert Unescape(c, 1, 7, []) == Unescape(c, 7, 7, [0]);
  }

  lemma BrokenUnits(us: seq<Unit>)
    requires UnitsFormed(us)
    ensures Quoted(us) != BROKEN
  {
    hide UnitFormed, UnitText;
    if us != [] {
      var x := UnitText(us[0]);
      FirstUnit(us);
      assert BROKEN[1] == BACKSLASH && BROKEN[2] == 117 && BROKEN[3] == 90;
      if |x| >= 1 && x[0] == BACKSLASH {
        BrokenUnit(us[0]);
      }
    }
  }

  lemma FirstUnit(us: seq<Unit>)
    requires UnitsFormed(us) && us != []
    ensures var x := UnitText(us[0]);
      |x| >= 1 && |Quoted(us)| > 1 + |x| && forall i :: 0 <= i < |x| ==> x[i] == Quoted(us)[i + 1]
  {
    var x, w := UnitText(us[0]), UnitsText(us);
    assert forall i :: 0 <= i < |x| ==> x[i] == w[i];
    assert forall i :: 0 <= i < |w| ==> Quoted(us)[i + 1] == w[i];
  }

  // The third character of a unit that begins with \u is a hexadecimal digit.
  lemma BrokenUnit(u: Unit)
    requires UnitFormed(u) && |UnitText(u)| >= 1 && UnitText(u)[0] == BACKSLASH
    ensures |UnitText(u)| >= 2 && (UnitText(u)[1] == 117 ==> |UnitText(u)| >= 3 && UnitText(u)[2] != 90)
  {
  }
}
