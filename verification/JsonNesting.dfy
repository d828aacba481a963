// Printed text is refused exactly if it nests more than 1000 deep.
module JsonNesting {
  import opened Octets
  import opened JsonText
  import opened JsonParse
  import opened JsonRoundTrip

  lemma {:induction false} ValueTooDeep<N(!new)>(v: Value<N>, fmt: bool, d: nat, render: N -> seq<Byte>,
                                                 read: seq<Byte> -> Reading<N>, c: seq<Byte>, off: nat, depth: nat)
    requires Terminated(c) && ReadsPrefix(read) && Clean(v, render) && Faithful(v, render, read)
    requires At(c, off, Text(v, fmt, d, render)) && Closed(c, off + |Text(v, fmt, d, render)|)
    requires depth <= NESTING_LIMIT < depth + Nesting(v)
    ensures PValue(c, off, depth, read).Fail?
    decreases v, Children(v) + 1
  {
    var t := Text(v, fmt, d, render);
    FirstByte(v, fmt, d, render);
    AtByte(c, off, t, 0);
    NoWord(c, off);
    if v.Array? {
      ArrayTooDeep(v, fmt, d, render, read, c, off, depth);
    } else {
      ObjectTooDeep(v, fmt, d, render, read, c, off, depth);
    }
  }

  lemma {:induction false} ArrayTooDeep<N(!new)>(v: Value<N>, fmt: bool, d: nat, render: N -> seq<Byte>,
                                                 read: seq<Byte> -> Reading<N>, c: seq<Byte>, off: nat, depth: nat)
    requires v.Array? && Terminated(c) && ReadsPrefix(read) && Clean(v, render) && Faithful(v, render, read)
    requires At(c, off, Text(v, fmt, d, render)) && depth <= NESTING_LIMIT < depth + Nesting(v)
    requires off < |c| && c[off] == OPEN_ARRAY
    ensures PArray(c, off, depth, read).Fail?
    decreases v, Children(v) + 1, 0
  {
    hide Text, Elements, Members, At, Skip, PValue, PElements, PArray, PObject, PMembers, PString, Clean, Faithful,
         Nesting, NestingOf, ReadsPrefix, Terminated, Blank, Closed;
    if depth == NESTING_LIMIT {
      PArrayAtLimit(c, off, depth, read);
    } else {
      NestedOne(v);
      NestedSome(v);
      var e := Elements(v, 0, fmt, d + 1, render) + [CLOSE_ARRAY];
      ArrayLayout(v, fmt, d, render);
      AtParts(c, off, [OPEN_ARRAY], e);
      AtByte(c, off, [OPEN_ARRAY] + e, 1);
      ElementsLayout(v, 0, fmt, d + 1, render);
      BlankNothing();
      assert [] + e == e;
      SkipOver(c, off + 1, [], e);
      AtByte(c, off + 1, e, 0);
      ElementsTooDeep(v, 0, fmt, d + 1, render, read, c, off, off + 1, depth + 1, []);
      PArrayFails(c, off, depth, read);
    }
  }

  lemma PArrayAtLimit<N(!new)>(c: seq<Byte>, off: nat, depth: nat, read: seq<Byte> -> Reading<N>)
    requires Terminated(c) && off < |c| && ReadsPrefix(read) && depth >= NESTING_LIMIT
    ensures c[off] == OPEN_ARRAY ==> PArray(c, off, depth, read).Fail?
    ensures c[off] == OPEN_OBJECT ==> PObject(c, off, depth, read).Fail?
  {
  }

  lemma PArrayFails<N(!new)>(c: seq<Byte>, off: nat, depth: nat, read: seq<Byte> -> Reading<N>)
    requires Terminated(c) && off + 1 < |c| && ReadsPrefix(read) && c[off] == OPEN_ARRAY
    requires c[Skip(c, off + 1)] != CLOSE_ARRAY && PElements(c, Skip(c, off + 1) - 1, depth + 1, [], read).Fail?
    ensures PArray(c, off, depth, read).Fail?
  {
    hide PElements, Skip;
  }

  lemma PObjectFails<N(!new)>(c: seq<Byte>, off: nat, depth: nat, read: seq<Byte> -> Reading<N>)
    requires Terminated(c) && off + 1 < |c| && ReadsPrefix(read) && c[off] == OPEN_OBJECT
    requires c[Skip(c, off + 1)] != CLOSE_OBJECT && PMembers(c, Skip(c, off + 1) - 1, depth + 1, [], read).Fail?
    ensures PObject(c, off, depth, read).Fail?
  {
    hide PMembers, Skip;
  }

  lemma NestedSome<N>(v: Value<N>)
    requires v.Array? || v.Object?
    ensures NestingOf(v, 0) > 0 ==> Children(v) > 0
    ensures NestingOf(v, Children(v)) == 0
  {
  }

  lemma NestedMax<N>(v: Value<N>, i: nat)
    requires i < Children(v)
    ensures v.Array? ==> NestingOf(v, i) == Nesting(v.items[i]) || NestingOf(v, i) == NestingOf(v, i + 1)
    ensures v.Object? ==> NestingOf(v, i) == Nesting(v.members[i].value) || NestingOf(v, i) == NestingOf(v, i + 1)
  {
  }

  lemma PElementsFail<N(!new)>(c: seq<Byte>, off: nat, depth: nat, items: seq<Value<N>>, read: seq<Byte> -> Reading<N>)
    requires Terminated(c) && off + 1 < |c| && ReadsPrefix(read) && PValue(c, Skip(c, off + 1), depth, read).Fail?
    ensures PElements(c, off, depth, items, read).Fail?
  {
    hide PValue;
  }

  lemma {:induction false} ElementsTooDeep<N(!new)>(v: Value<N>, i: nat, fmt: bool, d: nat, render: N -> seq<Byte>,
                                                    read: seq<Byte> -> Reading<N>, c: seq<Byte>, off: nat, p: nat,
                                                    depth: nat, items: seq<Value<N>>)
    requires v.Array? && i < |v.items| && Terminated(c) && ReadsPrefix(read)
    requires Clean(v, render) && Faithful(v, render, read)
    requires off + 1 < |c| && Skip(c, off + 1) == p && At(c, p, Elements(v, i, fmt, d, render) + [CLOSE_ARRAY])
    requires depth <= NESTING_LIMIT < depth + NestingOf(v, i)
    ensures PElements(c, off, depth, items, read).Fail?
    decreases v, |v.items| - i
  {
    hide Text, Elements, Members, At, Skip, PValue, PElements, PArray, PObject, PMembers, PString, Clean, Faithful,
         Nesting, NestingOf, ReadsPrefix, Terminated, Blank, Closed;
    ItemFacts(v, i, render, read);
    NestedMax(v, i);
    NestedSome(v);
    ElementPlaced(v, i, fmt, d, render, c, p);
    var q := p + |Text(v.items[i], fmt, d, render)|;
    if depth + Nesting(v.items[i]) > NESTING_LIMIT {
      ValueTooDeep(v.items[i], fmt, d, render, read, c, p, depth);
      PElementsFail(c, off, depth, items, read);
    } else {
      ValueBack(v.items[i], fmt, d, render, read, c, p, depth);
      PElementsStep(c, off, depth, items, read, v.items[i], q);
      ElementsTooDeep(v, i + 1, fmt, d, render, read, c, q, Skip(c, q + 1), depth, items + [v.items[i]]);
    }
  }

  lemma {:induction false} ObjectTooDeep<N(!new)>(v: Value<N>, fmt: bool, d: nat, render: N -> seq<Byte>,
                                                  read: seq<Byte> -> Reading<N>, c: seq<Byte>, off: nat, depth: nat)
    requires v.Object? && Terminated(c) && ReadsPrefix(read) && Clean(v, render) && Faithful(v, render, read)
    requires At(c, off, Text(v, fmt, d, render)) && depth <= NESTING_LIMIT < depth + Nesting(v)
    requires off < |c| && c[off] == OPEN_OBJECT
    ensures PObject(c, off, depth, read).Fail?
    decreases v, Children(v) + 1, 0
  {
    hide Text, Elements, Members, At, Skip, PValue, PElements, PArray, PObject, PMembers, PString, Clean, Faithful,
         Nesting, NestingOf, ReadsPrefix, Terminated, Blank, Closed, StringText, FromName, Rest, Indent, Break,
           Printable;
    if depth == NESTING_LIMIT {
      PArrayAtLimit(c, off, depth, read);
    } else {
      NestedOne(v);
      NestedSome(v);
      FirstPlaced(v, fmt, d, render, c, off);
      var q := Skip(c, off + 1);
      MembersTooDeep(v, 0, fmt, d, render, read, c, q - 1, q, depth + 1, []);
      PObjectFails(c, off, depth, read);
    }
  }

  lemma PMembersFail<N(!new)>(c: seq<Byte>, off: nat, depth: nat, members: seq<Member<N>>,
                       read: seq<Byte> -> Reading<N>)
    requires Terminated(c) && off + 1 < |c| && ReadsPrefix(read) && PMember(c, Skip(c, off + 1), depth, read).Fail?
    ensures PMembers(c, off, depth, members, read).Fail?
  {
    hide PMember;
  }

  lemma MemberFails<N(!new)>(c: seq<Byte>, q: nat, depth: nat, read: seq<Byte> -> Reading<N>, name: seq<Byte>, k: nat)
    requires Terminated(c) && ReadsPrefix(read) && q < |c| && PString(c, q) == Done(name, k)
    requires Skip(c, k) == k && c[k] == COLON && k + 1 < |c| && PValue(c, Skip(c, k + 1), depth, read).Fail?
    ensures PMember(c, q, depth, read).Fail?
  {
    hide PString, PValue, Skip;
  }

  // One member whose value is too deep.
  lemma {:induction false} MemberTooDeep<N(!new)>(m: Member<N>, fmt: bool, d: nat, render: N -> seq<Byte>,
                                                  read: seq<Byte> -> Reading<N>, c: seq<Byte>, q: nat, depth: nat,
                                                  after: seq<Byte>)
    requires Terminated(c) && ReadsPrefix(read) && Printable(m.name)
    requires Clean(m.value, render) && Faithful(m.value, render, read)
    requires depth <= NESTING_LIMIT < depth + Nesting(m.value)
    requires At(c, q, StringText(m.name) + ([COLON]
      + ((if fmt then [TAB] else []) + (Text(m.value, fmt, d, render) + after))))
    requires after != [] && (after[0] == COMMA || after[0] == CLOSE_OBJECT || after[0] == NEWLINE)
    ensures q < |c| && PMember(c, q, depth, read).Fail?
    decreases m.value, Children(m.value) + 2
  {
    hide Text, Elements, Members, At, Skip, PValue, PElements, PArray, PObject, PMember, PMembers, PString, Clean,
         Faithful, Nesting, NestingOf, ReadsPrefix, Terminated, Blank, Closed, StringText, Rest, MemberEnd, Indent,
         Break, Printable, MemberStop;
    MemberPlaced(m, fmt, d, render, c, q, after);
    var k := q + |StringText(m.name)|;
    ValueTooDeep(m.value, fmt, d, render, read, c, Skip(c, k + 1), depth);
    MemberFails(c, q, depth, read, m.name, k);
  }

  lemma {:induction false} MembersTooDeep<N(!new)>(v: Value<N>, i: nat, fmt: bool, d: nat, render: N -> seq<Byte>,
                                                   read: seq<Byte> -> Reading<N>, c: seq<Byte>, off: nat, q: nat,
                                                   depth: nat, members: seq<Member<N>>)
    requires v.Object? && i < |v.members| && Terminated(c) && ReadsPrefix(read)
    requires Clean(v, render) && Faithful(v, render, read)
    requires off + 1 < |c| && Skip(c, off + 1) == q && At(c, q, FromName(v, i, fmt, d, render))
    requires depth <= NESTING_LIMIT < depth + NestingOf(v, i)
    ensures PMembers(c, off, depth, members, read).Fail?
    decreases v, |v.members| - i
  {
    hide Text, Elements, Members, At, Skip, PValue, PElements, PArray, PObject, PMember, PMembers, PString, Clean,
         Faithful, Nesting, NestingOf, ReadsPrefix, Terminated, Blank, Closed, StringText, Rest, MemberEnd, Indent,
         Break, Printable;
    var last, m := i + 1 == |v.members|, v.members[i];
    var after := MemberEnd(last, fmt) + Rest(v, i + 1, fmt, d, render);
    MemberFacts(v, i, render, read);
    NestedMax(v, i);
    NestedSome(v);
    LastRest(v, fmt, d, render);
    EndByte(fmt, d);
    if depth + Nesting(m.value) > NESTING_LIMIT {
      if !last {
        MembersFrom(v, i + 1, fmt, d, render);
        CommaNext([COMMA], Break(fmt), Indent(fmt, d + 1), FromName(v, i + 1, fmt, d, render));
      }
      MemberTooDeep(m, fmt, d + 1, render, read, c, q, depth, after);
      PMembersFail(c, off, depth, members, read);
    } else {
      var z := MemberStop(m, fmt, d + 1, render, q);
      var w, f := Break(fmt) + Indent(fmt, d + 1), FromName(v, i + 1, fmt, d, render);
      MembersFrom(v, i + 1, fmt, d, render);
      CommaNext([COMMA], Break(fmt), Indent(fmt, d + 1), f);
      MemberBack(m, fmt, d + 1, render, read, c, q, depth, after);
      AtByte(c, z, after, 0);
      SkipOne(c, z);
      PMembersStep(c, off, depth, members, read, m, z);
      AtParts(c, z, [COMMA], w + f);
      QuoteFirst(v.members[i + 1].name);
      SkipOver(c, z + 1, w, f);
      MembersTooDeep(v, i + 1, fmt, d, render, read, c, z, z + 1 + |w|, depth, members + [m]);
    }
  }

  // Parsing what was printed: the value comes back exactly if arrays and objects nest at most 1000 deep.
  lemma RoundTripExactly<N(!new)>(v: Value<N>, fmt: bool, render: N -> seq<Byte>, read: seq<Byte> -> Reading<N>)
    requires ReadsPrefix(read) && Clean(v, render) && Faithful(v, render, read)
    ensures Nesting(v) <= NESTING_LIMIT <==>
      Parse(Text(v, fmt, 0, render), true, read) == Done(v, |Text(v, fmt, 0, render)|)
    ensures Nesting(v) > NESTING_LIMIT ==> Parse(Text(v, fmt, 0, render), true, read).Fail?
  {
    if Nesting(v) <= NESTING_LIMIT {
      RoundTrip(v, fmt, render, read);
    } else {
      var s := Text(v, fmt, 0, render);
      var c := s + [0];
      FirstByte(v, fmt, 0, render);
      hide Text, PValue, Clean, Faithful, Nesting;
      assert c[0] == s[0] && c[|s|] == 0 && |c| == |s| + 1;
      assert c[0..|s|] == s;
      BomFirst(c);
      SkipOne(c, 0);
      ValueTooDeep(v, fmt, 0, render, read, c, 0, 0);
    }
  }
}
