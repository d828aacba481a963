// Printing into a buffer that is fixed or grows, and how much room it takes.
module JsonPrint {
  import opened Octets
  import opened JsonText

  const INT_MAX: nat := 0x7fff_ffff

  // Strings without NUL bytes, and numbers whose text fits the buffer of print_number.
  ghost predicate Plain<N>(v: Value<N>, render: N -> seq<Byte>)
    decreases v
  {
    match v
    case Number(n) => Printable(render(n)) && |render(n)| <= 25
    case String(s) => Printable(s)
    case Array(items) => forall i :: 0 <= i < |items| ==> Plain(items[i], render)
    case Object(members) =>
      forall i :: 0 <= i < |members| ==> Printable(members[i].name) && Plain(members[i].value, render)
    case _ => true
  }

  // ------------------------------------------------------------------ what the texts hold

  lemma {:induction false} EscapedSum(a: seq<Byte>, b: seq<Byte>)
    ensures EscapedAll(a + b) == EscapedAll(a) + EscapedAll(b)
    decreases |a|
  {
    if a == [] {
      assert a + b == b;
    } else {
      assert (a + b)[1..] == a[1..] + b;
      EscapedSum(a[1..], b);
    }
  }

  lemma EscapedNext(s: seq<Byte>, i: nat)
    requires i < |s|
    ensures EscapedAll(s[..i + 1]) == EscapedAll(s[..i]) + Escaped(s[i])
  {
    assert s[..i + 1] == s[..i] + [s[i]];
    EscapedSum(s[..i], [s[i]]);
    assert EscapedAll([s[i]]) == Escaped(s[i]) + EscapedAll([]);
  }

  lemma {:induction false} EscapedPlain(s: seq<Byte>)
    requires Printable(s)
    ensures Printable(EscapedAll(s))
  {
    if s != [] {
      EscapedPlain(s[1..]);
    }
  }

  lemma {:induction false} TextPlain<N>(v: Value<N>, fmt: bool, d: nat, render: N -> seq<Byte>)
    requires Plain(v, render)
    ensures Printable(Text(v, fmt, d, render))
    decreases v, Children(v) + 1
  {
    match v
    case String(s) =>
      EscapedPlain(s);
    case Array(items) =>
      ElementsPlain(v, 0, fmt, d + 1, render);
    case Object(members) =>
      MembersPlain(v, 0, fmt, d + 1, render);
    case _ =>
  }

  lemma {:induction false} ElementsPlain<N>(v: Value<N>, i: nat, fmt: bool, d: nat, render: N -> seq<Byte>)
    requires v.Array? && i <= |v.items| && Plain(v, render)
    ensures Printable(Elements(v, i, fmt, d, render))
    decreases v, |v.items| - i
  {
    if i < |v.items| {
      TextPlain(v.items[i], fmt, d, render);
      ElementsPlain(v, i + 1, fmt, d, render);
    }
  }

  lemma {:induction false} MembersPlain<N>(v: Value<N>, i: nat, fmt: bool, d: nat, render: N -> seq<Byte>)
    requires v.Object? && i <= |v.members| && Plain(v, render)
    ensures Printable(Members(v, i, fmt, d, render))
    decreases v, |v.members| - i
  {
    hide Text, Printable, NameText, MemberEnd;
    if i < |v.members| {
      var m := v.members[i];
      NamePrintable(m.name, fmt, d);
      TextPlain(m.value, fmt, d, render);
      EndPrintable(i + 1 == |v.members|, fmt);
      MembersPlain(v, i + 1, fmt, d, render);
      BothPrintable(NameText(m.name, fmt, d), Text(m.value, fmt, d, render));
      BothPrintable(NameText(m.name, fmt, d) + Text(m.value, fmt, d, render), MemberEnd(i + 1 == |v.members|, fmt));
      BothPrintable(NameText(m.name, fmt, d) + Text(m.value, fmt, d, render) + MemberEnd(i + 1 == |v.members|, fmt),
                    Members(v, i + 1, fmt, d, render));
    } else {
      NothingPrintable();
    }
  }

  lemma BothPrintable(a: seq<Byte>, b: seq<Byte>)
    requires Printable(a) && Printable(b)
    ensures Printable(a + b)
  {
  }

  lemma NothingPrintable()
    ensures Printable([])
  {
  }

  lemma NamePrintable(name: seq<Byte>, fmt: bool, d: nat)
    requires Printable(name)
    ensures Printable(NameText(name, fmt, d))
  {
    EscapedPlain(name);
  }

  lemma EndPrintable(last: bool, fmt: bool)
    ensures Printable(MemberEnd(last, fmt))
  {
  }

  // ------------------------------------------------------------------ the buffer

  class PrintBuffer {
    var buffer: array<Byte>
    var offset: nat
    var depth: nat
    const noalloc: bool
    const format: bool

    ghost predicate Valid()
      reads this`buffer, this`offset
    {
      buffer.Length <= INT_MAX && (offset < buffer.Length || offset == buffer.Length == 0)
    }

    // What has been printed.
    ghost function Content(): seq<Byte>
      requires Valid()
      reads this`buffer, this`offset, buffer
    {
      buffer[..offset]
    }

    // How far the buffer may reach.
    ghost function Cap(): nat
      reads this`buffer
    {
      if noalloc then buffer.Length else INT_MAX
    }

    constructor (buffer: array<Byte>, noalloc: bool, format: bool)
      requires buffer.Length <= INT_MAX
      ensures Valid() && this.buffer == buffer && offset == 0 && depth == 0
      ensures this.noalloc == noalloc && this.format == format
    {
      this.buffer := buffer;
      this.noalloc := noalloc;
      this.format := format;
      offset := 0;
      depth := 0;
    }

    // ensure: room for `needed` bytes at the offset, and one more.
    method Ensure(needed: nat) returns (ok: bool)
      requires Valid()
      modifies this`buffer
      ensures Valid() && (buffer == old(buffer) || (fresh(buffer) && !noalloc)) && Cap() == old(Cap())
      ensures ok <==> offset + needed + 1 <= Cap()
      ensures ok ==> offset + needed + 1 <= buffer.Length
      ensures buffer[..offset] == old(buffer[..offset])
    {
      if buffer.Length > 0 && offset >= buffer.Length {
        return false;
      }
      if needed > INT_MAX {
        return false;
      }
      var size := needed + offset + 1;
      if size <= buffer.Length {
        return true;
      }
      if noalloc {
        return false;
      }
      var newsize;
      if size > INT_MAX / 2 {
        if size <= INT_MAX {
          newsize := INT_MAX;
        } else {
          return false;
        }
      } else {
        newsize := size * 2;
      }
      var from, newbuffer := buffer, new Byte[newsize];
      for i := 0 to from.Length
        invariant newbuffer[..i] == from[..i]
      {
        newbuffer[i] := from[i];
      }
      assert newbuffer[..offset] == newbuffer[..from.Length][..offset];
      assert from[..offset] == from[..from.Length][..offset];
      buffer := newbuffer;
      ok := true;
    }

    // update_offset: past the string at the offset, which ends at n.
    method UpdateOffset(ghost n: nat)
      requires Valid() && offset <= n < buffer.Length && buffer[n] == 0
      requires forall i :: offset <= i < n ==> buffer[i] != 0
      modifies this`offset
      ensures Valid() && offset == n
    {
      while buffer[offset] != 0
        invariant Valid() && offset <= n
        decreases n - offset
      {
        offset := offset + 1;
      }
    }

    // The text t follows the first n bytes, with a NUL behind it; the offset is in it or at its end.
    ghost predicate Wrote(before: seq<Byte>, t: seq<Byte>)
      reads this`buffer, this`offset, buffer
    {
      && |before| + |t| < buffer.Length && buffer[..|before| + |t|] == before + t
      && buffer[|before| + |t|] == 0 && |before| <= offset <= |before| + |t|
    }

    // Room for `needed` bytes, the word, and a NUL if there is room for one; the offset moves if asked to.
    method Emit(word: seq<Byte>, needed: nat, advance: bool) returns (ok: bool)
      requires Valid() && |word| <= needed
      modifies this`buffer, this`offset, buffer
      ensures Valid() && (buffer == old(buffer) || (fresh(buffer) && !noalloc)) && Cap() == old(Cap())
      ensures ok <==> old(offset) + needed + 1 <= Cap()
      ensures ok && advance ==> Content() == old(Content()) + word && offset == old(offset) + |word|
      ensures ok && needed > |word| ==> Wrote(old(Content()), word)
      ensures depth == old(depth) && (!ok || !advance ==> offset == old(offset) && Content() == old(Content()))
    {
      ok := Ensure(needed);
      if ok {
        ghost var before := buffer[..offset];
        CopyPlain(buffer, offset, word);
        if needed > |word| {
          buffer[offset + |word|] := 0;
          assert buffer[..offset + |word|] == before + word;
        }
        if advance {
          offset := offset + |word|;
        }
      }
    }

    // print_string_ptr
    method PrintString(s: seq<Byte>) returns (ok: bool)
      requires Valid()
      modifies this`buffer, this`offset, buffer
      ensures Valid() && (buffer == old(buffer) || (fresh(buffer) && !noalloc)) && Cap() == old(Cap())
      ensures ok <==> old(offset) + |StringText(s)| + 2 <= Cap()
      ensures ok ==> Wrote(old(Content()), StringText(s))
      ensures offset == old(offset)
    {
      hide StringText;
      var escapes := CountEscapes(s);
      StringSize(s);
      ok := Ensure(|s| + escapes + 3);
      if ok {
        WriteString(buffer, offset, s, escapes);
      }
    }
  }

  lemma StringSize(s: seq<Byte>)
    ensures |StringText(s)| == |EscapedAll(s)| + 2
  {
  }

  // The second pass.
  method WriteString(buffer: array<Byte>, at: nat, s: seq<Byte>, escapes: nat)
    requires |EscapedAll(s)| == |s| + escapes && (escapes == 0 ==> EscapedAll(s) == s)
    requires at + |EscapedAll(s)| + 3 <= buffer.Length
    modifies buffer
    ensures buffer[..at + |EscapedAll(s)| + 2] == old(buffer[..at]) + StringText(s)
    ensures buffer[at + |EscapedAll(s)| + 2] == 0
  {
    hide EscapedAll, StringText;
    ghost var before := buffer[..at];
    var length := |s| + escapes;
    buffer[at] := QUOTE;
    assert buffer[..at + 1] == before + [QUOTE];
    if escapes == 0 {
      CopyPlain(buffer, at + 1, s);
    } else {
      CopyEscaped(buffer, at + 1, s);
    }
    ghost var open := buffer[..at + length + 1];
    buffer[at + length + 1] := QUOTE;
    buffer[at + length + 2] := 0;
    assert buffer[..at + length + 2] == open + [QUOTE];
    Quoted(before, s, open, buffer[..at + length + 2]);
  }

  lemma Quoted(before: seq<Byte>, s: seq<Byte>, a: seq<Byte>, b: seq<Byte>)
    requires a == before + [QUOTE] + EscapedAll(s) && b == a + [QUOTE]
    ensures b == before + StringText(s)
  {
  }

  // The first pass over the string.
  method CountEscapes(s: seq<Byte>) returns (escapes: nat)
    ensures |EscapedAll(s)| == |s| + escapes && (escapes == 0 ==> EscapedAll(s) == s)
  {
    hide Escaped;
    escapes := 0;
    for i := 0 to |s|
      invariant |EscapedAll(s[..i])| == i + escapes
      invariant escapes == 0 ==> EscapedAll(s[..i]) == s[..i]
    {
      EscapedNext(s, i);
      escapes := escapes + Extra(s[i]);
      assert s[..i + 1] == s[..i] + [s[i]];
    }
    assert s[..|s|] == s;
  }

  method CopyPlain(buffer: array<Byte>, at: nat, s: seq<Byte>)
    requires at + |s| <= buffer.Length
    modifies buffer
    ensures buffer[..at + |s|] == old(buffer[..at]) + s
  {
    for i := 0 to |s|
      invariant buffer[..at + i] == old(buffer[..at]) + s[..i]
    {
      buffer[at + i] := s[i];
      assert s[..i + 1] == s[..i] + [s[i]];
    }
    assert s[..|s|] == s;
  }

  method CopyEscaped(buffer: array<Byte>, at: nat, s: seq<Byte>)
    requires at + |EscapedAll(s)| < buffer.Length
    modifies buffer
    ensures buffer[..at + |EscapedAll(s)|] == old(buffer[..at]) + EscapedAll(s)
  {
    hide Escaped;
    var out := at;
    assert s[0..] == s;
    for i := 0 to |s|
      invariant out == at + |EscapedAll(s[..i])| && out + |EscapedAll(s[i..])| == at + |EscapedAll(s)|
      invariant buffer[..out] == old(buffer[..at]) + EscapedAll(s[..i])
    {
      EscapedNext(s, i);
      EscapedRest(s, i);
      out := WriteEscaped(buffer, out, s[i]);
    }
    assert s[..|s|] == s && s[|s|..] == [];
  }

  // The additional characters that escaping costs.
  function Extra(b: Byte): (n: nat)
    ensures |Escaped(b)| == 1 + n && (n == 0 ==> Escaped(b) == [b])
  {
    if b == QUOTE || b == BACKSLASH || b == 8 || b == 12 || b == 10 || b == 13 || b == 9 then 1
    else if b < 32 then 5 else 0
  }

  lemma EscapedRest(s: seq<Byte>, i: nat)
    requires i < |s|
    ensures |EscapedAll(s[i..])| == |Escaped(s[i])| + |EscapedAll(s[i + 1..])|
  {
    assert s[i..][1..] == s[i + 1..];
  }

  // One byte of a string; the NUL of sprintf lands behind it.
  method WriteEscaped(buffer: array<Byte>, at: nat, b: Byte) returns (out: nat)
    requires at + |Escaped(b)| < buffer.Length
    modifies buffer
    ensures out == at + |Escaped(b)| && buffer[..out] == old(buffer[..at]) + Escaped(b)
  {
    hide HexDigit;
    out := at;
    if b > 31 && b != QUOTE && b != BACKSLASH {
      buffer[out] := b;
    } else {
      buffer[out] := BACKSLASH;
      out := out + 1;
      match b
      case 92 => buffer[out] := BACKSLASH;
      case 34 => buffer[out] := QUOTE;
      case 8 => buffer[out] := 98;
      case 12 => buffer[out] := 102;
      case 10 => buffer[out] := 110;
      case 13 => buffer[out] := 114;
      case 9 => buffer[out] := 116;
      case _ =>
        WriteUnicode(buffer, out, b);
        out := out + 4;
    }
    out := out + 1;
  }

  // The case of other control characters.
  method WriteUnicode(buffer: array<Byte>, out: nat, b: Byte)
    requires out + 5 < buffer.Length
    modifies buffer
    ensures buffer[..out + 5] == old(buffer[..out]) + [117, 48, 48, HexDigit(b / 16), HexDigit(b % 16)]
  {
    hide HexDigit;
    buffer[out], buffer[out + 1], buffer[out + 2] := 117, 48, 48;
    buffer[out + 3], buffer[out + 4] := HexDigit(b / 16), HexDigit(b % 16);
    buffer[out + 5] := 0;
  }

  // ------------------------------------------------------------------ values

  lemma WordText<N>(v: Value<N>, fmt: bool, d: nat, render: N -> seq<Byte>)
    ensures v.Null? ==> Text(v, fmt, d, render) == NULL_TEXT
    ensures v.False? ==> Text(v, fmt, d, render) == FALSE_TEXT
    ensures v.True? ==> Text(v, fmt, d, render) == TRUE_TEXT
    ensures v.Number? ==> Text(v, fmt, d, render) == render(v.n)
    ensures v.String? ==> Text(v, fmt, d, render) == StringText(v.s)
  {
  }

  // print_value: it succeeds exactly if the buffer can hold the text, its NUL and one byte more.
  method PrintValue<N>(v: Value<N>, p: PrintBuffer, render: N -> seq<Byte>) returns (ok: bool)
    requires p.Valid() && Plain(v, render)
    modifies p, p.buffer
    ensures p.Valid() && (p.buffer == old(p.buffer) || (fresh(p.buffer) && !p.noalloc)) && p.Cap() == old(p.Cap())
    ensures ok <==> old(p.offset) + |Text(v, p.format, old(p.depth), render)| + 2 <= p.Cap()
    ensures ok ==> p.Wrote(old(p.Content()), Text(v, p.format, old(p.depth), render)) && p.depth == old(p.depth)
    decreases v, Children(v) + 2
  {
    hide Text, Plain, StringText;
    WordText(v, p.format, p.depth, render);
    match v
    case Null =>
      ok := p.Emit(NULL_TEXT, 5, false);
    case False =>
      ok := p.Emit(FALSE_TEXT, 6, false);
    case True =>
      ok := p.Emit(TRUE_TEXT, 5, false);
    case Number(n) =>
      ok := p.Emit(render(n), |render(n)| + 1, true);
    case String(s) =>
      ok := p.PrintString(s);
    case Array(_) =>
      ok := PrintArray(v, p, render);
    case Object(_) =>
      ok := PrintObject(v, p, render);
  }

  // print_value and update_offset
  method PrintChild<N>(v: Value<N>, p: PrintBuffer, render: N -> seq<Byte>) returns (ok: bool)
    requires p.Valid() && Plain(v, render)
    modifies p, p.buffer
    ensures p.Valid() && (p.buffer == old(p.buffer) || (fresh(p.buffer) && !p.noalloc)) && p.Cap() == old(p.Cap())
    ensures var t := Text(v, p.format, old(p.depth), render);
      && (ok <==> old(p.offset) + |t| + 2 <= p.Cap())
      && (ok ==> p.offset == old(p.offset) + |t| && p.Content() == old(p.Content()) + t)
    ensures ok ==> p.depth == old(p.depth)
    decreases v, Children(v) + 3
  {
    hide Text, Plain;
    TextPlain(v, p.format, p.depth, render);
    ghost var before, t := p.buffer[..p.offset], Text(v, p.format, p.depth, render);
    ok := PrintValue(v, p, render);
    if ok {
      forall i | p.offset <= i < |before| + |t|
        ensures p.buffer[i] != 0
      {
        assert p.buffer[i] == p.buffer[..|before| + |t|][i] == (before + t)[i] == t[i - |before|];
      }
      p.UpdateOffset(|before| + |t|);
    }
  }

  // print_array
  method PrintArray<N>(v: Value<N>, p: PrintBuffer, render: N -> seq<Byte>) returns (ok: bool)
    requires v.Array? && p.Valid() && Plain(v, render)
    modifies p, p.buffer
    ensures p.Valid() && (p.buffer == old(p.buffer) || (fresh(p.buffer) && !p.noalloc)) && p.Cap() == old(p.Cap())
    ensures ok <==> old(p.offset) + |Text(v, p.format, old(p.depth), render)| + 2 <= p.Cap()
    ensures ok ==> p.Wrote(old(p.Content()), Text(v, p.format, old(p.depth), render)) && p.depth == old(p.depth)
    decreases v, Children(v) + 1
  {
    hide Text, Plain, Elements, ElementPart, PrintBuffer.Content, PrintBuffer.Wrote;
    ghost var before, d, t := p.Content(), p.depth + 1, Text(v, p.format, p.depth, render);
    ArrayText(v, p.format, p.depth, render);
    ok := p.Emit([OPEN_ARRAY], 1, true);
    if !ok {
      return;
    }
    p.depth := p.depth + 1;
    ghost var e := Elements(v, 0, p.format, d, render);
    ok := PrintElements(v, p, render);
    if !ok {
      return;
    }
    ok := p.Emit([CLOSE_ARRAY], 2, false);
    p.depth := p.depth - 1;
    assert before + [OPEN_ARRAY] + e == before + ([OPEN_ARRAY] + e);
    if ok {
      Closing(p, before, [OPEN_ARRAY] + e, [CLOSE_ARRAY]);
    }
  }

  // What the buffer holds is the text up to its end.
  lemma Closing(p: PrintBuffer, before: seq<Byte>, done: seq<Byte>, close: seq<Byte>)
    requires p.Wrote(before + done, close)
    ensures p.Wrote(before, done + close)
  {
    assert before + done + close == before + (done + close);
  }

  function ElementPart<N>(v: Value<N>, i: nat, fmt: bool, d: nat, render: N -> seq<Byte>): seq<Byte>
    requires v.Array? && i < |v.items|
  {
    Text(v.items[i], fmt, d, render) + if i + 1 < |v.items| then ElementGap(fmt) else []
  }

  // The loop of print_array.
  method PrintElements<N>(v: Value<N>, p: PrintBuffer, render: N -> seq<Byte>) returns (ok: bool)
    requires v.Array? && p.Valid() && Plain(v, render)
    modifies p, p.buffer
    ensures p.Valid() && (p.buffer == old(p.buffer) || (fresh(p.buffer) && !p.noalloc)) && p.Cap() == old(p.Cap())
    ensures var t := Elements(v, 0, p.format, old(p.depth), render);
      && (ok <==> v.items == [] || old(p.offset) + |t| + 2 <= p.Cap())
      && (ok ==> p.offset == old(p.offset) + |t| && p.Content() == old(p.Content()) + t)
    ensures ok ==> p.depth == old(p.depth)
    decreases v, Children(v)
  {
    hide Text, Plain, Elements, ElementPart, PrintBuffer.Content, PrintBuffer.Wrote;
    ghost var before, d, t := p.Content(), p.depth, Elements(v, 0, p.format, p.depth, render);
    ghost var done := [];
    assert before + done == before;
    ok := true;
    for i := 0 to |v.items|
      invariant p.Valid() && (p.buffer == old(p.buffer) || (fresh(p.buffer) && !p.noalloc)) && p.Cap() == old(p.Cap())
      invariant p.Content() == before + done && p.offset == old(p.offset) + |done| && p.depth == d
      invariant t == done + Elements(v, i, p.format, d, render)
      invariant i > 0 ==> p.offset + 2 <= p.Cap()
      invariant ok
    {
      ElementText(v, i, p.format, d, render);
      ghost var e := ElementPart(v, i, p.format, d, render);
      Onward(before, done, e, Elements(v, i + 1, p.format, d, render));
      ok := PrintElement(v, i, p, render);
      if !ok {
        return;
      }
      done := done + e;
    }
    NoElements(v, p.format, d, render);
    assert t == done;
  }

  // One round of the loop of print_array.
  method PrintElement<N>(v: Value<N>, i: nat, p: PrintBuffer, render: N -> seq<Byte>) returns (ok: bool)
    requires v.Array? && i < |v.items| && p.Valid() && Plain(v.items[i], render)
    modifies p, p.buffer
    ensures p.Valid() && (p.buffer == old(p.buffer) || (fresh(p.buffer) && !p.noalloc)) && p.Cap() == old(p.Cap())
    ensures var t := ElementPart(v, i, p.format, old(p.depth), render);
      && (ok <==> old(p.offset) + |t| + 2 <= p.Cap())
      && (ok ==> p.offset == old(p.offset) + |t| && p.Content() == old(p.Content()) + t)
    ensures ok ==> p.depth == old(p.depth)
    decreases v, 0
  {
    hide Text, Plain, PrintBuffer.Content, PrintBuffer.Wrote;
    ghost var before, e := p.Content(), Text(v.items[i], p.format, p.depth, render);
    ok := PrintChild(v.items[i], p, render);
    if ok && i + 1 < |v.items| {
      ok := p.Emit(ElementGap(p.format), |ElementGap(p.format)| + 1, true);
      assert before + e + ElementGap(p.format) == before + (e + ElementGap(p.format));
    } else {
      assert e + [] == e;
    }
  }

  lemma ArrayText<N>(v: Value<N>, fmt: bool, d: nat, render: N -> seq<Byte>)
    requires v.Array?
    ensures Text(v, fmt, d, render) == [OPEN_ARRAY] + Elements(v, 0, fmt, d + 1, render) + [CLOSE_ARRAY]
  {
  }

  lemma ElementText<N>(v: Value<N>, i: nat, fmt: bool, d: nat, render: N -> seq<Byte>)
    requires v.Array? && i < |v.items|
    ensures Elements(v, i, fmt, d, render) == ElementPart(v, i, fmt, d, render) + Elements(v, i + 1, fmt, d, render)
    ensures Plain(v, render) ==> Plain(v.items[i], render)
  {
    hide Text;
  }

  lemma NoElements<N>(v: Value<N>, fmt: bool, d: nat, render: N -> seq<Byte>)
    requires v.Array?
    ensures Elements(v, |v.items|, fmt, d, render) == []
  {
  }

  // What is done grows by a part.
  lemma Onward(before: seq<Byte>, done: seq<Byte>, e: seq<Byte>, rest: seq<Byte>)
    ensures done + (e + rest) == (done + e) + rest
    ensures (before + done) + e == before + (done + e)
  {
  }

  // print_string_ptr and update_offset, for a name
  method PrintName(name: seq<Byte>, p: PrintBuffer) returns (ok: bool)
    requires p.Valid() && Printable(name)
    modifies p, p.buffer
    ensures p.Valid() && (p.buffer == old(p.buffer) || (fresh(p.buffer) && !p.noalloc)) && p.Cap() == old(p.Cap())
    ensures ok <==> old(p.offset) + |StringText(name)| + 2 <= p.Cap()
    ensures ok ==> p.offset == old(p.offset) + |StringText(name)|
    ensures ok ==> p.Content() == old(p.Content()) + StringText(name)
    ensures p.depth == old(p.depth)
  {
    NamePlain(name);
    hide StringText;
    ghost var before, t := p.buffer[..p.offset], StringText(name);
    ok := p.PrintString(name);
    if ok {
      forall i | p.offset <= i < |before| + |t|
        ensures p.buffer[i] != 0
      {
        assert p.buffer[i] == p.buffer[..|before| + |t|][i] == (before + t)[i] == t[i - |before|];
      }
      p.UpdateOffset(|before| + |t|);
    }
  }

  lemma NamePlain(s: seq<Byte>)
    requires Printable(s)
    ensures Printable(StringText(s))
  {
    EscapedPlain(s);
  }

  // The text of one member of an object.
  function MemberText<N>(m: Member<N>, last: bool, fmt: bool, d: nat, render: N -> seq<Byte>): seq<Byte> {
    NameText(m.name, fmt, d) + Text(m.value, fmt, d, render) + MemberEnd(last, fmt)
  }

  // One round of the loop of print_object.
  method PrintMember<N>(m: Member<N>, last: bool, p: PrintBuffer, render: N -> seq<Byte>) returns (ok: bool)
    requires p.Valid() && Plain(m.value, render) && Printable(m.name)
    modifies p, p.buffer
    ensures p.Valid() && (p.buffer == old(p.buffer) || (fresh(p.buffer) && !p.noalloc)) && p.Cap() == old(p.Cap())
    ensures var t := MemberText(m, last, p.format, old(p.depth), render);
      && (ok <==> old(p.offset) + |t| + 2 <= p.Cap())
      && (ok ==> p.offset == old(p.offset) + |t| && p.Content() == old(p.Content()) + t)
    ensures ok ==> p.depth == old(p.depth)
    decreases m.value, Children(m.value) + 4
  {
    ghost var before, v, s := p.Content(), Text(m.value, p.format, p.depth, render), StringText(m.name);
    var tabs, colon := if p.format then Tabs(p.depth) else [], if p.format then [COLON, TAB] else [COLON];
    var end := MemberEnd(last, p.format);
    MemberParts(m, last, p.format, p.depth, render);
    hide Text, Plain, StringText, MemberText, MemberEnd, Tabs, PrintBuffer.Content, PrintBuffer.Wrote;
    FiveParts(before, tabs, s, colon, v, end);
    if p.format {
      ok := p.Emit(tabs, p.depth, true);
      if !ok {
        return;
      }
    } else {
      assert before + [] == before;
    }
    ok := PrintName(m.name, p);
    if !ok {
      return;
    }
    ok := p.Emit(colon, |colon|, true);
    if !ok {
      return;
    }
    ok := PrintChild(m.value, p, render);
    if !ok {
      return;
    }
    ok := p.Emit(end, |end| + 1, true);
  }

  lemma MemberParts<N>(m: Member<N>, last: bool, fmt: bool, d: nat, render: N -> seq<Byte>)
    ensures MemberText(m, last, fmt, d, render) == (if fmt then Tabs(d) else []) + StringText(m.name)
      + (if fmt then [COLON, TAB] else [COLON]) + Text(m.value, fmt, d, render) + MemberEnd(last, fmt)
  {
    hide Text, StringText, Tabs, MemberEnd;
  }

  lemma FiveParts(before: seq<Byte>, a: seq<Byte>, b: seq<Byte>, c: seq<Byte>, d: seq<Byte>, e: seq<Byte>)
    ensures before + (a + b + c + d + e) == before + a + b + c + d + e
  {
  }

  // print_object
  method PrintObject<N>(v: Value<N>, p: PrintBuffer, render: N -> seq<Byte>) returns (ok: bool)
    requires v.Object? && p.Valid() && Plain(v, render)
    modifies p, p.buffer
    ensures p.Valid() && (p.buffer == old(p.buffer) || (fresh(p.buffer) && !p.noalloc)) && p.Cap() == old(p.Cap())
    ensures ok <==> old(p.offset) + |Text(v, p.format, old(p.depth), render)| + 2 <= p.Cap()
    ensures ok ==> p.Wrote(old(p.Content()), Text(v, p.format, old(p.depth), render)) && p.depth == old(p.depth)
    decreases v, Children(v) + 1
  {
    hide Text, Plain, Members, MemberText, Tabs, PrintBuffer.Content, PrintBuffer.Wrote;
    ghost var before, d, t := p.Content(), p.depth, Text(v, p.format, p.depth, render);
    ObjectText(v, p.format, p.depth, render);
    var open := if p.format then [OPEN_OBJECT, NEWLINE] else [OPEN_OBJECT];
    ok := p.Emit(open, |open| + 1, true);
    if !ok {
      return;
    }
    p.depth := p.depth + 1;
    ghost var m := Members(v, 0, p.format, d + 1, render);
    ok := PrintMembers(v, p, render);
    if !ok {
      return;
    }
    var close := (if p.format then Tabs(p.depth - 1) else []) + [CLOSE_OBJECT];
    ok := p.Emit(close, if p.format then p.depth + 1 else 2, false);
    p.depth := p.depth - 1;
    assert before + open + m == before + (open + m);
    if ok {
      Closing(p, before, open + m, close);
    }
  }

  // The loop of print_object.
  method PrintMembers<N>(v: Value<N>, p: PrintBuffer, render: N -> seq<Byte>) returns (ok: bool)
    requires v.Object? && p.Valid() && Plain(v, render)
    modifies p, p.buffer
    ensures p.Valid() && (p.buffer == old(p.buffer) || (fresh(p.buffer) && !p.noalloc)) && p.Cap() == old(p.Cap())
    ensures var t := Members(v, 0, p.format, old(p.depth), render);
      && (ok <==> v.members == [] || old(p.offset) + |t| + 2 <= p.Cap())
      && (ok ==> p.offset == old(p.offset) + |t| && p.Content() == old(p.Content()) + t)
    ensures ok ==> p.depth == old(p.depth)
    decreases v, Children(v)
  {
    hide Text, Plain, Members, MemberText, PrintBuffer.Content, PrintBuffer.Wrote;
    ghost var before, d, t := p.Content(), p.depth, Members(v, 0, p.format, p.depth, render);
    ghost var done := [];
    assert before + done == before;
    ok := true;
    for i := 0 to |v.members|
      invariant p.Valid() && (p.buffer == old(p.buffer) || (fresh(p.buffer) && !p.noalloc)) && p.Cap() == old(p.Cap())
      invariant p.Content() == before + done && p.offset == old(p.offset) + |done| && p.depth == d
      invariant t == done + Members(v, i, p.format, d, render)
      invariant i > 0 ==> p.offset + 2 <= p.Cap()
      invariant ok
    {
      MembersText(v, i, p.format, d, render);
      ghost var m := MemberText(v.members[i], i + 1 == |v.members|, p.format, d, render);
      Onward(before, done, m, Members(v, i + 1, p.format, d, render));
      ok := PrintMember(v.members[i], i + 1 == |v.members|, p, render);
      if !ok {
        return;
      }
      done := done + m;
    }
    NoMembers(v, p.format, d, render);
    assert t == done;
  }

  lemma ObjectText<N>(v: Value<N>, fmt: bool, d: nat, render: N -> seq<Byte>)
    requires v.Object?
    ensures Text(v, fmt, d, render) == (if fmt then [OPEN_OBJECT, NEWLINE] else [OPEN_OBJECT])
      + Members(v, 0, fmt, d + 1, render) + ((if fmt then Tabs(d) else []) + [CLOSE_OBJECT])
  {
    assert [OPEN_OBJECT] + [NEWLINE] == [OPEN_OBJECT, NEWLINE];
    hide Members, Tabs;
  }

  lemma MembersText<N>(v: Value<N>, i: nat, fmt: bool, d: nat, render: N -> seq<Byte>)
    requires v.Object? && i < |v.members|
    ensures Members(v, i, fmt, d, render)
      == MemberText(v.members[i], i + 1 == |v.members|, fmt, d, render) + Members(v, i + 1, fmt, d, render)
    ensures Plain(v, render) ==> Plain(v.members[i].value, render) && Printable(v.members[i].name)
  {
    hide Text, NameText, MemberEnd;
  }

  lemma NoMembers<N>(v: Value<N>, fmt: bool, d: nat, render: N -> seq<Byte>)
    requires v.Object?
    ensures Members(v, |v.members|, fmt, d, render) == []
  {
  }

  // ------------------------------------------------------------------ the entry points

  // cJSON_PrintPreallocated: it fits exactly if there are two bytes more than the text, and stays inside the buffer.
  method PrintPreallocated<N>(v: Value<N>, buf: array<Byte>, fmt: bool, render: N -> seq<Byte>) returns (ok: bool)
    requires buf.Length <= INT_MAX && Plain(v, render)
    modifies buf
    ensures ok <==> |Text(v, fmt, 0, render)| + 2 <= buf.Length
    ensures ok ==> buf[..|Text(v, fmt, 0, render)|] == Text(v, fmt, 0, render) && buf[|Text(v, fmt, 0, render)|] == 0
  {
    hide Text, Plain;
    var p := new PrintBuffer(buf, true, fmt);
    assert p.Content() == [];
    ok := PrintValue(v, p, render);
    assert [] + Text(v, fmt, 0, render) == Text(v, fmt, 0, render);
  }

  // print, for cJSON_Print and cJSON_PrintUnformatted: the text and its NUL, for every text below INT_MAX - 1 bytes.
  method Print<N>(v: Value<N>, fmt: bool, render: N -> seq<Byte>) returns (printed: array?<Byte>)
    requires Plain(v, render)
    ensures printed == null <==> |Text(v, fmt, 0, render)| + 2 > INT_MAX
    ensures printed != null ==> fresh(printed) && printed[..] == Text(v, fmt, 0, render) + [0]
  {
    hide Text, Plain;
    var buffer := new Byte[256];
    var p := new PrintBuffer(buffer, false, fmt);
    assert p.Content() == [];
    var ok := PrintChild(v, p, render);
    if !ok {
      return null;
    }
    assert [] + Text(v, fmt, 0, render) == Text(v, fmt, 0, render);
    printed := new Byte[p.offset + 1];
    for i := 0 to p.offset
      invariant printed[..i] == p.Content()[..i]
      modifies printed
    {
      printed[i] := p.buffer[i];
    }
    printed[p.offset] := 0;
    assert printed[..] == printed[..p.offset] + [0];
  }
}
