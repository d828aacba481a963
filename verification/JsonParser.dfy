// The parser of cJSON as it runs: a buffer with an offset and a depth, and an output for each string.
module JsonParser {
  import opened Common
  import opened Octets
  import opened JsonText
  import opened JsonParse

  // ------------------------------------------------------------------ the size of a string's output

  // The escape sequences that start before x, for a scan that starts at q.
  function Escapes(c: seq<Byte>, q: nat, x: nat): (n: nat)
    requires x <= |c|
    ensures q <= x ==> n <= x - q
    decreases x - q
  {
    if q >= x then 0
    else if c[q] == BACKSLASH then 1 + Escapes(c, q + 2, x)
    else Escapes(c, q + 1, x)
  }

  // The room that the bytes before x may take in the output.
  function Room(c: seq<Byte>, q: nat, x: nat): int
    requires x <= |c|
  {
    x - q - Escapes(c, q, x)
  }

  // One more byte: more room, except where an escape sequence starts; two never start side by side.
  lemma {:induction false} RoomGrows(c: seq<Byte>, q: nat, x: nat)
    requires q <= x < |c|
    ensures Room(c, q, x) <= Room(c, q, x + 1) <= Room(c, q, x) + 1
    ensures c[x] != BACKSLASH ==> Room(c, q, x + 1) == Room(c, q, x) + 1
    ensures x + 1 < |c| ==> Room(c, q, x + 2) >= Room(c, q, x) + 1
    decreases x - q
  {
    if q < x {
      if c[q] != BACKSLASH {
        RoomGrows(c, q + 1, x);
      } else if q + 2 <= x {
        RoomGrows(c, q + 2, x);
      }
    }
  }

  // The room for a \u sequence suffices for the bytes it stands for, even if its digits are none.
  lemma RoomForLiteral(c: seq<Byte>, q: nat, p: nat, end: nat)
    requires q <= p < end < |c| && c[p] == BACKSLASH && c[p + 1] == 117 && Literal(c, p, end).Some?
    ensures var (bytes, n) := Literal(c, p, end).value; Room(c, q, p) + |bytes| <= Room(c, q, p + n)
  {
    hide Room;
    Six(c, q, p);
    Utf8Length(Hex4(c, p + 2));
    if Literal(c, p, end).value.1 == 12 {
      Six(c, q, p + 6);
    }
  }

  lemma Six(c: seq<Byte>, q: nat, p: nat)
    requires q <= p && p + 6 <= |c| && c[p + 1] == 117
    ensures Room(c, q, p + 6) >= Room(c, q, p) + if Hex4(c, p + 2) == 0 then 3 else 5
  {
    hide Room;
    RoomGrows(c, q, p);
    RoomGrows(c, q, p + 2);
    RoomGrows(c, q, p + 4);
    if Hex4(c, p + 2) != 0 {
      RoomGrows(c, q, p + 1);
      RoomGrows(c, q, p + 3);
      RoomGrows(c, q, p + 5);
    }
  }

  lemma Utf8Length(p: nat)
    requires p < 0x110000
    ensures |Utf8(p)| == if p < 0x80 then 1 else if p < 0x800 then 2 else if p < 0x10000 then 3 else 4
  {
  }

  // The bytes that the character or escape sequence at p stands for, and its length.
  function Unit(c: seq<Byte>, p: nat, end: nat): Option<(seq<Byte>, nat)>
    requires p < end < |c|
  {
    if c[p] != BACKSLASH then Some(([c[p]], 1))
    else
      match c[p + 1]
      case 98 => Some(([8], 2))
      case 102 => Some(([12], 2))
      case 110 => Some(([10], 2))
      case 114 => Some(([13], 2))
      case 116 => Some(([9], 2))
      case 34 => Some(([QUOTE], 2))
      case 92 => Some(([BACKSLASH], 2))
      case 47 => Some(([SLASH], 2))
      case 117 => Literal(c, p, end)
      case _ => None
  }

  lemma UnescapeStep(c: seq<Byte>, p: nat, end: nat, out: seq<Byte>)
    requires p < end < |c|
    ensures Unit(c, p, end).None? ==> Unescape(c, p, end, out) == Fail(p)
    ensures Unit(c, p, end).Some? ==> var (bytes, n) := Unit(c, p, end).value;
      Unescape(c, p, end, out) == Unescape(c, p + n, end, out + bytes)
  {
    hide Literal;
  }

  lemma RoomForUnit(c: seq<Byte>, q: nat, p: nat, end: nat)
    requires q <= p < end < |c| && Unit(c, p, end).Some?
    ensures var (bytes, n) := Unit(c, p, end).value;
      1 <= n && p + n <= end + 1 && Room(c, q, p) + |bytes| <= Room(c, q, p + n)
  {
    hide Room, Literal;
    RoomGrows(c, q, p);
    if c[p] == BACKSLASH && c[p + 1] == 117 {
      RoomForLiteral(c, q, p, end);
    }
  }

  lemma {:induction false} RoomMonotone(c: seq<Byte>, q: nat, x: nat, y: nat)
    requires q <= x <= y <= |c|
    ensures Room(c, q, x) <= Room(c, q, y)
    decreases y - x
  {
    if x < y {
      hide Room;
      RoomGrows(c, q, x);
      RoomMonotone(c, q, x + 1, y);
    }
  }

  // The second loop of parse_string. It may step past the closing quote, if that was swallowed by an escape sequence.
  method UnescapeInto(c: seq<Byte>, start: nat, end: nat, output: array<Byte>) returns (ok: bool, p: nat, out: nat)
    requires start <= end < |c| && output.Length == Room(c, start, end) + 2
    modifies output
    ensures ok ==> out < output.Length && Unescape(c, start, end, []) == Done(output[..out], end + 1)
    ensures !ok ==> Unescape(c, start, end, []) == Fail(p)
  {
    hide Unescape, Unit, Room;
    p, out := start, 0;
    RoomStart(c, start);
    RoomGrows(c, start, end);
    while p < end
      invariant start <= p <= end + 1 && out <= Room(c, start, p) && out <= output.Length
      invariant Unescape(c, p, end, output[..out]) == Unescape(c, start, end, [])
    {
      UnescapeStep(c, p, end, output[..out]);
      if Unit(c, p, end).Some? {
        RoomForUnit(c, start, p, end);
        RoomMonotone(c, start, p + Unit(c, p, end).value.1, end + 1);
      }
      var n, written := WriteUnit(c, p, end, output, out);
      if n == 0 {
        return false, p, out;
      }
      p, out := p + n, out + written;
    }
    RoomMonotone(c, start, p, end + 1);
    Unescaped(c, p, end, output[..out]);
    ok := true;
  }

  lemma RoomStart(c: seq<Byte>, q: nat)
    requires q <= |c|
    ensures Room(c, q, q) == 0
  {
  }

  lemma Unescaped(c: seq<Byte>, p: nat, end: nat, out: seq<Byte>)
    requires end < |c| && p >= end
    ensures Unescape(c, p, end, out) == Done(out, end + 1)
  {
  }

  // One round of that loop: how many bytes are read and written, 0 on failure.
  method WriteUnit(c: seq<Byte>, p: nat, end: nat, output: array<Byte>, out: nat) returns (n: nat, written: nat)
    requires p < end < |c| && out <= output.Length
    requires Unit(c, p, end).Some? ==> out + |Unit(c, p, end).value.0| <= output.Length && Unit(c, p, end).value.1 >= 1
    modifies output
    ensures n == 0 <==> Unit(c, p, end).None?
    ensures n != 0 ==> var (bytes, l) := Unit(c, p, end).value;
      n == l && written == |bytes| && output[..out + written] == old(output[..out]) + bytes
  {
    hide Literal;
    n, written := 1, 1;
    if c[p] != BACKSLASH {
      output[out] := c[p];
    } else {
      n := 2;
      match c[p + 1]
      case 98 => output[out] := 8;
      case 102 => output[out] := 12;
      case 110 => output[out] := 10;
      case 114 => output[out] := 13;
      case 116 => output[out] := 9;
      case 34 => output[out] := QUOTE;
      case 92 => output[out] := BACKSLASH;
      case 47 => output[out] := SLASH;
      case 117 =>
        n, written := Utf16ToUtf8(c, p, end, output, out);
      case _ =>
        n := 0;
    }
  }

  // utf16_literal_to_utf8
  method Utf16ToUtf8(c: seq<Byte>, p: nat, end: nat, output: array<Byte>, out: nat) returns (n: nat, written: nat)
    requires p < end < |c| && out <= output.Length
    requires Literal(c, p, end).Some? ==> out + |Literal(c, p, end).value.0| <= output.Length
    modifies output
    ensures n == 0 <==> Literal(c, p, end).None?
    ensures n != 0 ==> var (bytes, l) := Literal(c, p, end).value;
      n == l && written == |bytes| && output[..out + written] == old(output[..out]) + bytes
  {
    hide Hex4, Utf8;
    if end - p < 6 {
      return 0, 0;
    }
    var first, codepoint := Hex4(c, p + 2), 0;
    if 0xDC00 <= first <= 0xDFFF {
      return 0, 0;
    }
    if 0xD800 <= first <= 0xDBFF {
      if end - (p + 6) < 6 || c[p + 6] != BACKSLASH || c[p + 7] != 117 {
        return 0, 0;
      }
      var second := Hex4(c, p + 8);
      if second < 0xDC00 || second > 0xDFFF {
        return 0, 0;
      }
      n, codepoint := 12, 0x10000 + (first - 0xD800) * 0x400 + (second - 0xDC00);
    } else {
      n, codepoint := 6, first;
    }
    written := WriteUtf8(codepoint, output, out);
  }

  // Its last part: the bytes from the last to the first, six bits at a time.
  method WriteUtf8(codepoint: nat, output: array<Byte>, out: nat) returns (written: nat)
    requires codepoint < 0x110000 && out + |Utf8(codepoint)| <= output.Length
    modifies output
    ensures written == |Utf8(codepoint)| && output[..out + written] == old(output[..out]) + Utf8(codepoint)
  {
    hide Utf8, Shifted, Continuation;
    Utf8Bytes(codepoint);
    var mark: nat;
    written, mark := 1, 0;
    if codepoint >= 0x10000 {
      written, mark := 4, 0xF0;
    } else if codepoint >= 0x800 {
      written, mark := 3, 0xE0;
    } else if codepoint >= 0x80 {
      written, mark := 2, 0xC0;
    }
    ghost var before := output[..out];
    var rest, i := codepoint, out + written - 1;
    while i > out
      invariant out <= i < out + written && rest == Shifted(codepoint, out + written - 1 - i)
      invariant output[..out] == before
      invariant forall j :: i < j < out + written ==> output[j] == Continuation(codepoint, out + written - 1 - j)
    {
      ShiftedNext(codepoint, out + written - 1 - i);
      output[i] := 0x80 + rest % 64;
      rest := rest / 64;
      i := i - 1;
    }
    output[out] := mark + rest;
  }

  // Six bits dropped k times.
  function Shifted(n: nat, k: nat): nat { if k == 0 then n else Shifted(n, k - 1) / 64 }

  function Continuation(n: nat, k: nat): Byte { 0x80 + Shifted(n, k) % 64 }

  lemma ShiftedNext(n: nat, k: nat)
    ensures Shifted(n, 0) == n && Shifted(n, k + 1) == Shifted(n, k) / 64
    ensures Continuation(n, k) == 0x80 + Shifted(n, k) % 64
  {
  }

  // The bytes of a code point: its top bits with the mark of the length, then six bits each.
  lemma Utf8Bytes(n: nat)
    requires n < 0x110000
    ensures var w := |Utf8(n)|;
      && w == (if n < 0x80 then 1 else if n < 0x800 then 2 else if n < 0x10000 then 3 else 4)
      && Shifted(n, 0) == n && Shifted(n, w - 1) < 0x100
      && Utf8(n)[0] == [0, 0xC0, 0xE0, 0xF0][w - 1] + Shifted(n, w - 1)
      && forall j :: 1 <= j < w ==> Utf8(n)[j] == Continuation(n, w - 1 - j)
  {
    assert Shifted(n, 1) == n / 64;
    assert Shifted(n, 2) == n / 64 / 64 == n / 4096;
    assert Shifted(n, 3) == n / 64 / 64 / 64 == n / 262144;
  }

  lemma RunStep(c: seq<Byte>, off: nat, n: nat)
    requires off + n <= |c| && n <= 63
    ensures Run(c, off, n)
      == if n < 63 && off + n < |c| && NumberByte(c[off + n]) then Run(c, off, n + 1) else n
  {
  }

  // ------------------------------------------------------------------ the parser

  class ParseBuffer<N(!new)> {
    const content: seq<Byte>
    const read: seq<Byte> -> Reading<N>
    var offset: nat
    var depth: nat

    ghost predicate Valid()
      reads this
    {
      Terminated(content) && ReadsPrefix(read) && offset < |content|
    }

    // s is the text without its NUL.
    constructor (s: seq<Byte>, read: seq<Byte> -> Reading<N>)
      requires ReadsPrefix(read)
      ensures Valid() && content == s + [0] && this.read == read && offset == 0 && depth == 0
    {
      content := s + [0];
      this.read := read;
      offset := 0;
      depth := 0;
    }

    // buffer_skip_whitespace
    method SkipWhitespace()
      requires offset <= |content| && |content| >= 1
      modifies this`offset
      ensures offset == Skip(content, old(offset))
    {
      while offset < |content| && content[offset] <= 32
        invariant offset <= |content| && Skip(content, offset) == Skip(content, old(offset))
      {
        offset := offset + 1;
      }
      if offset == |content| {
        offset := offset - 1;
      }
    }

    // What a method returned and where it left the buffer, against the outcome asked for.
    ghost predicate Agrees<T(!new)>(p: Parsed<T>, r: Option<T>, depth0: nat)
      reads this
    {
      match p
      case Fail(o) => r.None? && offset == o
      case Done(v, o) => r == Some(v) && offset == o && depth == depth0
    }

    // parse_string: the output is allocated for what the first loop counted, and that is never too little.
    method ParseString() returns (r: Option<seq<Byte>>)
      requires Valid()
      modifies this`offset
      ensures Agrees(PString(content, old(offset)), r, old(depth))
    {
      hide Unescape;
      var start := offset;
      if content[start] != QUOTE {
        offset := start + 1;
        return None;
      }
      var end, skipped := FindEnd();
      if end.None? {
        offset := start + 1;
        return None;
      }
      var allocationLength := end.value - start - skipped;
      var output := new Byte[allocationLength + 1];
      var ok, p, out := UnescapeInto(content, start + 1, end.value, output);
      if !ok {
        offset := p;
        return None;
      }
      output[out] := 0;
      offset := end.value + 1;
      r := Some(output[..out]);
    }

    // The first loop of parse_string.
    method FindEnd() returns (end: Option<nat>, skipped: nat)
      requires Valid()
      ensures end == StringEnd(content, offset + 1)
      ensures end.Some? ==> skipped == Escapes(content, offset + 1, end.value)
    {
      var e := offset + 1;
      skipped := 0;
      while e < |content| && content[e] != QUOTE
        invariant e > offset && StringEnd(content, e) == StringEnd(content, offset + 1)
        invariant StringEnd(content, e).Some? ==> var x := StringEnd(content, e).value;
          skipped + Escapes(content, e, x) == Escapes(content, offset + 1, x)
      {
        if content[e] == BACKSLASH {
          if e + 1 >= |content| {
            return None, skipped;
          }
          skipped := skipped + 1;
          e := e + 1;
        }
        e := e + 1;
      }
      end := if e >= |content| then None else Some(e);
    }

    // parse_number
    method ParseNumber() returns (r: Option<N>)
      requires Valid()
      modifies this`offset
      ensures Agrees(PNumber(content, old(offset), read), r, old(depth))
    {
      hide Run, ReadsPrefix, NumberByte;
      var digits := new Byte[64];
      var i := 0;
      while i < 63 && offset + i < |content| && NumberByte(content[offset + i])
        invariant i <= 63 && offset + i <= |content| && digits[..i] == content[offset..offset + i]
        invariant Run(content, offset, i) == Run(content, offset, 0)
        modifies digits
      {
        RunStep(content, offset, i);
        digits[i] := content[offset + i];
        i := i + 1;
      }
      RunStep(content, offset, i);
      digits[i] := 0;
      assert digits[..i] == content[offset..offset + Run(content, offset, 0)];
      match read(digits[..i])
      case NoNumber =>
        r := None;
      case Read(n, used) =>
        offset := offset + used;
        r := Some(n);
    }

    // parse_value
    method ParseValue() returns (r: Option<Value<N>>)
      requires Valid()
      modifies this`offset, this`depth
      ensures Agrees(PValue(content, old(offset), old(depth), read), r, old(depth))
      decreases |content| - offset, 2
    {
      hide PArray, PObject, PString, PNumber, ReadsPrefix;
      if At(content, offset, NULL_TEXT) {
        offset := offset + 4;
        return Some(Null);
      }
      if At(content, offset, FALSE_TEXT) {
        offset := offset + 5;
        return Some(False);
      }
      if At(content, offset, TRUE_TEXT) {
        offset := offset + 4;
        return Some(True);
      }
      if content[offset] == QUOTE {
        var s := ParseString();
        return if s.Some? then Some(String(s.value)) else None;
      }
      if content[offset] == 45 || IsDigit(content[offset]) {
        var n := ParseNumber();
        return if n.Some? then Some(Number(n.value)) else None;
      }
      if content[offset] == OPEN_ARRAY {
        r := ParseArray();
        return;
      }
      if content[offset] == OPEN_OBJECT {
        r := ParseObject();
        return;
      }
      r := None;
    }

    // parse_array
    method ParseArray() returns (r: Option<Value<N>>)
      requires Valid() && content[offset] == OPEN_ARRAY
      modifies this`offset, this`depth
      ensures Agrees(PArray(content, old(offset), old(depth), read), r, old(depth))
      decreases |content| - offset, 1
    {
      hide PElements, ReadsPrefix;
      if depth >= NESTING_LIMIT {
        return None;
      }
      depth := depth + 1;
      offset := offset + 1;
      SkipWhitespace();
      var items := [];
      if content[offset] != CLOSE_ARRAY {
        offset := offset - 1;
        var elements := ParseElements();
        if elements.None? {
          return None;
        }
        items := elements.value;
      } else {
        offset := offset + 1;
      }
      depth := depth - 1;
      r := Some(Array(items));
    }

    // The loop of parse_array, and the step past its bracket.
    method ParseElements() returns (r: Option<seq<Value<N>>>)
      requires Valid() && offset + 1 < |content|
      modifies this`offset, this`depth
      ensures Agrees(PElements(content, old(offset), old(depth), [], read), r, old(depth))
      decreases |content| - offset, 0
    {
      hide PValue, ReadsPrefix;
      var items := [];
      var more := true;
      while more
        invariant Valid() && old(offset) <= offset && depth == old(depth) && (more ==> offset + 1 < |content|)
        invariant more ==> PElements(content, offset, depth, items, read) == PElements(content, old(offset), depth, [],
          read)
        invariant !more && content[offset] == CLOSE_ARRAY ==>
          PElements(content, old(offset), depth, [], read) == Done(items, offset + 1)
        invariant !more && content[offset] != CLOSE_ARRAY ==>
          PElements(content, old(offset), depth, [], read) == Fail(offset)
        decreases more, |content| - offset
      {
        offset := offset + 1;
        SkipWhitespace();
        var v := ParseValue();
        if v.None? {
          return None;
        }
        items := items + [v.value];
        SkipWhitespace();
        more := content[offset] == COMMA;
      }
      if content[offset] != CLOSE_ARRAY {
        return None;
      }
      offset := offset + 1;
      r := Some(items);
    }

    // parse_object
    method ParseObject() returns (r: Option<Value<N>>)
      requires Valid() && content[offset] == OPEN_OBJECT
      modifies this`offset, this`depth
      ensures Agrees(PObject(content, old(offset), old(depth), read), r, old(depth))
      decreases |content| - offset, 1
    {
      hide PMembers, ReadsPrefix;
      if depth >= NESTING_LIMIT {
        return None;
      }
      depth := depth + 1;
      offset := offset + 1;
      SkipWhitespace();
      var members := [];
      if content[offset] != CLOSE_OBJECT {
        offset := offset - 1;
        var all := ParseMembers();
        if all.None? {
          return None;
        }
        members := all.value;
      } else {
        offset := offset + 1;
      }
      depth := depth - 1;
      r := Some(Object(members));
    }

    // The loop of parse_object, and the step past its bracket.
    method ParseMembers() returns (r: Option<seq<Member<N>>>)
      requires Valid() && offset + 1 < |content|
      modifies this`offset, this`depth
      ensures Agrees(PMembers(content, old(offset), old(depth), [], read), r, old(depth))
      decreases |content| - offset, 0
    {
      hide PMember, ReadsPrefix;
      var members := [];
      var more := true;
      while more
        invariant Valid() && old(offset) <= offset && depth == old(depth) && (more ==> offset + 1 < |content|)
        invariant more ==> PMembers(content, offset, depth, members, read) == PMembers(content, old(offset), depth, [],
          read)
        invariant !more && content[offset] == CLOSE_OBJECT ==>
          PMembers(content, old(offset), depth, [], read) == Done(members, offset + 1)
        invariant !more && content[offset] != CLOSE_OBJECT ==>
          PMembers(content, old(offset), depth, [], read) == Fail(offset)
        decreases more, |content| - offset
      {
        offset := offset + 1;
        SkipWhitespace();
        var m := ParseMember();
        if m.None? {
          return None;
        }
        members := members + [m.value];
        SkipWhitespace();
        more := content[offset] == COMMA;
      }
      if content[offset] != CLOSE_OBJECT {
        return None;
      }
      offset := offset + 1;
      r := Some(members);
    }

    // The name, the colon and the value of a member.
    method ParseMember() returns (r: Option<Member<N>>)
      requires Valid()
      modifies this`offset, this`depth
      ensures Agrees(PMember(content, old(offset), old(depth), read), r, old(depth))
      decreases |content| - offset, 3
    {
      hide PString, PValue, ReadsPrefix;
      var name := ParseString();
      if name.None? {
        return None;
      }
      SkipWhitespace();
      if content[offset] != COLON {
        return None;
      }
      offset := offset + 1;
      SkipWhitespace();
      var v := ParseValue();
      r := if v.Some? then Some(Member(name.value, v.value)) else None;
    }
  }

  // cJSON_ParseWithOpts: the item, and where parsing ended or failed.
  method ParseWithOpts<N(!new)>(s: seq<Byte>, toEnd: bool, read: seq<Byte> -> Reading<N>)
    returns (item: Option<Value<N>>, end: nat)
    requires ReadsPrefix(read)
    ensures match Parse(s, toEnd, read)
      case Done(v, o) => item == Some(v) && end == o
      case Fail(o) => item == None && end == if o < |s| + 1 then o else |s|
  {
    hide PValue, Skip, ReadsPrefix;
    var buffer := new ParseBuffer(s, read);
    if 4 < |buffer.content| && buffer.content[..3] == BOM {
      buffer.offset := 3;
    }
    buffer.SkipWhitespace();
    item := buffer.ParseValue();
    if item.Some? && toEnd {
      buffer.SkipWhitespace();
      if buffer.content[buffer.offset] != 0 {
        item := None;
      }
    }
    end := if item.Some? || buffer.offset < |buffer.content| then buffer.offset else |buffer.content| - 1;
  }
}
