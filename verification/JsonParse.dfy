// The recursive descent of cJSON's parser, as functions of the text and the offset.
module JsonParse {
  import opened Common
  import opened Octets
  import opened JsonText

  const NESTING_LIMIT: nat := 1000

  // The outcome of parsing: the offset is where the parser stands afterwards.
  datatype Parsed<T> = Fail(offset: nat) | Done(value: T, offset: nat)

  // What strtod makes of the characters collected: a number and how many of them it used.
  datatype Reading<N> = NoNumber | Read(n: N, used: nat)

  // The text handed to the parser ends with a NUL byte.
  predicate Terminated(c: seq<Byte>) { |c| >= 1 && c[|c| - 1] == 0 }

  ghost predicate ReadsPrefix<N(!new)>(read: seq<Byte> -> Reading<N>) {
    forall s :: read(s).Read? ==> 1 <= read(s).used <= |s|
  }

  // buffer_skip_whitespace
  function Skip(c: seq<Byte>, off: nat): (r: nat)
    requires off <= |c| && |c| >= 1
    ensures r < |c| && (off < |c| ==> off <= r)
    decreases |c| - off
  {
    if off == |c| then off - 1
    else if c[off] > 32 then off
    else Skip(c, off + 1)
  }

  // ------------------------------------------------------------------ strings

  function HexValue(b: Byte): Option<nat> {
    if 48 <= b <= 57 then Some(b - 48)
    else if 65 <= b <= 70 then Some(b - 55)
    else if 97 <= b <= 102 then Some(b - 87)
    else None
  }

  // parse_hex4: 0 if some digit is not one.
  function Hex4(c: seq<Byte>, i: nat): (r: nat)
    requires i + 4 <= |c|
    ensures r < 0x10000
  {
    var (a, b, d, e) := (HexValue(c[i]), HexValue(c[i + 1]), HexValue(c[i + 2]), HexValue(c[i + 3]));
    if a.Some? && b.Some? && d.Some? && e.Some? && a.value < 16 && b.value < 16 && d.value < 16 && e.value < 16 then
      ((a.value * 16 + b.value) * 16 + d.value) * 16 + e.value
    else 0
  }

  // A code point as UTF-8.
  function Utf8(p: nat): seq<Byte>
    requires p < 0x110000
  {
    if p < 0x80 then [p]
    else if p < 0x800 then [0xC0 + p / 64, 0x80 + p % 64]
    else if p < 0x10000 then [0xE0 + p / 4096, 0x80 + p / 64 % 64, 0x80 + p % 64]
    else [0xF0 + p / 262144, 0x80 + p / 4096 % 64, 0x80 + p / 64 % 64, 0x80 + p % 64]
  }

  // utf16_literal_to_utf8: the bytes, and the length of the escape sequence.
  function Literal(c: seq<Byte>, p: nat, end: nat): (r: Option<(seq<Byte>, nat)>)
    requires p < end < |c|
    ensures r.Some? ==> r.value.1 >= 1 && p + r.value.1 <= end
  {
    if end - p < 6 then None
    else
      var first := Hex4(c, p + 2);
      if 0xDC00 <= first <= 0xDFFF then None
      else if 0xD800 <= first <= 0xDBFF then
        if end - (p + 6) < 6 || c[p + 6] != BACKSLASH || c[p + 7] != 117 then None
        else
          var second := Hex4(c, p + 8);
          if second < 0xDC00 || second > 0xDFFF then None
          else Some((Utf8(0x10000 + (first - 0xD800) * 0x400 + (second - 0xDC00)), 12))
      else Some((Utf8(first), 6))
  }

  // The closing quote, passing over escaped characters.
  function StringEnd(c: seq<Byte>, p: nat): (r: Option<nat>)
    ensures r.Some? ==> p <= r.value < |c| && c[r.value] == QUOTE
    decreases |c| - p
  {
    if p >= |c| then None
    else if c[p] == QUOTE then Some(p)
    else if c[p] == BACKSLASH then
      if p + 1 >= |c| then None else StringEnd(c, p + 2)
    else StringEnd(c, p + 1)
  }

  // The loop through the string literal; failing leaves the position.
  function Unescape(c: seq<Byte>, p: nat, end: nat, out: seq<Byte>): Parsed<seq<Byte>>
    requires end < |c|
    decreases |c| - p
  {
    if p >= end then Done(out, end + 1)
    else if c[p] != BACKSLASH then Unescape(c, p + 1, end, out + [c[p]])
    else
      var e := c[p + 1];
      if e == 98 then Unescape(c, p + 2, end, out + [8])
      else if e == 102 then Unescape(c, p + 2, end, out + [12])
      else if e == 110 then Unescape(c, p + 2, end, out + [10])
      else if e == 114 then Unescape(c, p + 2, end, out + [13])
      else if e == 116 then Unescape(c, p + 2, end, out + [9])
      else if e == QUOTE || e == BACKSLASH || e == SLASH then Unescape(c, p + 2, end, out + [e])
      else if e == 117 then
        match Literal(c, p, end)
        case None => Fail(p)
        case Some(l) => Unescape(c, p + l.1, end, out + l.0)
      else Fail(p)
  }

  // parse_string
  function PString(c: seq<Byte>, off: nat): (r: Parsed<seq<Byte>>)
    requires off < |c|
    ensures r.Done? ==> off + 2 <= r.offset <= |c|
  {
    if c[off] != QUOTE then Fail(off + 1)
    else
      match StringEnd(c, off + 1)
      case None => Fail(off + 1)
      case Some(end) =>
        UnescapeEnds(c, off + 1, end, []);
        Unescape(c, off + 1, end, [])
  }

  lemma UnescapeEnds(c: seq<Byte>, p: nat, end: nat, out: seq<Byte>)
    requires end < |c|
    ensures Unescape(c, p, end, out).Done? ==> Unescape(c, p, end, out).offset == end + 1
    decreases |c| - p
  {
  }

  // ------------------------------------------------------------------ numbers

  // How many number characters follow, at most 63.
  function Run(c: seq<Byte>, off: nat, n: nat): (r: nat)
    requires off + n <= |c| && n <= 63
    ensures n <= r <= 63 && off + r <= |c|
    decreases 63 - n
  {
    if n < 63 && off + n < |c| && NumberByte(c[off + n]) then Run(c, off, n + 1) else n
  }

  // parse_number
  function PNumber<N>(c: seq<Byte>, off: nat, read: seq<Byte> -> Reading<N>): (r: Parsed<N>)
    requires off < |c|
  {
    match read(c[off..off + Run(c, off, 0)])
    case NoNumber => Fail(off)
    case Read(n, used) => Done(n, off + used)
  }

  // ------------------------------------------------------------------ values

  predicate At(c: seq<Byte>, off: nat, t: seq<Byte>) { off + |t| <= |c| && c[off..off + |t|] == t }

  // parse_value
  function PValue<N(!new)>(c: seq<Byte>, off: nat, depth: nat, read: seq<Byte> -> Reading<N>): (r: Parsed<Value<N>>)
    requires Terminated(c) && off < |c| && ReadsPrefix(read)
    ensures r.Done? ==> off < r.offset <= |c|
    decreases |c| - off, 2
  {
    if At(c, off, NULL_TEXT) then Done(Null, off + 4)
    else if At(c, off, FALSE_TEXT) then Done(False, off + 5)
    else if At(c, off, TRUE_TEXT) then Done(True, off + 4)
    else if c[off] == QUOTE then
      match PString(c, off)
      case Fail(o) => Fail(o)
      case Done(s, o) => Done(String(s), o)
    else if c[off] == 45 || IsDigit(c[off]) then
      match PNumber(c, off, read)
      case Fail(o) => Fail(o)
      case Done(n, o) => Done(Number(n), o)
    else if c[off] == OPEN_ARRAY then PArray(c, off, depth, read)
    else if c[off] == OPEN_OBJECT then PObject(c, off, depth, read)
    else Fail(off)
  }

  // parse_array
  function PArray<N(!new)>(c: seq<Byte>, off: nat, depth: nat, read: seq<Byte> -> Reading<N>): (r: Parsed<Value<N>>)
    requires Terminated(c) && off < |c| && ReadsPrefix(read) && c[off] == OPEN_ARRAY
    ensures r.Done? ==> off < r.offset <= |c|
    decreases |c| - off, 1
  {
    if depth >= NESTING_LIMIT then Fail(off)
    else
      var o := Skip(c, off + 1);
      if c[o] == CLOSE_ARRAY then Done(Array([]), o + 1)
      else
        match PElements(c, o - 1, depth + 1, [], read)
        case Fail(p) => Fail(p)
        case Done(items, p) => Done(Array(items), p)
  }

  // The loop over the elements; off is just before one.
  function PElements<N(!new)>(c: seq<Byte>, off: nat, depth: nat, items: seq<Value<N>>,
                              read: seq<Byte> -> Reading<N>): (r: Parsed<seq<Value<N>>>)
    requires Terminated(c) && off + 1 < |c| && ReadsPrefix(read)
    ensures r.Done? ==> off < r.offset <= |c|
    decreases |c| - off, 0
  {
    var o := Skip(c, off + 1);
    match PValue(c, o, depth, read)
    case Fail(p) => Fail(p)
    case Done(v, p) =>
      var q := Skip(c, p);
      if c[q] == COMMA then PElements(c, q, depth, items + [v], read)
      else if c[q] == CLOSE_ARRAY then Done(items + [v], q + 1)
      else Fail(q)
  }

  // parse_object
  function PObject<N(!new)>(c: seq<Byte>, off: nat, depth: nat, read: seq<Byte> -> Reading<N>): (r: Parsed<Value<N>>)
    requires Terminated(c) && off < |c| && ReadsPrefix(read) && c[off] == OPEN_OBJECT
    ensures r.Done? ==> off < r.offset <= |c|
    decreases |c| - off, 1
  {
    if depth >= NESTING_LIMIT then Fail(off)
    else
      var o := Skip(c, off + 1);
      if c[o] == CLOSE_OBJECT then Done(Object([]), o + 1)
      else
        match PMembers(c, o - 1, depth + 1, [], read)
        case Fail(p) => Fail(p)
        case Done(members, p) => Done(Object(members), p)
  }

  // A name, a colon and a value.
  function PMember<N(!new)>(c: seq<Byte>, off: nat, depth: nat, read: seq<Byte> -> Reading<N>): (r: Parsed<Member<N>>)
    requires Terminated(c) && off < |c| && ReadsPrefix(read)
    ensures r.Done? ==> off < r.offset <= |c|
    decreases |c| - off, 3
  {
    match PString(c, off)
    case Fail(p) => Fail(p)
    case Done(name, p) =>
      var q := Skip(c, p);
      if c[q] != COLON then Fail(q)
      else
        match PValue(c, Skip(c, q + 1), depth, read)
        case Fail(z) => Fail(z)
        case Done(v, z) => Done(Member(name, v), z)
  }

  // The loop over the members; off is just before one.
  function PMembers<N(!new)>(c: seq<Byte>, off: nat, depth: nat, members: seq<Member<N>>,
                             read: seq<Byte> -> Reading<N>): (r: Parsed<seq<Member<N>>>)
    requires Terminated(c) && off + 1 < |c| && ReadsPrefix(read)
    ensures r.Done? ==> off < r.offset <= |c|
    decreases |c| - off, 0
  {
    match PMember(c, Skip(c, off + 1), depth, read)
    case Fail(z) => Fail(z)
    case Done(m, z) =>
      var q := Skip(c, z);
      if c[q] == COMMA then PMembers(c, q, depth, members + [m], read)
      else if c[q] == CLOSE_OBJECT then Done(members + [m], q + 1)
      else Fail(q)
  }

  // ------------------------------------------------------------------ cJSON_ParseWithOpts

  const BOM: seq<Byte> := [0xEF, 0xBB, 0xBF]

  // skip_utf8_bom
  function SkipBom(c: seq<Byte>): (r: nat)
    ensures r <= |c| && (|c| >= 1 ==> r < |c|)
  {
    if 4 < |c| && c[..3] == BOM then 3 else 0
  }

  // s is the text without its NUL; toEnd asks that only blanks follow the value.
  function Parse<N(!new)>(s: seq<Byte>, toEnd: bool, read: seq<Byte> -> Reading<N>): Parsed<Value<N>>
    requires ReadsPrefix(read)
  {
    var c := s + [0];
    match PValue(c, Skip(c, SkipBom(c)), 0, read)
    case Fail(o) => Fail(o)
    case Done(v, o) =>
      if !toEnd then Done(v, o)
      else if c[Skip(c, o)] != 0 then Fail(Skip(c, o))
      else Done(v, Skip(c, o))
  }
}
