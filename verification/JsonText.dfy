// JSON values and the text that printing gives them.
module JsonText {
  import opened Octets

  const TAB: Byte := 9
  const NEWLINE: Byte := 10
  const SPACE: Byte := 32
  const QUOTE: Byte := 34
  const COMMA: Byte := 44
  const SLASH: Byte := 47
  const COLON: Byte := 58
  const OPEN_ARRAY: Byte := 91
  const BACKSLASH: Byte := 92
  const CLOSE_ARRAY: Byte := 93
  const OPEN_OBJECT: Byte := 123
  const CLOSE_OBJECT: Byte := 125

  const NULL_TEXT: seq<Byte> := [110, 117, 108, 108]
  const TRUE_TEXT: seq<Byte> := [116, 114, 117, 101]
  const FALSE_TEXT: seq<Byte> := [102, 97, 108, 115, 101]

  // A value of cJSON, with its children in order. N is the type of numbers.
  datatype Value<N> =
    | Null
    | False
    | True
    | Number(n: N)
    | String(s: seq<Byte>)
    | Array(items: seq<Value<N>>)
    | Object(members: seq<Member<N>>)

  datatype Member<N> = Member(name: seq<Byte>, value: Value<N>)

  // ------------------------------------------------------------------ strings

  function HexDigit(d: nat): Byte
    requires d < 16
  {
    if d < 10 then 48 + d else 87 + d
  }

  // How print_string_ptr writes one byte.
  function Escaped(b: Byte): seq<Byte> {
    if b > 31 && b != QUOTE && b != BACKSLASH then [b]
    else if b == BACKSLASH then [BACKSLASH, BACKSLASH]
    else if b == QUOTE then [BACKSLASH, QUOTE]
    else if b == 8 then [BACKSLASH, 98]
    else if b == 12 then [BACKSLASH, 102]
    else if b == 10 then [BACKSLASH, 110]
    else if b == 13 then [BACKSLASH, 114]
    else if b == 9 then [BACKSLASH, 116]
    else [BACKSLASH, 117, 48, 48, HexDigit(b / 16), HexDigit(b % 16)]
  }

  function EscapedAll(s: seq<Byte>): seq<Byte> {
    if s == [] then [] else Escaped(s[0]) + EscapedAll(s[1..])
  }

  function StringText(s: seq<Byte>): seq<Byte> { [QUOTE] + EscapedAll(s) + [QUOTE] }

  // ------------------------------------------------------------------ values

  function Tabs(n: nat): (r: seq<Byte>)
    ensures |r| == n && forall i :: 0 <= i < n ==> r[i] == TAB
  {
    seq(n, i => TAB)
  }

  function Children<N>(v: Value<N>): nat {
    match v
    case Array(items) => |items|
    case Object(members) => |members|
    case _ => 0
  }

  // What print_value writes at a nesting depth; fmt asks for the formatted text.
  function Text<N>(v: Value<N>, fmt: bool, depth: nat, render: N -> seq<Byte>): seq<Byte>
    decreases v, Children(v) + 1
  {
    match v
    case Null => NULL_TEXT
    case False => FALSE_TEXT
    case True => TRUE_TEXT
    case Number(n) => render(n)
    case String(s) => StringText(s)
    case Array(items) => [OPEN_ARRAY] + Elements(v, 0, fmt, depth + 1, render) + [CLOSE_ARRAY]
    case Object(members) =>
      [OPEN_OBJECT] + (if fmt then [NEWLINE] else []) + Members(v, 0, fmt, depth + 1, render)
      + (if fmt then Tabs(depth) else []) + [CLOSE_OBJECT]
  }

  // Elements i and on of an array.
  function Elements<N>(v: Value<N>, i: nat, fmt: bool, depth: nat, render: N -> seq<Byte>): seq<Byte>
    requires v.Array? && i <= |v.items|
    decreases v, |v.items| - i
  {
    if i == |v.items| then []
    else
      Text(v.items[i], fmt, depth, render)
      + (if i + 1 < |v.items| then ElementGap(fmt) else [])
      + Elements(v, i + 1, fmt, depth, render)
  }

  function ElementGap(fmt: bool): seq<Byte> { if fmt then [COMMA, SPACE] else [COMMA] }

  function NameText(name: seq<Byte>, fmt: bool, depth: nat): seq<Byte> {
    (if fmt then Tabs(depth) else []) + StringText(name) + (if fmt then [COLON, TAB] else [COLON])
  }

  function MemberEnd(last: bool, fmt: bool): seq<Byte> {
    (if last then [] else [COMMA]) + if fmt then [NEWLINE] else []
  }

  // Members i and on of an object.
  function Members<N>(v: Value<N>, i: nat, fmt: bool, depth: nat, render: N -> seq<Byte>): seq<Byte>
    requires v.Object? && i <= |v.members|
    decreases v, |v.members| - i
  {
    if i == |v.members| then []
    else
      NameText(v.members[i].name, fmt, depth)
      + Text(v.members[i].value, fmt, depth, render)
      + MemberEnd(i + 1 == |v.members|, fmt)
      + Members(v, i + 1, fmt, depth, render)
  }

  // ------------------------------------------------------------------ what can be printed and read back

  predicate IsDigit(b: Byte) { 48 <= b <= 57 }

  // The characters that parse_number collects.
  predicate NumberByte(b: Byte) { IsDigit(b) || b == 43 || b == 45 || b == 46 || b == 101 || b == 69 }

  predicate Printable(s: seq<Byte>) { forall i :: 0 <= i < |s| ==> s[i] != 0 }

  // The text of a number: up to 25 of those characters, the first a digit or a minus sign.
  predicate NumberText(t: seq<Byte>) {
    1 <= |t| <= 25 && (IsDigit(t[0]) || t[0] == 45) && forall i :: 0 <= i < |t| ==> NumberByte(t[i])
  }

  // Strings without NUL bytes, and numbers whose text is one.
  ghost predicate Clean<N>(v: Value<N>, render: N -> seq<Byte>)
    decreases v
  {
    match v
    case Number(n) => NumberText(render(n))
    case String(s) => Printable(s)
    case Array(items) => forall i :: 0 <= i < |items| ==> Clean(items[i], render)
    case Object(members) =>
      forall i :: 0 <= i < |members| ==> Printable(members[i].name) && Clean(members[i].value, render)
    case _ => true
  }

  // How deep arrays and objects nest.
  function Nesting<N>(v: Value<N>): nat
    decreases v, Children(v) + 1
  {
    match v
    case Array(items) => 1 + NestingOf(v, 0)
    case Object(members) => 1 + NestingOf(v, 0)
    case _ => 0
  }

  function NestingOf<N>(v: Value<N>, i: nat): nat
    requires i <= Children(v)
    decreases v, Children(v) - i
  {
    if i == Children(v) then 0
    else
      var rest := NestingOf(v, i + 1);
      var n := match v
        case Array(items) => Nesting(items[i])
        case Object(members) => Nesting(members[i].value)
        case _ => 0;
      if n > rest then n else rest
  }
}
