// Minifying in place, and what it makes of printed text.
module JsonMinify {
  import opened Common
  import opened Octets
  import opened JsonText
  import opened JsonParse
  import opened JsonRoundTrip

  const STAR: Byte := 42

  predicate White(b: Byte) { b == SPACE || b == TAB || b == 13 || b == NEWLINE }

  // ------------------------------------------------------------------ the units that are dropped or kept whole

  // The end of the line, or of the text.
  function LineEnd(s: seq<Byte>, p: nat): (r: nat)
    requires p <= |s|
    ensures p <= r <= |s| && forall i :: p <= i < r ==> s[i] != NEWLINE
    ensures r < |s| ==> s[r] == NEWLINE
    decreases |s| - p
  {
    if p == |s| || s[p] == NEWLINE then p else LineEnd(s, p + 1)
  }

  // Just behind the star and slash.
  function CommentEnd(s: seq<Byte>, p: nat): (r: Option<nat>)
    requires p <= |s|
    ensures r.Some? ==> p + 2 <= r.value <= |s| && s[r.value - 2] == STAR && s[r.value - 1] == SLASH
    ensures r.None? ==> forall i :: p <= i < |s| - 1 ==> s[i] != STAR || s[i + 1] != SLASH
    decreases |s| - p
  {
    if p + 1 >= |s| then None
    else if s[p] == STAR && s[p + 1] == SLASH then Some(p + 2)
    else CommentEnd(s, p + 1)
  }

  predicate LineComment(s: seq<Byte>, p: nat) { p + 1 < |s| && s[p] == SLASH && s[p + 1] == SLASH }

  predicate BlockComment(s: seq<Byte>, p: nat) { p + 1 < |s| && s[p] == SLASH && s[p + 1] == STAR }

  predicate Dropped(s: seq<Byte>, p: nat)
    requires p < |s|
  {
    White(s[p]) || LineComment(s, p) || BlockComment(s, p)
  }

  // Where the unit at p ends: a blank, a comment, a string literal or one other byte. None if nothing closes it.
  function UnitEnd(s: seq<Byte>, p: nat): (r: Option<nat>)
    requires p < |s|
    ensures r.Some? ==> p < r.value <= |s|
  {
    if White(s[p]) then Some(p + 1)
    else if LineComment(s, p) then Some(LineEnd(s, p))
    else if BlockComment(s, p) then CommentEnd(s, p)
    else if s[p] == QUOTE then
      match StringEnd(s, p + 1)
      case None => None
      case Some(q) => Some(q + 1)
    else Some(p + 1)
  }

  // From p on every literal and every block comment is closed.
  predicate AllClosed(s: seq<Byte>, p: nat)
    decreases |s| - p
  {
    p >= |s| || (UnitEnd(s, p).Some? && AllClosed(s, UnitEnd(s, p).value))
  }

  function Minified(s: seq<Byte>, p: nat): (r: seq<Byte>)
    requires AllClosed(s, p)
    ensures |r| <= if p <= |s| then |s| - p else 0
    decreases |s| - p
  {
    if p >= |s| then []
    else
      var q := UnitEnd(s, p).value;
      (if Dropped(s, p) then [] else s[p..q]) + Minified(s, q)
  }

  // ------------------------------------------------------------------ what cJSON_Minify reads

  // Where the code stands: at the loop over the text, in a line comment, in a block comment, in a string literal, or at
  // the byte behind a backslash.
  datatype Place = Between | InLine | InBlock | InLiteral | Escaped

  // From position p on the code looks at no byte behind the NUL at n. Each step looks at byte p, or at p and p + 1.
  predicate StaysInside(c: seq<Byte>, n: nat, place: Place, p: nat)
    requires n < |c|
    decreases n + 2 - p, if place == InLine then 1 else 0
  {
    p <= n &&
    match place
    case Between =>
      if c[p] == 0 then true
      else if White(c[p]) then StaysInside(c, n, Between, p + 1)
      else if c[p] == SLASH then
        && p + 1 <= n
        && if c[p + 1] == SLASH then StaysInside(c, n, InLine, p + 1)
           else if c[p + 1] == STAR then StaysInside(c, n, InBlock, p + 1)
           else StaysInside(c, n, Between, p + 1)
      else if c[p] == QUOTE then StaysInside(c, n, InLiteral, p + 1)
      else StaysInside(c, n, Between, p + 1)
    case InLine =>
      if c[p] == 0 || c[p] == NEWLINE then StaysInside(c, n, Between, p) else StaysInside(c, n, InLine, p + 1)
    case InBlock =>
      if c[p] == 0 then StaysInside(c, n, Between, p + 2)
      else if c[p] == STAR then
        p + 1 <= n && if c[p + 1] == SLASH then StaysInside(c, n, Between, p + 2) else StaysInside(c, n, InBlock, p + 1)
      else StaysInside(c, n, InBlock, p + 1)
    case InLiteral =>
      if c[p] == 0 || c[p] == QUOTE then StaysInside(c, n, Between, p + 1)
      else if c[p] == BACKSLASH then StaysInside(c, n, Escaped, p + 1)
      else StaysInside(c, n, InLiteral, p + 1)
    case Escaped => StaysInside(c, n, InLiteral, p + 1)
  }

  // A text, its NUL, and anything behind.
  predicate TextOf(c: seq<Byte>, n: nat, s: seq<Byte>) { n == |s| < |c| && c[..n] == s && c[n] == 0 && Printable(s) }

  lemma {:induction false} LineInside(c: seq<Byte>, n: nat, s: seq<Byte>, p: nat)
    requires TextOf(c, n, s) && p <= n
    ensures StaysInside(c, n, InLine, p) <==> StaysInside(c, n, Between, LineEnd(s, p))
    decreases n - p
  {
    if p < n && s[p] != NEWLINE {
      LineInside(c, n, s, p + 1);
    }
  }

  lemma {:induction false} BlockInside(c: seq<Byte>, n: nat, s: seq<Byte>, p: nat)
    requires TextOf(c, n, s) && p <= n
    ensures StaysInside(c, n, InBlock, p)
      <==> CommentEnd(s, p).Some? && StaysInside(c, n, Between, CommentEnd(s, p).value)
    decreases n - p
  {
    if p < n && !(p + 1 < n && s[p] == STAR && s[p + 1] == SLASH) {
      BlockInside(c, n, s, p + 1);
    }
  }

  lemma {:induction false} LiteralInside(c: seq<Byte>, n: nat, s: seq<Byte>, p: nat)
    requires TextOf(c, n, s) && p <= n
    ensures StaysInside(c, n, InLiteral, p)
      <==> StringEnd(s, p).Some? && StaysInside(c, n, Between, StringEnd(s, p).value + 1)
    decreases n - p
  {
    if p < n && s[p] != QUOTE {
      if s[p] != BACKSLASH {
        LiteralInside(c, n, s, p + 1);
      } else if p + 1 < n {
        LiteralInside(c, n, s, p + 2);
      } else {
        assert !StaysInside(c, n, InLiteral, p + 2);
      }
    }
  }

  // The code looks at no byte behind the NUL if and only if every literal and every block comment is closed.
  lemma {:induction false} InsideExactly(c: seq<Byte>, n: nat, s: seq<Byte>, p: nat)
    requires TextOf(c, n, s) && p <= n
    ensures StaysInside(c, n, Between, p) <==> AllClosed(s, p)
    decreases n - p
  {
    if p < n {
      if UnitEnd(s, p).Some? {
        InsideExactly(c, n, s, UnitEnd(s, p).value);
      }
      if LineComment(s, p) {
        LineInside(c, n, s, p + 1);
      } else if BlockComment(s, p) {
        BlockInside(c, n, s, p + 1);
      } else if s[p] == QUOTE {
        LiteralInside(c, n, s, p + 1);
      }
    }
  }

  // The text of one quote, whatever lies behind it, is not read safely; nor is the beginning of a comment.
  lemma OneQuote(rest: seq<Byte>)
    ensures !StaysInside([QUOTE, 0] + rest, 1, Between, 0) && !AllClosed([QUOTE], 0)
    ensures !StaysInside([SLASH, STAR, 0] + rest, 2, Between, 0) && !AllClosed([SLASH, STAR], 0)
  {
    var c := [QUOTE, 0] + rest;
    assert TextOf(c, 1, [QUOTE]);
    InsideExactly(c, 1, [QUOTE], 0);
    assert StringEnd([QUOTE], 1) == None;
    var d := [SLASH, STAR, 0] + rest;
    assert TextOf(d, 2, [SLASH, STAR]);
    InsideExactly(d, 2, [SLASH, STAR], 0);
    assert CommentEnd([SLASH, STAR], 0) == CommentEnd([SLASH, STAR], 1) == None;
  }

  // ------------------------------------------------------------------ cJSON_Minify

  // The text ends with the NUL at n. Every unit is closed: only then the code stays inside the text.
  method Minify(json: array<Byte>, ghost n: nat)
    requires n < json.Length && json[n] == 0 && Printable(json[..n]) && AllClosed(json[..n], 0)
    modifies json
    ensures var m := Minified(old(json[..n]), 0);
      && |m| <= n && json[..|m|] == m && json[|m|] == 0
      && forall i :: |m| < i < json.Length ==> json[i] == old(json[i])
  {
    hide AllClosed, Minified, UnitEnd, Dropped, LineComment, BlockComment, White;
    ghost var s := json[..n];
    var p, into := 0, 0;
    assert json[..0] + Minified(s, 0) == Minified(s, 0);
    while json[p] != 0
      invariant into <= p <= n && AllClosed(s, p)
      invariant forall i :: into <= i < json.Length ==> json[i] == old(json[i])
      invariant json[..into] + Minified(s, p) == Minified(s, 0)
      decreases n - p
    {
      MinifiedStep(s, p);
      p, into := MinifyUnit(json, p, into, s);
    }
    assert p == n;
    MinifiedEnd(s);
    json[into] := 0;
  }

  // One round of the outer loop.
  method MinifyUnit(json: array<Byte>, from: nat, to: nat, ghost s: seq<Byte>) returns (p: nat, into: nat)
    requires to <= from < |s| && Holds(json, s, from) && UnitEnd(s, from).Some?
    modifies json
    ensures p == UnitEnd(s, from).value && to <= into <= p
    ensures json[..into] == old(json[..to]) + if Dropped(s, from) then [] else s[from..p]
    ensures forall i :: into <= i < json.Length ==> json[i] == old(json[i])
  {
    p, into := from, to;
    if json[p] == SPACE || json[p] == TAB || json[p] == 13 || json[p] == NEWLINE {
      p := p + 1;
    } else if json[p] == SLASH && json[p + 1] == SLASH {
      p := PassLine(json, p, s);
    } else if json[p] == SLASH && json[p + 1] == STAR {
      p := PassComment(json, p, s);
    } else if json[p] == QUOTE {
      p, into := KeepLiteral(json, p, into, s);
    } else {
      json[into] := json[p];
      p, into := p + 1, into + 1;
    }
  }

  // From `from` on the array is the text, up to its NUL.
  ghost predicate Holds(json: array<Byte>, s: seq<Byte>, from: nat)
    reads json
  {
    |s| < json.Length && json[|s|] == 0 && Printable(s) && forall i :: from <= i < |s| ==> json[i] == s[i]
  }

  method PassLine(json: array<Byte>, from: nat, ghost s: seq<Byte>) returns (p: nat)
    requires from <= |s| && Holds(json, s, from)
    ensures p == LineEnd(s, from)
  {
    p := from;
    while json[p] != 0 && json[p] != NEWLINE
      invariant from <= p <= |s| && LineEnd(s, p) == LineEnd(s, from)
      decreases |s| - p
    {
      p := p + 1;
    }
  }

  method PassComment(json: array<Byte>, from: nat, ghost s: seq<Byte>) returns (p: nat)
    requires from <= |s| && Holds(json, s, from) && CommentEnd(s, from).Some?
    ensures p == CommentEnd(s, from).value
  {
    p := from;
    while json[p] != 0 && !(json[p] == STAR && json[p + 1] == SLASH)
      invariant from <= p <= |s| && CommentEnd(s, p) == CommentEnd(s, from)
      decreases |s| - p
    {
      p := p + 1;
    }
    p := p + 2;
  }

  method KeepLiteral(json: array<Byte>, from: nat, to: nat, ghost s: seq<Byte>) returns (p: nat, into: nat)
    requires to <= from < |s| && Holds(json, s, from) && s[from] == QUOTE && StringEnd(s, from + 1).Some?
    modifies json
    ensures p == StringEnd(s, from + 1).value + 1 && to <= into <= p
    ensures json[..into] == old(json[..to]) + s[from..p]
    ensures forall i :: into <= i < json.Length ==> json[i] == old(json[i])
  {
    hide StringEnd;
    ghost var end, before := StringEnd(s, from + 1), json[..to];
    p, into := KeepByte(json, from, to, s, from, before);
    while json[p] != 0 && json[p] != QUOTE
      invariant from < p <= end.value && StringEnd(s, p) == end && to <= into <= p
      invariant Holds(json, s, p) && json[..into] == before + s[from..p]
      invariant forall i :: into <= i < json.Length ==> json[i] == old(json[i])
      decreases |s| - p
    {
      EndStep(s, p);
      if json[p] == BACKSLASH {
        p, into := KeepByte(json, p, into, s, from, before);
      }
      p, into := KeepByte(json, p, into, s, from, before);
    }
    EndStep(s, p);
    p, into := KeepByte(json, p, into, s, from, before);
  }

  lemma EndStep(s: seq<Byte>, p: nat)
    requires p < |s| && StringEnd(s, p).Some?
    ensures s[p] == QUOTE ==> StringEnd(s, p) == Some(p)
    ensures s[p] == BACKSLASH ==>
      p + 1 < |s| && StringEnd(s, p + 2) == StringEnd(s, p) && p + 2 <= StringEnd(s, p).value
    ensures s[p] != QUOTE && s[p] != BACKSLASH ==>
      StringEnd(s, p + 1) == StringEnd(s, p) && p + 1 <= StringEnd(s, p).value
  {
  }

  method KeepByte(json: array<Byte>, from: nat, to: nat, ghost s: seq<Byte>, ghost start: nat, ghost before: seq<Byte>)
    returns (p: nat, into: nat)
    requires to <= from < |s| && Holds(json, s, from) && start <= from && json[..to] == before + s[start..from]
    modifies json
    ensures p == from + 1 && into == to + 1 && Holds(json, s, p) && json[..into] == before + s[start..p]
    ensures forall i :: into <= i < json.Length ==> json[i] == old(json[i])
  {
    json[to] := json[from];
    p, into := from + 1, to + 1;
    assert json[..into] == old(json[..to]) + [s[from]] && s[start..p] == s[start..from] + [s[from]];
  }

  lemma MinifiedStep(s: seq<Byte>, p: nat)
    requires p < |s| && AllClosed(s, p)
    ensures UnitEnd(s, p).Some? && AllClosed(s, UnitEnd(s, p).value)
    ensures Minified(s, p) == (if Dropped(s, p) then [] else s[p..UnitEnd(s, p).value])
      + Minified(s, UnitEnd(s, p).value)
  {
  }

  lemma MinifiedEnd(s: seq<Byte>)
    requires AllClosed(s, |s|)
    ensures Minified(s, |s|) == []
  {
  }

  // ------------------------------------------------------------------ minifying printed text

  // At p stands t, which minifying turns into u, whatever follows.
  ghost predicate Squeezes(c: seq<Byte>, p: nat, t: seq<Byte>, u: seq<Byte>) {
    && p + |t| <= |c|
    && (AllClosed(c, p + |t|) ==> AllClosed(c, p) && Minified(c, p) == u + Minified(c, p + |t|))
  }

  lemma Both(c: seq<Byte>, p: nat, t: seq<Byte>, u: seq<Byte>, t': seq<Byte>, u': seq<Byte>)
    requires Squeezes(c, p, t, u) && Squeezes(c, p + |t|, t', u')
    ensures Squeezes(c, p, t + t', u + u')
  {
    hide AllClosed, Minified;
    if AllClosed(c, p + |t| + |t'|) {
      assert u + (u' + Minified(c, p + |t| + |t'|)) == (u + u') + Minified(c, p + |t| + |t'|);
    }
  }

  // Neither a blank nor the start of a comment or of a literal.
  predicate Solid(t: seq<Byte>) {
    forall i :: 0 <= i < |t| ==> !White(t[i]) && t[i] != SLASH && t[i] != QUOTE
  }

  lemma {:induction false} SolidKept(c: seq<Byte>, p: nat, t: seq<Byte>)
    requires At(c, p, t) && Solid(t)
    ensures Squeezes(c, p, t, t)
    decreases |t|
  {
    if t == [] {
      Nothing(c, p);
    } else {
      assert t == [t[0]] + t[1..];
      AtParts(c, p, [t[0]], t[1..]);
      AtByte(c, p, t, 0);
      ByteKept(c, p);
      SolidKept(c, p + 1, t[1..]);
      Both(c, p, [t[0]], [t[0]], t[1..], t[1..]);
    }
  }

  lemma Nothing(c: seq<Byte>, p: nat)
    requires p <= |c|
    ensures Squeezes(c, p, [], [])
  {
    hide AllClosed, Minified;
    if AllClosed(c, p) {
      assert [] + Minified(c, p) == Minified(c, p);
    }
  }

  lemma ByteKept(c: seq<Byte>, p: nat)
    requires p < |c| && Solid([c[p]])
    ensures Squeezes(c, p, [c[p]], [c[p]])
  {
    assert [c[p]][0] == c[p];
    assert c[p..p + 1] == [c[p]];
  }

  predicate Whites(t: seq<Byte>) { forall i :: 0 <= i < |t| ==> White(t[i]) }

  lemma {:induction false} BlanksGone(c: seq<Byte>, p: nat, t: seq<Byte>)
    requires At(c, p, t) && Whites(t)
    ensures Squeezes(c, p, t, [])
    decreases |t|
  {
    if t == [] {
      Nothing(c, p);
    } else {
      assert t == [t[0]] + t[1..];
      AtParts(c, p, [t[0]], t[1..]);
      AtByte(c, p, t, 0);
      assert Squeezes(c, p, [t[0]], []);
      BlanksGone(c, p + 1, t[1..]);
      Both(c, p, [t[0]], [], t[1..], []);
    }
  }

  // A printed string is kept byte for byte.
  lemma StringKept(c: seq<Byte>, p: nat, s: seq<Byte>)
    requires At(c, p, StringText(s))
    ensures Squeezes(c, p, StringText(s), StringText(s))
  {
    assert StringText(s) == [QUOTE] + (EscapedAll(s) + [QUOTE]);
    AtParts(c, p, [QUOTE], EscapedAll(s) + [QUOTE]);
    AtByte(c, p, [QUOTE], 0);
    EndFound(c, p + 1, s);
    assert UnitEnd(c, p) == Some(p + |StringText(s)|);
  }

  // The text of every number is made of solid bytes.
  ghost predicate SolidNumbers<N>(v: Value<N>, render: N -> seq<Byte>)
    decreases v
  {
    match v
    case Number(n) => Solid(render(n))
    case Array(items) => forall i :: 0 <= i < |items| ==> SolidNumbers(items[i], render)
    case Object(members) => forall i :: 0 <= i < |members| ==> SolidNumbers(members[i].value, render)
    case _ => true
  }

  lemma {:induction false} ValueSqueezed<N>(v: Value<N>, fmt: bool, d: nat, render: N -> seq<Byte>, c: seq<Byte>,
                                            p: nat)
    requires SolidNumbers(v, render) && At(c, p, Text(v, fmt, d, render))
    ensures Squeezes(c, p, Text(v, fmt, d, render), Text(v, false, d, render))
    decreases v, Children(v) + 1
  {
    hide At, Squeezes, StringText, Elements, Members;
    match v
    case Null =>
      SolidKept(c, p, NULL_TEXT);
    case False =>
      SolidKept(c, p, FALSE_TEXT);
    case True =>
      SolidKept(c, p, TRUE_TEXT);
    case Number(n) =>
      SolidKept(c, p, render(n));
    case String(s) =>
      StringKept(c, p, s);
    case Array(items) =>
      var t, u := Elements(v, 0, fmt, d + 1, render), Elements(v, 0, false, d + 1, render);
      AtParts(c, p, [OPEN_ARRAY] + t, [CLOSE_ARRAY]);
      AtParts(c, p, [OPEN_ARRAY], t);
      SolidKept(c, p, [OPEN_ARRAY]);
      ElementsSqueezed(v, 0, fmt, d + 1, render, c, p + 1);
      SolidKept(c, p + 1 + |t|, [CLOSE_ARRAY]);
      Both(c, p, [OPEN_ARRAY], [OPEN_ARRAY], t, u);
      Both(c, p, [OPEN_ARRAY] + t, [OPEN_ARRAY] + u, [CLOSE_ARRAY], [CLOSE_ARRAY]);
    case Object(members) =>
      ObjectSqueezed(v, fmt, d, render, c, p);
  }

  lemma {:induction false} ElementsSqueezed<N>(v: Value<N>, i: nat, fmt: bool, d: nat, render: N -> seq<Byte>,
                                               c: seq<Byte>, p: nat)
    requires v.Array? && i <= |v.items| && SolidNumbers(v, render) && At(c, p, Elements(v, i, fmt, d, render))
    ensures Squeezes(c, p, Elements(v, i, fmt, d, render), Elements(v, i, false, d, render))
    decreases v, |v.items| - i
  {
    hide At, Squeezes, Text;
    if i == |v.items| {
      AtInside(c, p, []);
      Nothing(c, p);
    } else {
      var t, u := Text(v.items[i], fmt, d, render), Text(v.items[i], false, d, render);
      var gap, gap' := if i + 1 < |v.items| then ElementGap(fmt) else [], if i + 1 < |v.items| then [COMMA] else [];
      var r, r' := Elements(v, i + 1, fmt, d, render), Elements(v, i + 1, false, d, render);
      AtParts(c, p, t + gap, r);
      AtParts(c, p, t, gap);
      ValueSqueezed(v.items[i], fmt, d, render, c, p);
      GapSqueezed(c, p + |t|, gap, gap');
      ElementsSqueezed(v, i + 1, fmt, d, render, c, p + |t + gap|);
      Both(c, p, t, u, gap, gap');
      Both(c, p, t + gap, u + gap', r, r');
    }
  }

  lemma AtInside(c: seq<Byte>, p: nat, t: seq<Byte>)
    requires At(c, p, t)
    ensures p + |t| <= |c|
  {
  }

  // Punctuation is kept, and the blanks behind it are dropped.
  lemma GapSqueezed(c: seq<Byte>, p: nat, gap: seq<Byte>, kept: seq<Byte>)
    requires At(c, p, gap) && kept <= gap && Solid(kept) && Whites(gap[|kept|..])
    ensures Squeezes(c, p, gap, kept)
  {
    hide At, Squeezes, Solid, Whites;
    var w := gap[|kept|..];
    assert gap == kept + w;
    AtParts(c, p, kept, w);
    SolidKept(c, p, kept);
    BlanksGone(c, p + |kept|, w);
    Both(c, p, kept, kept, w, []);
    assert kept + [] == kept;
  }

  lemma {:induction false} ObjectSqueezed<N>(v: Value<N>, fmt: bool, d: nat, render: N -> seq<Byte>, c: seq<Byte>,
                                             p: nat)
    requires v.Object? && SolidNumbers(v, render) && At(c, p, Text(v, fmt, d, render))
    ensures Squeezes(c, p, Text(v, fmt, d, render), Text(v, false, d, render))
    decreases v, Children(v) + 1, 0
  {
    hide At, Squeezes, Members, Tabs, Text, SolidNumbers;
    var t, u := Members(v, 0, fmt, d + 1, render), Members(v, 0, false, d + 1, render);
    var open, close := [OPEN_OBJECT] + Break(fmt), Indent(fmt, d);
    ObjectParts(v, fmt, d, render);
    ObjectParts(v, false, d, render);
    assert [OPEN_OBJECT] + Break(false) == [OPEN_OBJECT];
    AtParts(c, p, open + t + close, [CLOSE_OBJECT]);
    AtParts(c, p, open + t, close);
    AtParts(c, p, open, t);
    GapSqueezed(c, p, open, [OPEN_OBJECT]);
    MembersSqueezed(v, 0, fmt, d + 1, render, c, p + |open|);
    BlanksGone(c, p + |open + t|, close);
    SolidKept(c, p + |open + t + close|, [CLOSE_OBJECT]);
    Both(c, p, open, [OPEN_OBJECT], t, u);
    Both(c, p, open + t, [OPEN_OBJECT] + u, close, []);
    Both(c, p, open + t + close, [OPEN_OBJECT] + u + [], [CLOSE_OBJECT], [CLOSE_OBJECT]);
  }

  lemma ObjectParts<N>(v: Value<N>, fmt: bool, d: nat, render: N -> seq<Byte>)
    requires v.Object?
    ensures Text(v, fmt, d, render)
      == [OPEN_OBJECT] + Break(fmt) + Members(v, 0, fmt, d + 1, render) + Indent(fmt, d) + [CLOSE_OBJECT]
    ensures Whites(Indent(fmt, d)) && Whites(([OPEN_OBJECT] + Break(fmt))[1..]) && Solid([OPEN_OBJECT])
      && Solid([CLOSE_OBJECT])
    ensures !fmt ==> Break(fmt) == [] && Indent(fmt, d) == []
  {
    hide Members;
  }

  lemma {:induction false} MembersSqueezed<N>(v: Value<N>, i: nat, fmt: bool, d: nat, render: N -> seq<Byte>,
                                              c: seq<Byte>, p: nat)
    requires v.Object? && i <= |v.members| && SolidNumbers(v, render) && At(c, p, Members(v, i, fmt, d, render))
    ensures Squeezes(c, p, Members(v, i, fmt, d, render), Members(v, i, false, d, render))
    decreases v, |v.members| - i
  {
    hide At, Squeezes, Text, NameText, MemberEnd;
    if i == |v.members| {
      AtInside(c, p, []);
      Nothing(c, p);
    } else {
      var m, last := v.members[i], i + 1 == |v.members|;
      var a, a' := NameText(m.name, fmt, d), NameText(m.name, false, d);
      var t, t' := Text(m.value, fmt, d, render), Text(m.value, false, d, render);
      var e, e' := MemberEnd(last, fmt), MemberEnd(last, false);
      var r, r' := Members(v, i + 1, fmt, d, render), Members(v, i + 1, false, d, render);
      AtParts(c, p, a + t + e, r);
      AtParts(c, p, a + t, e);
      AtParts(c, p, a, t);
      NameSqueezed(m.name, fmt, d, c, p);
      ValueSqueezed(m.value, fmt, d, render, c, p + |a|);
      EndParts(last, fmt);
      GapSqueezed(c, p + |a + t|, e, e');
      MembersSqueezed(v, i + 1, fmt, d, render, c, p + |a + t + e|);
      Both(c, p, a, a', t, t');
      Both(c, p, a + t, a' + t', e, e');
      Both(c, p, a + t + e, a' + t' + e', r, r');
    }
  }

  lemma EndParts(last: bool, fmt: bool)
    ensures MemberEnd(last, false) <= MemberEnd(last, fmt) && Solid(MemberEnd(last, false))
    ensures Whites(MemberEnd(last, fmt)[|MemberEnd(last, false)|..])
  {
  }

  lemma NameSqueezed(name: seq<Byte>, fmt: bool, d: nat, c: seq<Byte>, p: nat)
    requires At(c, p, NameText(name, fmt, d))
    ensures Squeezes(c, p, NameText(name, fmt, d), NameText(name, false, d))
  {
    hide At, Squeezes, StringText;
    var ind, s, colon := Indent(fmt, d), StringText(name), if fmt then [COLON, TAB] else [COLON];
    AtParts(c, p, ind + s, colon);
    AtParts(c, p, ind, s);
    BlanksGone(c, p, ind);
    StringKept(c, p + |ind|, name);
    GapSqueezed(c, p + |ind + s|, colon, [COLON]);
    Both(c, p, ind, [], s, s);
    Both(c, p, ind + s, [] + s, colon, [COLON]);
  }

  // Minifying what was printed, formatted or not, gives the unformatted text.
  lemma PrintedMinified<N>(v: Value<N>, fmt: bool, render: N -> seq<Byte>)
    requires SolidNumbers(v, render)
    ensures AllClosed(Text(v, fmt, 0, render), 0)
    ensures Minified(Text(v, fmt, 0, render), 0) == Text(v, false, 0, render)
  {
    var c, u := Text(v, fmt, 0, render), Text(v, false, 0, render);
    assert c[0..0 + |c|] == c;
    hide Text, SolidNumbers;
    ValueSqueezed(v, fmt, 0, render, c, 0);
    assert Minified(c, |c|) == [];
    assert u + [] == u;
  }

  // ------------------------------------------------------------------ inserting blanks and comments

  // The units from p on to the end of a stay what they are whatever follows: none is a line comment without its line
  // break, and none a single slash at the very end.
  predicate Settled(a: seq<Byte>, p: nat)
    decreases |a| - p
  {
    if p >= |a| then p == |a|
    else
      && UnitEnd(a, p).Some?
      && (LineComment(a, p) ==> UnitEnd(a, p).value < |a|)
      && (a[p] == SLASH ==> p + 1 < |a|)
      && Settled(a, UnitEnd(a, p).value)
  }

  lemma {:induction false} LineEndKept(a: seq<Byte>, x: seq<Byte>, p: nat)
    requires p <= |a| && LineEnd(a, p) < |a|
    ensures LineEnd(a + x, p) == LineEnd(a, p)
    decreases |a| - p
  {
    if p < |a| && a[p] != NEWLINE {
      LineEndKept(a, x, p + 1);
    }
  }

  lemma {:induction false} CommentEndKept(a: seq<Byte>, x: seq<Byte>, p: nat)
    requires p <= |a| && CommentEnd(a, p).Some?
    ensures CommentEnd(a + x, p) == CommentEnd(a, p)
    decreases |a| - p
  {
    if !(a[p] == STAR && a[p + 1] == SLASH) {
      CommentEndKept(a, x, p + 1);
    }
  }

  lemma {:induction false} StringEndKept(a: seq<Byte>, x: seq<Byte>, p: nat)
    requires StringEnd(a, p).Some?
    ensures StringEnd(a + x, p) == StringEnd(a, p)
    decreases |a| - p
  {
    if a[p] == BACKSLASH {
      StringEndKept(a, x, p + 2);
    } else if a[p] != QUOTE {
      StringEndKept(a, x, p + 1);
    }
  }

  lemma {:induction false} LineEndMoved(a: seq<Byte>, x: seq<Byte>, p: nat)
    requires p <= |x|
    ensures LineEnd(a + x, |a| + p) == |a| + LineEnd(x, p)
    decreases |x| - p
  {
    if p < |x| && x[p] != NEWLINE {
      LineEndMoved(a, x, p + 1);
    }
  }

  // A place, further on by n.
  function Further(r: Option<nat>, n: nat): Option<nat> { if r.Some? then Some(r.value + n) else None }

  lemma {:induction false} CommentEndMoved(a: seq<Byte>, x: seq<Byte>, p: nat)
    requires p <= |x|
    ensures CommentEnd(a + x, |a| + p) == Further(CommentEnd(x, p), |a|)
    decreases |x| - p
  {
    if p + 1 < |x| && !(x[p] == STAR && x[p + 1] == SLASH) {
      CommentEndMoved(a, x, p + 1);
    }
  }

  lemma {:induction false} StringEndMoved(a: seq<Byte>, x: seq<Byte>, p: nat)
    ensures StringEnd(a + x, |a| + p) == Further(StringEnd(x, p), |a|)
    decreases |x| - p
  {
    if p < |x| && x[p] != QUOTE {
      if x[p] != BACKSLASH {
        StringEndMoved(a, x, p + 1);
      } else if p + 1 < |x| {
        StringEndMoved(a, x, p + 2);
      }
    }
  }

  lemma UnitMoved(a: seq<Byte>, x: seq<Byte>, p: nat)
    requires p < |x|
    ensures UnitEnd(a + x, |a| + p) == Further(UnitEnd(x, p), |a|)
    ensures Dropped(a + x, |a| + p) == Dropped(x, p)
  {
    LineEndMoved(a, x, p);
    CommentEndMoved(a, x, p);
    StringEndMoved(a, x, p + 1);
  }

  lemma UnitKept(a: seq<Byte>, x: seq<Byte>, p: nat)
    requires p < |a| && UnitEnd(a, p).Some? && (LineComment(a, p) ==> UnitEnd(a, p).value < |a|)
    requires a[p] == SLASH ==> p + 1 < |a|
    ensures UnitEnd(a + x, p) == UnitEnd(a, p) && Dropped(a + x, p) == Dropped(a, p)
  {
    if LineComment(a, p) {
      LineEndKept(a, x, p);
    } else if BlockComment(a, p) {
      CommentEndKept(a, x, p);
    } else if a[p] == QUOTE {
      StringEndKept(a, x, p + 1);
    }
  }

  lemma {:induction false} TextMoved(a: seq<Byte>, x: seq<Byte>, p: nat)
    ensures AllClosed(a + x, |a| + p) <==> AllClosed(x, p)
    ensures AllClosed(x, p) ==> Minified(a + x, |a| + p) == Minified(x, p)
    decreases |x| - p
  {
    if p < |x| {
      hide UnitEnd, Dropped;
      UnitMoved(a, x, p);
      if UnitEnd(x, p).Some? {
        var q := UnitEnd(x, p).value;
        TextMoved(a, x, q);
        assert (a + x)[|a| + p..|a| + q] == x[p..q];
      }
    }
  }

  function KeptUnit(s: seq<Byte>, p: nat): seq<Byte>
    requires p < |s| && UnitEnd(s, p).Some?
  {
    if Dropped(s, p) then [] else s[p..UnitEnd(s, p).value]
  }

  lemma UnitMinified(s: seq<Byte>, p: nat)
    requires p < |s| && UnitEnd(s, p).Some?
    ensures var q := UnitEnd(s, p).value;
      && (AllClosed(s, p) <==> AllClosed(s, q))
      && (AllClosed(s, q) ==> Minified(s, p) == KeptUnit(s, p) + Minified(s, q))
  {
    hide UnitEnd, Dropped;
  }

  lemma SettledStep(a: seq<Byte>, p: nat)
    requires Settled(a, p) && p < |a|
    ensures UnitEnd(a, p).Some? && Settled(a, UnitEnd(a, p).value) && (a[p] == SLASH ==> p + 1 < |a|)
    ensures LineComment(a, p) ==> UnitEnd(a, p).value < |a|
  {
    hide UnitEnd, LineComment;
  }

  // A settled text is minified on its own, whatever follows.
  lemma {:induction false} MinifiedParts(a: seq<Byte>, x: seq<Byte>, p: nat)
    requires Settled(a, p)
    ensures AllClosed(a, p) && (AllClosed(a + x, p) <==> AllClosed(x, 0))
    ensures AllClosed(x, 0) ==> Minified(a + x, p) == Minified(a, p) + Minified(x, 0)
    decreases |a| - p
  {
    hide UnitEnd, Dropped, Settled, LineComment, Minified, AllClosed;
    if p < |a| {
      SettledStep(a, p);
      UnitKept(a, x, p);
      UnitMinified(a, p);
      UnitMinified(a + x, p);
      var q := UnitEnd(a, p).value;
      MinifiedParts(a, x, q);
      assert (a + x)[p..q] == a[p..q];
      assert AllClosed(x, 0) ==>
        KeptUnit(a, p) + (Minified(a, q) + Minified(x, 0)) == (KeptUnit(a, p) + Minified(a, q)) + Minified(x, 0);
    } else {
      SettledEnd(a, p);
      TextMoved(a, x, 0);
      assert AllClosed(x, 0) ==> [] + Minified(x, 0) == Minified(x, 0);
    }
  }

  lemma SettledEnd(a: seq<Byte>, p: nat)
    requires Settled(a, p) && p >= |a|
    ensures p == |a| && AllClosed(a, p) && Minified(a, p) == []
  {
  }

  // What may stand between two units without a trace: blanks, closed comments, and line comments with their line break.
  predicate Traceless(w: seq<Byte>) { Settled(w, 0) && AllDropped(w, 0) }

  predicate AllDropped(w: seq<Byte>, p: nat)
    decreases |w| - p
  {
    p >= |w| || (Dropped(w, p) && (UnitEnd(w, p).Some? ==> AllDropped(w, UnitEnd(w, p).value)))
  }

  lemma {:induction false} DroppedAll(w: seq<Byte>, p: nat)
    requires AllClosed(w, p) && AllDropped(w, p)
    ensures Minified(w, p) == []
    decreases |w| - p
  {
    if p < |w| {
      DroppedAll(w, UnitEnd(w, p).value);
    }
  }

  // Inserting it changes nothing of what minifying gives.
  lemma InsertionGone(a: seq<Byte>, w: seq<Byte>, b: seq<Byte>)
    requires Settled(a, 0) && Traceless(w)
    ensures AllClosed(a + (w + b), 0) <==> AllClosed(a + b, 0)
    ensures AllClosed(a + b, 0) ==> Minified(a + (w + b), 0) == Minified(a + b, 0)
  {
    hide Settled, AllDropped, Minified, AllClosed;
    MinifiedParts(w, b, 0);
    MinifiedParts(a, w + b, 0);
    MinifiedParts(a, b, 0);
    DroppedAll(w, 0);
    assert AllClosed(b, 0) ==> [] + Minified(b, 0) == Minified(b, 0);
  }

  // A blank, a closed comment, and a line comment with its line break are traceless.
  lemma BlankTraceless(b: Byte)
    requires White(b)
    ensures Traceless([b])
  {
    assert UnitEnd([b], 0) == Some(1);
    assert Settled([b], 1) && AllDropped([b], 1);
  }

  lemma CommentTraceless(t: seq<Byte>)
    requires CommentEnd([SLASH, STAR] + (t + [STAR, SLASH]), 0) == Some(|t| + 4)
    ensures Traceless([SLASH, STAR] + (t + [STAR, SLASH]))
  {
    hide CommentEnd, StringEnd, LineEnd;
    var w := [SLASH, STAR] + (t + [STAR, SLASH]);
    assert w[0] == SLASH && w[1] == STAR && UnitEnd(w, 0) == Some(|w|);
    assert Settled(w, |w|) && AllDropped(w, |w|);
  }

  lemma LineTraceless(t: seq<Byte>)
    requires NEWLINE !in t
    ensures Traceless([SLASH, SLASH] + (t + [NEWLINE]))
  {
    var w := [SLASH, SLASH] + (t + [NEWLINE]);
    assert w[|t| + 2] == NEWLINE;
    assert forall i :: 2 <= i < |t| + 2 ==> w[i] == t[i - 2];
    assert UnitEnd(w, 0) == Some(|t| + 2);
    assert UnitEnd(w, |t| + 2) == Some(|w|);
    assert Settled(w, |w|) && AllDropped(w, |w|);
    assert Settled(w, |t| + 2) && AllDropped(w, |t| + 2);
  }

  // ------------------------------------------------------------------ no blank is left

  // Outside string literals there is no blank.
  predicate NoBlanks(r: seq<Byte>, p: nat)
    decreases |r| - p
  {
    p >= |r| ||
    if r[p] == QUOTE then StringEnd(r, p + 1).Some? && NoBlanks(r, StringEnd(r, p + 1).value + 1)
    else !White(r[p]) && NoBlanks(r, p + 1)
  }

  lemma {:induction false} NoBlanksMoved(a: seq<Byte>, x: seq<Byte>, p: nat)
    requires NoBlanks(x, p)
    ensures NoBlanks(a + x, |a| + p)
    decreases |x| - p
  {
    if p < |x| {
      if x[p] == QUOTE {
        StringEndMoved(a, x, p + 1);
        NoBlanksMoved(a, x, StringEnd(x, p + 1).value + 1);
      } else {
        NoBlanksMoved(a, x, p + 1);
      }
    }
  }

  lemma {:induction false} BlanksGoneOutside(s: seq<Byte>, p: nat)
    requires AllClosed(s, p)
    ensures NoBlanks(Minified(s, p), 0)
    decreases |s| - p
  {
    if p < |s| {
      var q := UnitEnd(s, p).value;
      var rest := Minified(s, q);
      BlanksGoneOutside(s, q);
      if Dropped(s, p) {
        assert [] + rest == rest;
      } else if s[p] == QUOTE {
        var u := s[p..q];
        LiteralAlone(s, p, q);
        StringEndKept(u, rest, 1);
        NoBlanksMoved(u, rest, 0);
      } else {
        NoBlanksMoved(s[p..q], rest, 0);
      }
    }
  }

  // A literal cut out of the text is still one.
  lemma LiteralAlone(s: seq<Byte>, p: nat, q: nat)
    requires p < |s| && s[p] == QUOTE && StringEnd(s, p + 1) == Some(q - 1) && q >= 1
    ensures p < q <= |s| && StringEnd(s[p..q], 1) == Some(q - 1 - p)
  {
    hide StringEnd;
    var u := s[p..q];
    assert s[..q] == s[..p] + u;
    EndWithin(s, p + 1, q);
    StringEndMoved(s[..p], u, 1);
  }

  lemma {:induction false} EndWithin(s: seq<Byte>, p: nat, q: nat)
    requires p < q <= |s| && StringEnd(s, p) == Some(q - 1)
    ensures StringEnd(s[..q], p) == Some(q - 1)
    decreases q - p
  {
    if s[p] == BACKSLASH {
      EndWithin(s, p + 2, q);
    } else if s[p] != QUOTE {
      EndWithin(s, p + 1, q);
    }
  }
}
