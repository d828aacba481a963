// permute_args: two adjacent blocks of argv change places, in gcd(a, b) cycles.
module GetOpt {
  import opened Arithmetic

  ghost predicate Divides(d: nat, a: nat) {
    d >= 1 && exists k: nat :: Multiple(d, k, a)
  }

  ghost predicate Multiple(d: nat, k: nat, a: nat) { d * k == a }

  // d is a common divisor of a and b and a combination of them, hence the greatest one.
  ghost predicate IsGcd(d: nat, a: nat, b: nat) {
    && Divides(d, a) && Divides(d, b)
    && exists u, v :: Combines(d, a, b, u, v)
  }

  ghost predicate Combines(d: nat, a: nat, b: nat, u: int, v: int) { u * a + v * b == d }

  lemma DividesSum(d: nat, a: nat, b: nat, q: nat)
    requires Divides(d, a) && Divides(d, b)
    ensures Divides(d, a + q * b)
  {
    var j: nat :| Multiple(d, j, a);
    var k: nat :| Multiple(d, k, b);
    assert d * (j + q * k) == d * j + q * (d * k);
    assert Multiple(d, j + q * k, a + q * b);
  }

  lemma DividesItself(d: nat)
    requires d >= 1
    ensures Divides(d, d) && Divides(d, 0)
  {
    assert Multiple(d, 1, d) && Multiple(d, 0, 0);
  }

  // C's remainder of non-negative operands.
  function Rem(a: nat, b: nat): nat
    requires b >= 1
  {
    a % b
  }

  lemma LinearStep(a: int, b: int, q: int, r: int, u: int, v: int)
    requires a == b * q + r
    ensures v * a + (u - v * q) * b == u * b + v * r
  {
    MulDistributes(v, b * q, r);
    MulDistributes(b, u, v * q);
    MulAssociative(b, q, v);
    assert v * a == v * (b * q) + v * r;
    assert (u - v * q) * b == b * u - b * (v * q);
    assert v * (b * q) == b * (v * q);
  }

  // One step of Euclid's algorithm, backwards.
  lemma GcdStep(d: nat, a: nat, b: nat)
    requires b >= 1 && IsGcd(d, b, Rem(a, b))
    ensures IsGcd(d, a, b)
  {
    var q, r := a / b, Rem(a, b);
    DivModExact(a, b);
    GcdStepWith(d, a, b, q, r);
  }

  lemma GcdStepWith(d: nat, a: nat, b: nat, q: nat, r: nat)
    requires a == b * q + r && IsGcd(d, b, r)
    ensures IsGcd(d, a, b)
  {
    DividesSum(d, r, b, q);
    var u, v :| Combines(d, b, r, u, v);
    LinearStep(a, b, q, r, u, v);
    assert Combines(d, a, b, v, u - v * q);
  }

  function Euclid(a: nat, b: nat): nat
    requires b >= 1
    decreases b
  {
    RemBound(a, b);
    if Rem(a, b) == 0 then b else Euclid(b, Rem(a, b))
  }

  lemma RemBound(a: nat, b: nat)
    requires b >= 1
    ensures Rem(a, b) < b
  {
  }

  lemma {:induction false} EuclidIsGcd(a: nat, b: nat)
    requires b >= 1
    ensures IsGcd(Euclid(a, b), a, b)
    decreases b
  {
    hide Rem, Divides;
    RemBound(a, b);
    if Rem(a, b) == 0 {
      DividesItself(b);
      assert Combines(b, b, 0, 1, 0);
      GcdStep(b, a, b);
    } else {
      EuclidIsGcd(b, Rem(a, b));
      GcdStep(Euclid(b, Rem(a, b)), a, b);
    }
  }

  method Gcd(x: nat, y: nat) returns (b: nat)
    requires y >= 1
    ensures IsGcd(b, x, y)
  {
    hide Rem, IsGcd;
    EuclidIsGcd(x, y);
    var a := x;
    b := y;
    var c := Rem(a, b);
    while c != 0
      invariant b >= 1 && c == Rem(a, b) && Euclid(a, b) == Euclid(x, y)
      decreases b
    {
      RemBound(a, b);
      a := b;
      b := c;
      c := Rem(a, b);
    }
  }

  // ------------------------------------------------------------------ the cycles

  // Positions count from the start of the first block; a and b are the lengths of the blocks.
  // Where the element at position p belongs.
  function Next(p: nat, a: nat, b: nat): nat {
    if p >= a then p - a else p + b
  }

  // The position after j steps from c.
  function Pos(c: nat, j: nat, a: nat, b: nat): (p: nat)
    requires c < a + b
    ensures p < a + b
  {
    if j == 0 then c else Next(Pos(c, j - 1, a, b), a, b)
  }

  // How often those steps went down.
  function Wraps(c: nat, j: nat, a: nat, b: nat): nat
    requires c < a + b
  {
    if j == 0 then 0 else Wraps(c, j - 1, a, b) + (if Pos(c, j - 1, a, b) >= a then 1 else 0)
  }

  lemma SumStep(p: int, c: int, j: int, b: int, w: int, m: int)
    requires p == c + (j - 1) * b - w * m
    ensures p + b == c + j * b - w * m
    ensures p + b - m == c + j * b - (w + 1) * m
  {
  }

  lemma {:induction false} PosIsSum(c: nat, j: nat, a: nat, b: nat)
    requires c < a + b
    ensures Pos(c, j, a, b) == c + j * b - Wraps(c, j, a, b) * (a + b)
  {
    if j == 0 {
      assert Wraps(c, 0, a, b) == 0;
    } else {
      PosIsSum(c, j - 1, a, b);
      SumStep(Pos(c, j - 1, a, b), c, j, b, Wraps(c, j - 1, a, b), a + b);
    }
  }

  // Multiples of m cannot be closer than m.
  lemma CloseMultiple(m: int, x: int, z: int)
    requires m >= 1 && x == m * z && -m < x < m
    ensures x == 0
  {
    if z >= 1 {
      MulAtLeast(m, z);
    } else if z <= -1 {
      MulAtLeast(m, -z);
      MulDistributes(m, 0, -z);
    }
  }

  // With g = u * a + v * b and j * b a multiple of a + b, j * g is one too.
  lemma ScaledGcd(g: int, a: int, b: int, u: int, v: int, j: int, w: int)
    requires u * a + v * b == g && j * b == w * (a + b)
    ensures g * j == (a + b) * ((v - u) * w + u * j)
  {
    var m := a + b;
    assert g == u * m + (v - u) * b by {
      MulDistributes(u, a, b);
      MulDistributes(b, v, u);
    }
    assert g * j == u * m * j + (v - u) * b * j;
    MulAssociative(v - u, b, j);
    MulAssociative(v - u, w, m);
    MulAssociative(u, m, j);
    assert (v - u) * b * j == (v - u) * (w * m);
    MulDistributes(m, (v - u) * w, u * j);
    MulAssociative(u, j, m);
  }

  lemma NoEarlyReturn(c: nat, j: nat, a: nat, b: nat, g: nat, n: nat)
    requires c < a + b && IsGcd(g, a, b) && g * n == a + b && 0 < j < n
    ensures Pos(c, j, a, b) != c
  {
    PosIsSum(c, j, a, b);
    if Pos(c, j, a, b) == c {
      var u, v :| Combines(g, a, b, u, v);
      var w := Wraps(c, j, a, b);
      ScaledGcd(g, a, b, u, v, j, w);
      MulMonotone(g, j, n - 1);
      MulDistributes(g, n, 1);
      MulAtLeast(g, j);
      CloseMultiple(a + b, g * j, (v - u) * w + u * j);
    }
  }

  lemma NextInjective(p: nat, q: nat, a: nat, b: nat)
    requires p < a + b && q < a + b && Next(p, a, b) == Next(q, a, b)
    ensures p == q
  {
  }

  // A cycle meets no position twice in its first n steps.
  lemma {:induction false} Distinct(c: nat, i: nat, j: nat, a: nat, b: nat, g: nat, n: nat)
    requires c < a + b && IsGcd(g, a, b) && g * n == a + b && i < j < n
    ensures Pos(c, i, a, b) != Pos(c, j, a, b)
  {
    hide IsGcd, Next;
    if i == 0 {
      NoEarlyReturn(c, j, a, b, g, n);
    } else if Pos(c, i, a, b) == Pos(c, j, a, b) {
      NextInjective(Pos(c, i - 1, a, b), Pos(c, j - 1, a, b), a, b);
      Distinct(c, i - 1, j - 1, a, b, g, n);
    }
  }

  lemma CommonMultiple(g: int, n: int, b: int, k: int, m: int)
    requires g * n == m && g * k == b
    ensures n * b == m * k
  {
    MulAssociative(n, g, k);
  }

  // After n steps a cycle is back where it began.
  lemma Returns(c: nat, a: nat, b: nat, g: nat, n: nat)
    requires c < a + b && IsGcd(g, a, b) && g * n == a + b
    ensures Pos(c, n, a, b) == c
  {
    hide Pos, Wraps;
    PosIsSum(c, n, a, b);
    var k: nat :| Multiple(g, k, b);
    CommonMultiple(g, n, b, k, a + b);
    MulDistributes(a + b, k, Wraps(c, n, a, b));
    CloseMultiple(a + b, Pos(c, n, a, b) - c, k - Wraps(c, n, a, b));
  }

  lemma NextKeepsResidue(p: nat, a: nat, b: nat, g: nat)
    requires Divides(g, a) && Divides(g, b)
    ensures Next(p, a, b) % g == p % g
  {
    var k: nat :| Multiple(g, k, a);
    var l: nat :| Multiple(g, l, b);
    if p >= a {
      ModOfSum(p - a, g, k);
    } else {
      ModOfSum(p, g, l);
    }
  }

  lemma {:induction false} PosKeepsResidue(c: nat, j: nat, a: nat, b: nat, g: nat)
    requires c < a + b && Divides(g, a) && Divides(g, b)
    ensures Pos(c, j, a, b) % g == c % g
  {
    hide Divides, Next;
    if j > 0 {
      PosKeepsResidue(c, j - 1, a, b, g);
      NextKeepsResidue(Pos(c, j - 1, a, b), a, b, g);
    }
  }

  lemma SameResidue(g: nat, p: nat, c: nat) returns (t: int)
    requires g >= 1 && p % g == c % g
    ensures p - c == g * t
  {
    DivModExact(p, g);
    DivModExact(c, g);
    t := p / g - c / g;
    MulDistributes(g, p / g, c / g);
  }

  // (v - u) * t steps, less any multiple q of n, lead g * t places on, up to multiples of m.
  lemma StepsTo(g: int, a: int, b: int, u: int, v: int, t: int, n: int, k: int, q: int) returns (z: int)
    requires u * a + v * b == g && g * n == a + b && g * k == b
    ensures ((v - u) * t - n * q) * b == g * t + (a + b) * z
  {
    var m := a + b;
    z := -(u * t + k * q);
    assert (v - u) * b == g - m * u by {
      MulDistributes(u, a, b);
      MulDistributes(b, v, u);
    }
    assert (v - u) * t * b == g * t - m * (u * t) by {
      MulAssociative(v - u, t, b);
      MulAssociative(v - u, b, t);
      MulDistributes(t, g, m * u);
      MulAssociative(m, u, t);
    }
    assert n * q * b == m * (k * q) by {
      CommonMultiple(g, n, b, k, m);
      MulAssociative(n, q, b);
      MulAssociative(n, b, q);
      MulAssociative(m, k, q);
    }
    MulDistributes(b, (v - u) * t, n * q);
    MulDistributes(m, u * t, k * q);
  }

  lemma IntDivMod(x: int, n: nat)
    requires n >= 1
    ensures 0 <= x % n < n && x == n * (x / n) + x % n
  {
  }

  // Every position of the same residue lies on the cycle.
  lemma Reaches(c: nat, p: nat, a: nat, b: nat, g: nat, n: nat) returns (j: nat)
    requires c < a + b && p < a + b && IsGcd(g, a, b) && g * n == a + b && p % g == c % g
    ensures j < n && Pos(c, j, a, b) == p
  {
    hide Pos, Wraps;
    var u, v :| Combines(g, a, b, u, v);
    var k: nat :| Multiple(g, k, b);
    var t := SameResidue(g, p, c);
    var x := (v - u) * t;
    IntDivMod(x, n);
    j := x % n;
    var z := StepsTo(g, a, b, u, v, t, n, k, x / n);
    PosIsSum(c, j, a, b);
    MulDistributes(a + b, z, Wraps(c, j, a, b));
    CloseMultiple(a + b, Pos(c, j, a, b) - p, z - Wraps(c, j, a, b));
  }

  // ------------------------------------------------------------------ the exchange

  function Residue(p: nat, g: nat): nat
    requires g >= 1
  {
    p % g
  }

  // Everything the inner loop needs to know about the cycle through c, of residue i.
  ghost predicate IsCycle(c: nat, i: nat, a: nat, b: nat, g: nat, n: nat)
    requires g >= 1
  {
    && c < a + b
    && Pos(c, n, a, b) == c
    && (forall j: nat, k: nat :: j < k < n ==> Pos(c, j, a, b) != Pos(c, k, a, b))
    && (forall j: nat :: Residue(Pos(c, j, a, b), g) == i)
    && (forall p: nat :: p < a + b && Residue(p, g) == i ==> exists j: nat :: j < n && Pos(c, j, a, b) == p)
  }

  lemma CycleOfResidue(i: nat, a: nat, b: nat, g: nat, n: nat)
    requires b >= 1 && IsGcd(g, a, b) && g * n == a + b && i < g
    ensures IsCycle(a + i, i, a, b, g, n)
  {
    hide Pos;
    var k: nat :| Multiple(g, k, b);
    if k >= 1 {
      MulAtLeast(g, k);
    }
    var c := a + i;
    Returns(c, a, b, g, n);
    forall j: nat, k: nat | j < k < n
      ensures Pos(c, j, a, b) != Pos(c, k, a, b)
    {
      Distinct(c, j, k, a, b, g, n);
    }
    var l: nat :| Multiple(g, l, a);
    ModOfSum(i, g, l);
    ModUnique(i, g, 0, i);
    forall j: nat
      ensures Residue(Pos(c, j, a, b), g) == i
    {
      PosKeepsResidue(c, j, a, b, g);
    }
    forall p: nat | p < a + b && Residue(p, g) == i
      ensures exists j: nat :: j < n && Pos(c, j, a, b) == p
    {
      var j := Reaches(c, p, a, b, g, n);
    }
  }

  // The elements at positions of residue below i have moved; the others have not.
  ghost predicate MovedBelow<T>(was: seq<T>, now: seq<T>, s: nat, a: nat, b: nat, g: nat, i: nat)
    requires g >= 1
  {
    && |now| == |was| && s + a + b <= |was|
    && (forall p: nat :: p < a + b && Residue(p, g) < i ==>
          Next(p, a, b) < a + b && now[s + Next(p, a, b)] == was[s + p])
    && (forall p: nat :: p < a + b && Residue(p, g) >= i ==> now[s + p] == was[s + p])
    && now[..s] == was[..s] && now[s + a + b..] == was[s + a + b..]
  }

  // j steps along the cycle of indices, from `was` to `now`.
  ghost predicate Turned<T>(was: seq<T>, now: seq<T>, cycle: seq<nat>, j: nat) {
    && |now| == |was| && j <= |cycle| && 1 <= |cycle|
    && (forall k: nat :: k < |cycle| ==> cycle[k] < |was|)
    && (forall k: nat :: 1 <= k <= j && k < |cycle| ==> now[cycle[k]] == was[cycle[k - 1]])
    && (forall k: nat :: j < k < |cycle| ==> now[cycle[k]] == was[cycle[k]])
    && now[cycle[0]] == was[cycle[if j < |cycle| then j else |cycle| - 1]]
    && (forall q: nat :: q < |was| && q !in cycle ==> now[q] == was[q])
  }

  ghost predicate NoRepeats(cycle: seq<nat>) {
    forall j: nat, k: nat :: j < k < |cycle| ==> cycle[j] != cycle[k]
  }

  lemma TurnedStep<T>(was: seq<T>, now: seq<T>, next: seq<T>, cycle: seq<nat>, j: nat, q: nat)
    requires NoRepeats(cycle) && Turned(was, now, cycle, j) && j < |cycle|
    requires q == if j + 1 < |cycle| then cycle[j + 1] else cycle[0]
    requires next == now[q := now[cycle[0]]][cycle[0] := now[q]]
    ensures Turned(was, next, cycle, j + 1)
  {
    forall k: nat | 1 <= k <= j + 1 && k < |cycle|
      ensures next[cycle[k]] == was[cycle[k - 1]]
    {
      assert cycle[k] != cycle[0];
      if k <= j && j + 1 < |cycle| {
        assert cycle[k] != q;
      }
    }
  }

  ghost function Cycle(s: nat, c: nat, n: nat, a: nat, b: nat): (cycle: seq<nat>)
    requires c < a + b
    ensures |cycle| == n
    ensures forall k: nat :: k < n ==> cycle[k] == s + Pos(c, k, a, b)
  {
    seq(n, k requires 0 <= k < n => s + Pos(c, k, a, b))
  }

  lemma PosAfter(c: nat, j: nat, a: nat, b: nat)
    requires c < a + b
    ensures Pos(c, j + 1, a, b) == Next(Pos(c, j, a, b), a, b)
  {
  }

  lemma OffTheCycle(s: nat, i: nat, p: nat, a: nat, b: nat, g: nat, n: nat)
    requires g >= 1 && IsCycle(a + i, i, a, b, g, n) && p < a + b && Residue(p, g) != i
    ensures s + p !in Cycle(s, a + i, n, a, b)
  {
  }

  lemma OutOfReach(s: nat, q: nat, c: nat, n: nat, a: nat, b: nat)
    requires c < a + b && (q < s || q >= s + a + b)
    ensures q !in Cycle(s, c, n, a, b)
  {
  }

  lemma CycleDone<T>(was: seq<T>, start: seq<T>, now: seq<T>, s: nat, i: nat, a: nat, b: nat, g: nat, n: nat)
    requires g >= 1 && IsCycle(a + i, i, a, b, g, n) && Divides(g, a) && Divides(g, b)
    requires MovedBelow(was, start, s, a, b, g, i) && Turned(start, now, Cycle(s, a + i, n, a, b), n)
    ensures MovedBelow(was, now, s, a, b, g, i + 1)
  {
    hide IsCycle, Next, Pos, Divides, Residue, Cycle, Turned;
    InRange(i, a, b, g, n);
    SameLength(start, now, Cycle(s, a + i, n, a, b), n);
    forall p: nat | p < a + b && Residue(p, g) < i + 1
      ensures Next(p, a, b) < a + b && now[s + Next(p, a, b)] == was[s + p]
    {
      MoveOne(was, start, now, s, i, p, a, b, g, n);
    }
    forall p: nat | p < a + b && Residue(p, g) >= i + 1
      ensures now[s + p] == was[s + p]
    {
      OffTheCycle(s, i, p, a, b, g, n);
      Elsewhere(start, now, Cycle(s, a + i, n, a, b), n, s + p);
    }
    forall q: nat | q < s || s + a + b <= q < |was|
      ensures now[q] == start[q]
    {
      OutOfReach(s, q, a + i, n, a, b);
      Elsewhere(start, now, Cycle(s, a + i, n, a, b), n, q);
    }
    assert now[..s] == start[..s] && now[s + a + b..] == start[s + a + b..];
  }

  lemma SameLength<T>(was: seq<T>, now: seq<T>, cycle: seq<nat>, j: nat)
    requires Turned(was, now, cycle, j)
    ensures |now| == |was| && |cycle| >= 1
  {
  }

  lemma Elsewhere<T>(was: seq<T>, now: seq<T>, cycle: seq<nat>, j: nat, q: nat)
    requires Turned(was, now, cycle, j) && q < |was| && q !in cycle
    ensures now[q] == was[q]
  {
  }

  lemma InRange(i: nat, a: nat, b: nat, g: nat, n: nat)
    requires g >= 1 && IsCycle(a + i, i, a, b, g, n)
    ensures a + i < a + b && Pos(a + i, n, a, b) == a + i
  {
  }

  lemma OnTheCycle(p: nat, i: nat, a: nat, b: nat, g: nat, n: nat) returns (j: nat)
    requires g >= 1 && IsCycle(a + i, i, a, b, g, n) && p < a + b && Residue(p, g) == i
    ensures j < n && Pos(a + i, j, a, b) == p
  {
    j :| j < n && Pos(a + i, j, a, b) == p;
  }

  // The last step took the element at cycle[j] to the next index on the cycle.
  lemma AllTurned<T>(was: seq<T>, now: seq<T>, cycle: seq<nat>, j: nat)
    requires Turned(was, now, cycle, |cycle|) && j < |cycle|
    ensures now[if j + 1 < |cycle| then cycle[j + 1] else cycle[0]] == was[cycle[j]]
  {
  }

  lemma NextOnCycle(s: nat, i: nat, p: nat, a: nat, b: nat, g: nat, n: nat) returns (j: nat)
    requires g >= 1 && n >= 1 && IsCycle(a + i, i, a, b, g, n) && p < a + b && Residue(p, g) == i
    ensures var cycle := Cycle(s, a + i, n, a, b);
      j < n && cycle[j] == s + p
      && s + Next(p, a, b) == if j + 1 < n then cycle[j + 1] else cycle[0]
  {
    j := OnTheCycle(p, i, a, b, g, n);
    hide IsCycle, Pos, Next, Residue;
    InRange(i, a, b, g, n);
    PosAfter(a + i, j, a, b);
    PosStart(a + i, a, b);
  }

  lemma MoveOne<T>(was: seq<T>, start: seq<T>, now: seq<T>, s: nat, i: nat, p: nat, a: nat, b: nat, g: nat, n: nat)
    requires g >= 1 && IsCycle(a + i, i, a, b, g, n) && Divides(g, a) && Divides(g, b)
    requires MovedBelow(was, start, s, a, b, g, i) && Turned(start, now, Cycle(s, a + i, n, a, b), n)
    requires p < a + b && Residue(p, g) < i + 1
    ensures Next(p, a, b) < a + b && now[s + Next(p, a, b)] == was[s + p]
  {
    hide IsCycle, Pos, Next, Residue, Divides, Turned, Cycle;
    NextInRange(p, a, b);
    InRange(i, a, b, g, n);
    var cycle := Cycle(s, a + i, n, a, b);
    SameLength(start, now, cycle, n);
    if Residue(p, g) == i {
      var j := NextOnCycle(s, i, p, a, b, g, n);
      AllTurned(start, now, cycle, j);
    } else {
      ResidueKept(p, a, b, g);
      OffTheCycle(s, i, Next(p, a, b), a, b, g, n);
      Elsewhere(start, now, cycle, n, s + Next(p, a, b));
    }
  }

  lemma ResidueKept(p: nat, a: nat, b: nat, g: nat)
    requires Divides(g, a) && Divides(g, b)
    ensures Residue(Next(p, a, b), g) == Residue(p, g)
  {
    NextKeepsResidue(p, a, b, g);
  }

  lemma NextInRange(p: nat, a: nat, b: nat)
    requires p < a + b
    ensures Next(p, a, b) < a + b
  {
  }

  lemma PosStart(c: nat, a: nat, b: nat)
    requires c < a + b
    ensures Pos(c, 0, a, b) == c
  {
  }

  // The blocks s..m and m..e change places.
  function Exchanged<T>(args: seq<T>, s: nat, m: nat, e: nat): seq<T>
    requires s <= m <= e <= |args|
  {
    args[..s] + args[m..e] + args[s..m] + args[e..]
  }

  lemma AllMoved<T>(was: seq<T>, now: seq<T>, s: nat, a: nat, b: nat, g: nat)
    requires g >= 1 && MovedBelow(was, now, s, a, b, g, g)
    ensures now == Exchanged(was, s, s + a, s + a + b)
  {
    var m, e := s + a, s + a + b;
    forall q: nat | s <= q < e
      ensures now[q] == if q < s + b then was[q + a] else was[q - b]
    {
      var p := if q < s + b then q - s + a else q - s - b;
      assert Residue(p, g) < g;
      assert s + Next(p, a, b) == q;
    }
    assert now[..s] == was[..s] && now[s..s + b] == was[m..e] && now[s + b..e] == was[s..m];
    assert now == now[..s] + now[s..s + b] + now[s + b..e] + now[e..];
  }

  // The number of cycles and their length.
  lemma CycleSizes(a: nat, b: nat, g: nat)
    requires b >= 1 && IsGcd(g, a, b)
    ensures g >= 1 && g * ((a + b) / g) == a + b && (a + b) / g >= 1
  {
    var k: nat :| Multiple(g, k, a);
    var l: nat :| Multiple(g, l, b);
    MulDistributes(g, k, l);
    ModUnique(a + b, g, k + l, 0);
  }

  lemma NoneMoved<T>(was: seq<T>, s: nat, a: nat, b: nat, g: nat)
    requires g >= 1 && s + a + b <= |was|
    ensures MovedBelow(was, was, s, a, b, g, 0)
  {
  }

  lemma NotYetTurned<T>(was: seq<T>, s: nat, i: nat, a: nat, b: nat, g: nat, n: nat)
    requires g >= 1 && n >= 1 && IsCycle(a + i, i, a, b, g, n) && s + a + b <= |was|
    ensures var cycle := Cycle(s, a + i, n, a, b);
      Turned(was, was, cycle, 0) && NoRepeats(cycle) && cycle[0] == s + a + i
  {
    hide Next, Residue;
  }

  lemma NextIndex(s: nat, p: nat, a: nat, b: nat)
    ensures s + Next(p, a, b) == if s + p >= s + a then s + p - a else s + p + b
  {
  }

  lemma CommonDivisor(g: nat, a: nat, b: nat)
    requires IsGcd(g, a, b)
    ensures Divides(g, a) && Divides(g, b)
  {
  }

  method PermuteArgs<T>(panonopt_start: nat, panonopt_end: nat, opt_end: nat, nargv: array<T>)
    requires panonopt_start <= panonopt_end < opt_end <= nargv.Length
    modifies nargv
    ensures nargv[..] == Exchanged(old(nargv[..]), panonopt_start, panonopt_end, opt_end)
  {
    hide IsGcd, MovedBelow, Turned, Cycle, IsCycle, Pos, Next, Divides, Exchanged, NoRepeats;
    var nnonopts := panonopt_end - panonopt_start;
    var nopts := opt_end - panonopt_end;
    var ncycle := Gcd(nnonopts, nopts);
    CycleSizes(nnonopts, nopts, ncycle);
    CommonDivisor(ncycle, nnonopts, nopts);
    var cyclelen := (opt_end - panonopt_start) / ncycle;
    ghost var s, a, b := panonopt_start, nnonopts, nopts;
    ghost var was := nargv[..];
    NoneMoved(was, s, a, b, ncycle);
    for i := 0 to ncycle
      invariant MovedBelow(was, nargv[..], s, a, b, ncycle, i)
    {
      CycleOfResidue(i, a, b, ncycle, cyclelen);
      InRange(i, a, b, ncycle, cyclelen);
      var cstart := panonopt_end + i;
      var pos := cstart;
      ghost var start := nargv[..];
      ghost var cycle := Cycle(s, a + i, cyclelen, a, b);
      NotYetTurned(start, s, i, a, b, ncycle, cyclelen);
      for j := 0 to cyclelen
        invariant pos == s + Pos(a + i, j, a, b)
        invariant Turned(start, nargv[..], cycle, j)
      {
        PosAfter(a + i, j, a, b);
        NextIndex(s, Pos(a + i, j, a, b), a, b);
        if pos >= panonopt_end {
          pos := pos - nnonopts;
        } else {
          pos := pos + nopts;
        }
        ghost var now := nargv[..];
        var swap := nargv[pos];
        nargv[pos] := nargv[cstart];
        nargv[cstart] := swap;
        TurnedStep(start, now, nargv[..], cycle, j, pos);
      }
      CycleDone(was, start, nargv[..], s, i, a, b, ncycle, cyclelen);
    }
    AllMoved(was, nargv[..], s, a, b, ncycle);
  }
}
