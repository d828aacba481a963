// Quotients and remainders.
module Arithmetic {
  lemma MulAtLeast(p: nat, d: nat)
    requires d >= 1
    ensures p * d >= p
  {
    assert p * d == p * (d - 1) + p;
  }

  lemma MulDistributes(p: int, a: int, b: int)
    ensures p * (a - b) == p * a - p * b
    ensures p * (a + b) == p * a + p * b
  {
  }

  // Quotient and remainder are unique.
  lemma ModUnique(a: nat, p: nat, q: nat, r: nat)
    requires r < p && a == p * q + r
    ensures a % p == r && a / p == q
  {
    var q', r' := a / p, a % p;
    DivModExact(a, p);
    MulDistributes(p, q, q');
    MulDistributes(p, q', q);
    if q > q' {
      MulAtLeast(p, q - q');
    } else if q < q' {
      MulAtLeast(p, q' - q);
    }
  }

  lemma DivModExact(a: nat, p: nat)
    requires p >= 1
    ensures a == p * (a / p) + a % p && a % p < p
  {
  }

  lemma MulMonotone(p: nat, a: nat, b: nat)
    requires a <= b
    ensures p * a <= p * b
  {
    assert p * b == p * a + p * (b - a);
  }

  lemma MulAssociative(a: int, b: int, c: int)
    ensures (a * b) * c == a * (b * c)
  {
  }

  lemma ModOfSum(b: nat, p: nat, m: nat)
    requires p >= 1
    ensures (p * m + b) % p == b % p
  {
    DivModExact(b, p);
    MulDistributes(p, m, b / p);
    ModUnique(p * m + b, p, m + b / p, b % p);
  }

  lemma LastBlockFits(b: nat, p: nat, q: nat)
    requires p >= 1 && b < p * q
    ensures b % p <= b && b - b % p + p <= p * q
  {
    DivModExact(b, p);
    var c := b / p;
    if c >= q {
      MulMonotone(p, q, c);
    } else {
      MulMonotone(p, c + 1, q);
      MulDistributes(p, c, 1);
    }
  }

  // Blocks of p numbers nest in blocks of p * q numbers.
  lemma BlocksNest(r: nat, p: nat, q: nat)
    requires p >= 1 && q >= 1
    ensures p * q >= p
    ensures r - r % (p * q) <= r - r % p
    ensures r - r % p + p <= r - r % (p * q) + p * q
  {
    MulAtLeast(p, q);
    var m := p * q;
    DivModExact(r, m);
    SameRemainder(r, p, q, r / m, r % m);
    LastBlockFits(r % m, p, q);
  }

  lemma SameRemainder(r: nat, p: nat, q: nat, k: nat, s: nat)
    requires p >= 1 && r == (p * q) * k + s
    ensures r % p == s % p
  {
    MulAssociative(p, q, k);
    ModOfSum(s, p, q * k);
  }

  // Up to its end, a block of p numbers has one start.
  lemma BlockEnd(r: nat, p: nat, end: nat)
    requires p >= 1 && r - r % p < end <= r - r % p + p
    ensures if end < r - r % p + p then end - end % p == r - r % p else end % p == 0
  {
    DivModExact(r, p);
    BlockEndWith(r, p, end, r / p, r % p);
  }

  lemma BlockEndWith(r: nat, p: nat, end: nat, q: nat, s: nat)
    requires s < p && r == p * q + s && p * q < end <= p * q + p
    ensures if end < p * q + p then end % p == end - p * q else end % p == 0
  {
    if end < p * q + p {
      ModUnique(end, p, q, end - p * q);
    } else {
      MulDistributes(p, q, 1);
      ModUnique(end, p, q + 1, 0);
    }
  }

  lemma ModBelow(a: nat, p: nat)
    requires p >= 1
    ensures a % p < p
  {
  }
}
