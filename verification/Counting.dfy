// How many threads are somewhere.
module Counting {
  function One(b: bool): nat { if b then 1 else 0 }

  function HowMany<T>(s: seq<T>, p: T -> bool): nat {
    if s == [] then 0 else One(p(s[0])) + HowMany(s[1..], p)
  }

  lemma {:induction false} HowManyUpdate<T>(s: seq<T>, p: T -> bool, t: nat, x: T)
    requires t < |s|
    ensures HowMany(s[t := x], p) == HowMany(s, p) + One(p(x)) - One(p(s[t]))
    decreases |s|
  {
    if t > 0 {
      assert s[t := x][1..] == s[1..][t - 1 := x];
      HowManyUpdate(s[1..], p, t - 1, x);
    } else {
      assert s[t := x][1..] == s[1..];
    }
  }

  lemma {:induction false} NoneAtAll<T>(s: seq<T>, p: T -> bool)
    ensures HowMany(s, p) == 0 <==> forall t :: 0 <= t < |s| ==> !p(s[t])
    ensures HowMany(s, p) <= |s|
    decreases |s|
  {
    if s != [] {
      NoneAtAll(s[1..], p);
      assert forall t :: 1 <= t < |s| ==> s[t] == s[1..][t - 1];
    }
  }

  // Two of them.
  lemma TwoOfThem<T>(s: seq<T>, p: T -> bool, t: nat, u: nat, x: T)
    requires t < |s| && u < |s| && t != u && p(s[t]) && p(s[u]) && !p(x)
    ensures HowMany(s, p) >= 2
  {
    HowManyUpdate(s, p, t, x);
    var r := s[t := x];
    NoneAtAll(r, p);
    assert p(r[u]);
  }
}
