// What several modules share.
module Common {
  datatype Option<T> = None | Some(value: T)

  // n times x.
  function Repeat<T>(x: T, n: nat): (s: seq<T>)
    ensures |s| == n && forall i :: 0 <= i < n ==> s[i] == x
  {
    seq(n, _ => x)
  }
}
