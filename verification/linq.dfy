/** The one LINQ operator the controller relies on, stated over sequences. */
module Linq {

  function Min(a: nat, b: nat): nat {
    if a < b then a else b
  }

  /** `Enumerable.Take(n)`: the first `n` elements, or all of them when there are fewer. */
  function Take<T>(s: seq<T>, n: nat): (r: seq<T>)
    ensures |r| == Min(n, |s|)
    ensures r <= s
  {
    if |s| <= n then s else s[..n]
  }
}
