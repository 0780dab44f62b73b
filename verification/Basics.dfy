/** Values that may be missing, and computations that may fail. */
module Basics {

  datatype Option<+T> = None | Some(value: T)

  datatype Result<+T, +E> = Ok(value: T) | Err(error: E)

  function Max(a: int, b: int): int {
    if a < b then b else a
  }

  function Min(a: int, b: int): int {
    if a < b then a else b
  }

  lemma ProductMonotone(m: nat, a: nat, b: nat)
    ensures a <= b ==> m * a <= m * b
  {
  }

  /** One more stretch of `d` after `n` of them. */
  lemma OneMoreWait(d: nat, n: nat, t: nat, u: nat, v: nat)
    requires t + d * n <= u && u + d <= v
    ensures t + d * (n + 1) <= v
  {
    assert d * (n + 1) == d * n + d;
  }

  lemma Regrouped<T>(a: seq<T>, b: seq<T>, c: seq<T>)
    ensures a + b + c == a + (b + c)
  {
  }
}
