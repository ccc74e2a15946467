/** What several of the driver models use. */
module Basics {

  type Byte = b: int | 0 <= b < 256

  datatype Option<T> = None | Some(value: T)

  function Pow2(n: nat): (p: nat)
    ensures p > 0
  {
    if n == 0 then 1 else 2 * Pow2(n - 1)
  }

  predicate Multiple(x: int, m: int)
    requires m > 0
  {
    x % m == 0
  }

  function Max(a: int, b: int): int { if a < b then b else a }

  function Min(a: int, b: int): int { if a < b then a else b }

  lemma MulSum(k: int, u: int, v: int)
    ensures k * (u + v) == k * u + k * v
  {
  }

  lemma MulApart(m: int, d: int)
    requires m > 0
    ensures d >= 1 ==> m * d >= m
    ensures d <= -1 ==> m * d <= -m
  {
  }

  lemma MulMonotone(k: int, u: int, v: int)
    requires k >= 0 && u <= v
    ensures k * u <= k * v
  {
  }

  /** Quotient and remainder are the only ones of their kind. */
  lemma ModUnique(x: int, m: int, q: int, r: int)
    requires m > 0 && 0 <= r < m && x == m * q + r
    ensures x % m == r && x / m == q
  {
    var d := x / m - q;
    assert m * d == r - x % m by {
      assert x == m * (x / m) + x % m;
    }
    MulApart(m, d);
  }

  /** A multiple of m that is less than m above another is not above it. */
  lemma MultipleGap(x: int, y: int, m: int)
    requires m > 0 && Multiple(x, m) && Multiple(y, m)
    ensures x < y + m ==> x <= y
  {
    MulApart(m, x / m - y / m);
    assert x - y == m * (x / m - y / m);
  }

  lemma MultipleSum(x: int, y: int, m: int)
    requires m > 0 && Multiple(x, m) && Multiple(y, m)
    ensures Multiple(x + y, m) && Multiple(x - y, m)
  {
    MulSum(m, x / m, y / m);
    MulSum(m, x / m - y / m, y / m);
    ModUnique(x + y, m, x / m + y / m, 0);
    ModUnique(x - y, m, x / m - y / m, 0);
  }

  lemma Regroup<T>(a: seq<T>, b: seq<T>, c: seq<T>)
    ensures a + (b + c) == a + b + c
  {
  }

  /** The k-th of a device's coming answers; behind those listed all is well. */
  function Answer(answers: seq<int>, k: nat): int { if k < |answers| then answers[k] else 0 }

  function Later(answers: seq<int>, k: nat): seq<int> { if k < |answers| then answers[k..] else [] }
}
