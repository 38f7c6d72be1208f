/** What several parts share: options, bytes, the number ranges of the host language, lists, and integer division. */
module Basics {

  datatype Option<T> = None | Some(value: T)

  type byte = x: int | 0 <= x < 256

  /** Doubles represent every integer up to here. */
  const SAFE_INTEGER := 9007199254740992

  /** Non-negative integers below this survive the truncation `| 0`. */
  const INT32_LIMIT := 2147483648

  function Reversed<T>(d: seq<T>): (r: seq<T>)
    ensures |r| == |d| && forall k :: 0 <= k < |d| ==> r[k] == d[|d| - 1 - k]
  {
    seq(|d|, k requires 0 <= k < |d| => d[|d| - 1 - k])
  }

  lemma MulOrder(x: int, y: int, n: nat)
    ensures x <= y ==> x * n <= y * n
  {
  }

  lemma DivModUnique(c: int, m: int, q: int, r: int)
    requires m > 0 && c == q * m + r && 0 <= r < m
    ensures c / m == q && c % m == r
  {
    QuotientUnique(c / m, q, m, c % m, r);
  }

  lemma QuotientUnique(k: int, q: int, m: int, s: int, r: int)
    requires k * m + s == q * m + r && 0 <= r < m && 0 <= s < m
    ensures k == q
  {
    MulOrder(k + 1, q, m);
    MulOrder(q + 1, k, m);
  }
}
