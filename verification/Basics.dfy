/** Octets, options, and the few facts on streams and on products that several modules need. */
module Basics {

  type Byte = bv8

  datatype Option<T> = None | Some(value: T)

  function Min(a: int, b: int): (m: int)
    ensures m <= a && m <= b && (m == a || m == b)
  {
    if a < b then a else b
  }

  /** If a stream that starts with `h` is a prefix of a stream that starts with `h`, so are the tails. */
  lemma PrefixAfterHead<T>(h: seq<T>, a: seq<T>, b: seq<T>)
    requires h + a <= h + b
    ensures a <= b
  {
    assert (h + a)[|h|..] == a && (h + b)[|h|..] == b;
  }

  /** Among the multiples of n only 0 lies strictly between -n and n. */
  lemma {:induction false} MultipleIsFar(k: int, n: nat)
    ensures k >= 1 ==> k * n >= n
    ensures k <= -1 ==> k * n + n <= 0
    decreases if k < 0 then 0 - k else k
  {
    if k > 1 {
      MultipleIsFar(k - 1, n);
      assert k * n == (k - 1) * n + n;
    } else if k < -1 {
      MultipleIsFar(k + 1, n);
      assert k * n == (k + 1) * n - n;
    }
  }
}
