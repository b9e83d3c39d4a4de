/** Values shared by every component: optional values, results, and text fields that may fail to decode. */
module Base {

  datatype Option<+T> = None | Some(value: T)

  datatype Result<+T, +E> = Ok(value: T) | Err(error: E)

  /** A text field of a wire message after decoding. `spelling` tells apart different texts
      that decode to the same value (upper- and lower-case hex, for instance). */
  datatype Field<+T> = Malformed(text: string) | Parsed(value: T, spelling: nat)

  function Max(a: int, b: int): int {
    if a < b then b else a
  }

  function Min(a: int, b: int): int {
    if a < b then a else b
  }

  function Abs(a: int): int {
    if a < 0 then -a else a
  }

  /** Half of a signed integer, rounded towards zero as the implementation's division does. */
  function HalfTowardsZero(a: int): (q: int)
    ensures a >= 0 ==> a - 1 <= 2 * q <= a
    ensures a < 0 ==> a <= 2 * q <= a + 1
  {
    if a >= 0 then a / 2 else -((-a) / 2)
  }

  lemma SubsetSize<T>(a: set<T>, b: set<T>)
    requires a <= b
    ensures |a| <= |b|
  {
    assert b == a + (b - a);
  }
}
