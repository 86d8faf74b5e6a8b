/** Small definitions shared by every module. */
module Common {

  datatype Option<+T> = None | Some(value: T)

  function Min(a: int, b: int): int {
    if a < b then a else b
  }

  function Max(a: int, b: int): int {
    if a < b then b else a
  }

  /** rpm * x distributes over a split of x; stated once, because the solver needs the instance. */
  lemma Distribute(k: int, x: int, y: int)
    ensures k * (x + y) == k * x + k * y
  {
  }

  /** Division by a positive divisor moves by exactly n when the dividend moves by n divisors. */
  lemma DivShift(u: int, k: int, n: int)
    requires k > 0
    ensures (u - k * n) / k == u / k - n
    ensures (u - k * n) % k == u % k
  {
    var q, r := u / k, u % k;
    assert u - k * n == k * (q - n) + r;
    DivUnique(u - k * n, k, q - n, r);
  }

  lemma DivUnique(u: int, k: int, q: int, r: int)
    requires k > 0 && u == k * q + r && 0 <= r < k
    ensures u / k == q && u % k == r
  {
    var d := u / k - q;
    assert k * d == r - u % k;
    assert d > 0 ==> k * d >= k;
    assert d < 0 ==> k * d <= -k;
  }
}
