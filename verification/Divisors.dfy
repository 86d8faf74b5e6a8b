/** Greatest common divisors: what a bucket can owe is a whole number of them. */
module Divisors {
  import opened Common

  lemma MultipleOf(x: int, g: int, n: int)
    requires g > 0 && x == g * n
    ensures x % g == 0
  {
    DivUnique(x, g, n, 0);
  }

  /** Multiples of g are closed under a * x + b * y. */
  lemma Combination(g: int, a: int, x: int, b: int, y: int)
    requires g > 0 && x % g == 0 && y % g == 0
    ensures (a * x + b * y) % g == 0
  {
    var m, n := x / g, y / g;
    assert a * x == g * (a * m) by {
      assert x == g * m;
    }
    assert b * y == g * (b * n) by {
      assert y == g * n;
    }
    Distribute(g, a * m, b * n);
    MultipleOf(a * x + b * y, g, a * m + b * n);
  }

  lemma Scaled(g: int, d: int)
    requires g > 0
    ensures if d >= 1 then g * d >= g else g * d <= 0
  {
  }

  /** Two different multiples of g are at least g apart. */
  lemma MultiplesApart(x: int, y: int, g: int)
    requires g > 0 && x % g == 0 && y % g == 0 && x < y
    ensures x <= y - g
  {
    var m, d := x / g, y / g - x / g;
    Distribute(g, m, d);
    Scaled(g, d);
  }

  function Gcd(a: nat, b: nat): (g: nat)
    requires a > 0
    ensures 0 < g <= a && a % g == 0 && b % g == 0
    decreases b
  {
    if b == 0 then
      MultipleOf(a, a, 1);
      MultipleOf(0, a, 0);
      a
    else
      var g := Gcd(b, a % b);
      Combination(g, a / b, b, 1, a % b);
      assert a == a / b * b + 1 * (a % b);
      DivisorAtMost(a, g);
      g
  }

  lemma DivisorAtMost(a: int, g: int)
    requires a > 0 && g > 0 && a % g == 0
    ensures g <= a
  {
    assert a == g * (a / g);
  }

  lemma {:induction false} Bezout(a: nat, b: nat) returns (x: int, y: int)
    requires a > 0
    ensures x * a + y * b == Gcd(a, b)
    decreases b
  {
    if b == 0 {
      x, y := 1, 0;
    } else {
      var u, v := Bezout(b, a % b);
      x, y := v, u - v * (a / b);
      BezoutStep(u, v, a, b, a / b, a % b);
    }
  }

  lemma BezoutStep(u: int, v: int, a: int, b: int, q: int, r: int)
    requires a == b * q + r
    ensures v * a + (u - v * q) * b == u * b + v * r
  {
    Distribute(v, b * q, r);
    Distribute(b, u, -(v * q));
    assert v * (b * q) == b * (v * q);
  }

  /** Every common divisor divides the greatest one. */
  lemma GcdIsGreatest(a: nat, b: nat, d: int)
    requires a > 0 && d > 0 && a % d == 0 && b % d == 0
    ensures Gcd(a, b) % d == 0 && d <= Gcd(a, b)
  {
    var x, y := Bezout(a, b);
    Combination(d, x, a, y, b);
    DivisorAtMost(Gcd(a, b), d);
  }

  lemma GcdIsWholeIff(a: nat, b: nat)
    requires a > 0
    ensures Gcd(a, b) == a <==> b % a == 0
  {
    if b % a == 0 {
      MultipleOf(a, a, 1);
      GcdIsGreatest(a, b, a);
    }
  }

  /** Some number of steps of a reaches a point exactly Gcd(a, b) past a multiple of b. */
  lemma StepsReachGcd(a: nat, b: nat) returns (n: nat, q: nat)
    requires a > 0 && b > 0
    ensures n > 0 && n * a == Gcd(a, b) + q * b
  {
    var x, y := Bezout(a, b);
    var k := Max(x, -x) + Max(y, -y) + 1;
    AtLeast(k, a);
    AtLeast(k, b);
    n, q := x + k * b, k * a - y;
    ShiftedCombination(x, y, k, a, b);
  }

  lemma AtLeast(k: int, a: int)
    requires k >= 0 && a >= 1
    ensures k * a >= k
  {
  }

  lemma ShiftedCombination(x: int, y: int, k: int, a: int, b: int)
    ensures (x + k * b) * a == (x * a + y * b) + (k * a - y) * b
  {
    Distribute(a, x, k * b);
    Distribute(b, k * a, -y);
    assert a * (k * b) == b * (k * a);
  }

  // ---- Of a number and a whole set ----

  ghost function Pick(s: set<nat>): (x: nat)
    requires s != {}
    ensures x in s
  {
    var x :| x in s;
    x
  }

  /** The greatest common divisor of t and all members of s. */
  ghost function GcdOf(t: nat, s: set<nat>): (g: nat)
    requires t > 0
    ensures 0 < g <= t && t % g == 0
    decreases |s|
  {
    if s == {} then
      MultipleOf(t, t, 1);
      t
    else
      var x := Pick(s);
      var rest := GcdOf(t, s - {x});
      DividesThrough(Gcd(rest, x), rest, t);
      Gcd(rest, x)
  }

  lemma DividesThrough(g: int, h: int, x: int)
    requires g > 0 && h > 0 && h % g == 0 && x % h == 0
    ensures x % g == 0
  {
    Combination(g, x / h, h, 0, h);
    assert x == x / h * h + 0 * h;
  }

  lemma {:induction false} GcdOfDivides(t: nat, s: set<nat>, x: nat)
    requires t > 0 && x in s
    ensures x % GcdOf(t, s) == 0
    decreases |s|
  {
    var y := Pick(s);
    var rest := GcdOf(t, s - {y});
    if x != y {
      GcdOfDivides(t, s - {y}, x);
      DividesThrough(Gcd(rest, y), rest, x);
    }
  }

  lemma {:induction false} GcdOfIsGreatest(t: nat, s: set<nat>, d: int)
    requires t > 0 && d > 0 && t % d == 0 && forall x :: x in s ==> x % d == 0
    ensures GcdOf(t, s) % d == 0 && d <= GcdOf(t, s)
    decreases |s|
  {
    if s == {} {
      DivisorAtMost(t, d);
    } else {
      var y := Pick(s);
      GcdOfIsGreatest(t, s - {y}, d);
      GcdIsGreatest(GcdOf(t, s - {y}), y, d);
    }
  }
}
