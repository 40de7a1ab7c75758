/** The integer square root by Newton's method, as two modules of the contract compute it. */
module IntegerSqrt {
  import opened Host
  import opened Arith

  predicate IsRoot(n: nat, r: nat) {
    r * r <= n < (r + 1) * (r + 1)
  }

  /** The largest number whose square is at most `n`. */
  function Root(n: nat): (r: nat)
    ensures IsRoot(n, r)
  {
    if n == 0 then 0
    else
      var r := Root(n - 1);
      if (r + 1) * (r + 1) <= n then r + 1 else r
  }

  lemma SquareMono(a: nat, b: nat)
    requires a <= b
    ensures a * a <= b * b
  {
    MulMono(a, b, a);
    MulMono(a, b, b);
  }

  lemma RootUnique(n: nat, r: nat)
    requires IsRoot(n, r)
    ensures r == Root(n)
  {
    if r < Root(n) {
      SquareMono(r + 1, Root(n));
    } else if Root(n) < r {
      SquareMono(Root(n) + 1, r);
    }
  }

  lemma RootMono(m: nat, n: nat)
    requires m <= n
    ensures Root(m) <= Root(n)
  {
    if Root(n) < Root(m) {
      SquareMono(Root(n) + 1, Root(m));
    }
  }

  lemma RootAtMost(n: nat)
    ensures Root(n) <= n
  {
    if Root(n) > n {
      MulMono(1, Root(n), Root(n));
    }
  }

  /** A Newton step from any positive `x` does not fall below the root. */
  lemma NewtonStaysAbove(n: nat, x: nat)
    requires x > 0
    ensures var y := (x + n / x) / 2; n < (y + 1) * (y + 1)
  {
    var q := n / x;
    var y := (x + q) / 2;
    DivBounds(n, x);
    assert n < x * q + x;
    MulAdd(q, 1, x);
    // (x + q + 1)^2 >= 4 x (q + 1), and y + 1 is at least (x + q + 1) / 2
    var d := x - (q + 1);
    SquareNonNegative(d);
    assert d * d == x * x - 2 * (x * (q + 1)) + (q + 1) * (q + 1) by { ExpandDifference(x, q + 1); }
    assert (x + (q + 1)) * (x + (q + 1)) == x * x + 2 * (x * (q + 1)) + (q + 1) * (q + 1) by { ExpandSum(x, q + 1); }
    var m := 2 * (y + 1);
    assert x + q + 1 <= m;
    SquareMono(x + q + 1, m);
    assert m * m == 4 * ((y + 1) * (y + 1)) by { Quadruple(y + 1); }
  }

  lemma SquareNonNegative(d: int)
    ensures d * d >= 0
  {
    if d < 0 {
      MulNonNeg(-d, -d);
    }
  }

  lemma ExpandSum(a: int, b: int)
    ensures (a + b) * (a + b) == a * a + 2 * (a * b) + b * b
  {
  }

  lemma ExpandDifference(a: int, b: int)
    ensures (a - b) * (a - b) == a * a - 2 * (a * b) + b * b
  {
  }

  lemma Quadruple(a: int)
    ensures (2 * a) * (2 * a) == 4 * (a * a)
  {
  }

  /** When a Newton step no longer decreases `x`, its square is at most `n`. */
  lemma NewtonStops(n: nat, x: nat)
    requires x > 0 && (x + n / x) / 2 >= x
    ensures x * x <= n
  {
    DivIsLargest(n, x, x);
  }

  /** From 1 to `n`, a Newton step's sum is at most `n + 1`, so it stays in the type of `n`. */
  lemma NewtonFits(n: nat, x: nat)
    requires 0 < x <= n
    ensures x + n / x <= n + 1
  {
    var q := n / x;
    DivBounds(n, x);
    if q > 0 {
      MulNonNeg(x - 1, q - 1);
      assert (x - 1) * (q - 1) == x * q - x - q + 1 by { MulSub(q, 1, x - 1); MulSub(x, 1, q); }
    }
  }

  predicate Above(n: nat, x: nat) {
    n < (x + 1) * (x + 1)
  }

  predicate NotAbove(n: nat, x: nat) {
    x * x <= n
  }

  lemma NewtonStep(n: nat, x: nat)
    requires 0 < x <= n
    ensures x + n / x <= n + 1
    ensures var y := (x + n / x) / 2; 0 < y <= n && Above(n, y) && (y >= x ==> NotAbove(n, x))
  {
    NewtonFits(n, x);
    NewtonStaysAbove(n, x);
    if (x + n / x) / 2 >= x {
      NewtonStops(n, x);
    }
  }

  lemma NewtonStart(n: nat)
    requires n > 0
    ensures var y := (n + 1) / 2; 0 < y <= n && Above(n, n) && Above(n, y) && (y >= n ==> NotAbove(n, n))
  {
    var y := (n + 1) / 2;
    ExpandSum(y, 1);
    ExpandSum(n, 1);
    SquareNonNegative(y);
    SquareNonNegative(n);
  }

  /** The Newton loop on a positive `n` below the largest value `max` of its type.  No sum it forms
      exceeds `max`. */
  method NewtonLoop(n: nat, max: nat) returns (r: nat)
    requires 0 < n < max
    ensures r == Root(n)
  {
    NewtonStart(n);
    var x, y := n, (n + 1) / 2;
    while y < x
      invariant 0 < y <= n && 0 < x <= n
      invariant Above(n, x) && Above(n, y)
      invariant y >= x ==> NotAbove(n, x)
      decreases x
    {
      hide Above, NotAbove;
      x := y;
      NewtonStep(n, x);
      assert x + n / x <= max;
      y := (x + n / x) / 2;
    }
    RootUnique(n, x);
    return x;
  }

  /** The square root of the credit score.  At the largest 64-bit number its first sum overflows. */
  method SqrtU64(n: u64) returns (r: Result<u64>)
    ensures r == if n == U64_MAX then Err(Overflow) else Ok(Root(n))
  {
    if n == 0 {
      RootUnique(0, 0);
      return Ok(0);
    }
    if n == U64_MAX {
      return Err(Overflow);
    }
    var x := NewtonLoop(n, U64_MAX);
    RootAtMost(n);
    return Ok(x);
  }

  /** The square root of the simulation's variance. */
  method SqrtU128(n: u128) returns (r: Result<u128>)
    ensures r == if n == U128_MAX then Err(Overflow) else Ok(Root(n))
  {
    if n < 2 {
      RootUnique(n, n);
      return Ok(n);
    }
    if n == U128_MAX {
      return Err(Overflow);
    }
    var x := NewtonLoop(n, U128_MAX);
    RootAtMost(n);
    return Ok(x);
  }
}
