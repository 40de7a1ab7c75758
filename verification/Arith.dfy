/** Facts about products and floor division that the solver does not find by itself. */
module Arith {

  lemma DivBounds(a: int, b: int)
    requires b > 0
    ensures b * (a / b) <= a < b * (a / b) + b
  {
  }

  lemma MulMono(a: int, b: int, c: int)
    requires a <= b && 0 <= c
    ensures c * a <= c * b && a * c <= b * c
  {
  }

  lemma MulAdd(a: int, b: int, c: int)
    ensures c * (a + b) == c * a + c * b
    ensures (a + b) * c == a * c + b * c
  {
  }

  lemma MulSub(a: int, b: int, c: int)
    ensures c * (a - b) == c * a - c * b
    ensures (a - b) * c == a * c - b * c
  {
  }

  lemma MulAssoc(a: int, b: int, c: int)
    ensures a * (b * c) == (a * b) * c
    ensures a * (b * c) == b * (a * c)
    ensures (a * b) * c == (a * c) * b
  {
  }

  lemma MulNonNeg(a: int, b: int)
    requires 0 <= a && 0 <= b
    ensures 0 <= a * b
  {
  }

  /** `a / b` is the largest `q` with `b * q <= a`. */
  lemma DivIsLargest(a: int, b: int, q: int)
    requires b > 0
    ensures b * q <= a <==> q <= a / b
  {
    DivBounds(a, b);
    if q <= a / b {
      MulMono(q, a / b, b);
    } else {
      MulMono(a / b + 1, q, b);
      assert b * (a / b + 1) == b * (a / b) + b;
    }
  }

  lemma DivMono(a: int, a': int, b: int)
    requires b > 0 && a <= a'
    ensures a / b <= a' / b
  {
    DivBounds(a, b);
    DivIsLargest(a', b, a / b);
  }

  lemma DivUnique(a: int, b: int, q: int)
    requires b > 0 && b * q <= a < b * q + b
    ensures a / b == q
  {
    DivIsLargest(a, b, q);
    DivIsLargest(a, b, q + 1);
    assert b * (q + 1) == b * q + b;
  }
}
