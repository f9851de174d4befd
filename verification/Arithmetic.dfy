/** Facts about products and quotients of integers that the other modules cite by name. */
module Arithmetic {
  lemma {:induction false} MulMono(a: int, b: int, c: int)
    requires a <= b && c >= 0
    ensures a * c <= b * c
  {
  }

  lemma {:induction false} MulSucc(a: int, b: int)
    ensures (a + 1) * b == a * b + b && (a - 1) * b == a * b - b
  {
  }

  /** The quotient and remainder of a by b are the only q and r with a == q * b + r and 0 <= r < b. */
  lemma {:induction false} DivIs(a: int, b: int, q: int)
    requires b > 0 && q * b <= a < q * b + b
    ensures a / b == q && a % b == a - q * b
  {
    var d := a / b;
    assert a == b * d + a % b;
    if d < q {
      MulMono(d + 1, q, b);
    } else if q < d {
      MulMono(q + 1, d, b);
    }
  }

  lemma {:induction false} DivBounds(a: int, b: int)
    requires b > 0
    ensures a / b * b <= a < a / b * b + b && a % b == a - a / b * b
  {
    assert a == b * (a / b) + a % b;
  }

  /** The quotient of the successor, by way of the remainder. */
  lemma {:induction false} NextQuotient(a: int, b: int)
    requires a >= 0 && b > 0
    ensures a / b + (a - a / b * b + 1) / b == (a + 1) / b && (a + 1) / b >= 0
  {
    var q := a / b;
    DivBounds(a, b);
    MulSucc(q, b);
    if a - q * b + 1 == b {
      DivIs(b, b, 1);
      DivIs(a + 1, b, q + 1);
    } else {
      DivIs(a - q * b + 1, b, 0);
      DivIs(a + 1, b, q);
    }
  }

  lemma {:induction false} ModShift(a: int, f: int, m: int)
    requires f > 0
    ensures (a + m * f) % f == a % f
  {
    DivBounds(a, f);
    var q := a / f;
    assert (q + m) * f == q * f + m * f;
    DivIs(a + m * f, f, q + m);
  }

  function CeilDiv(a: int, b: int): int
    requires b > 0
  {
    (a + b - 1) / b
  }

  lemma {:induction false} CeilDivIs(a: int, b: int, q: int)
    requires a > 0 && b > 0
    ensures q == CeilDiv(a, b) <==> (q - 1) * b < a <= q * b
  {
    DivBounds(a + b - 1, b);
    MulSucc(q, b);
    if (q - 1) * b < a <= q * b {
      DivIs(a + b - 1, b, q);
    }
  }
}
