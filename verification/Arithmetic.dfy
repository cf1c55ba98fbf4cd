/** Facts about products and quotients that the counting and averaging proofs share. */
module Arithmetic {

  lemma {:induction false} MulStep(a: nat, b: nat, width: nat)
    requires a < b
    ensures b * width >= a * width + width
    decreases b
  {
    if b > a + 1 {
      MulStep(a, b - 1, width);
    }
    assert b * width == (b - 1) * width + width;
  }

  lemma DivModUnique(k: nat, width: nat, q: nat, r: nat)
    requires r < width && k == q * width + r
    ensures k / width == q && k % width == r
  {
    var q' := k / width;
    assert k == q' * width + k % width;
    if q < q' {
      MulStep(q, q', width);
    } else if q' < q {
      MulStep(q', q, width);
    }
  }

  lemma Cancel(a: real, b: real, x: real)
    requires x != 0.0 && a * x == b * x
    ensures a == b
  {
  }

  lemma Quotient(a: real, n: real)
    requires n != 0.0
    ensures (a / n) * n == a
  {
  }

  lemma DivideKeepsOrder(a: real, b: real, n: real)
    requires a <= b && n > 0.0
    ensures a / n <= b / n
  {
    Quotient(a, n);
    Quotient(b, n);
    var p, q := a / n, b / n;
    if p > q {
      assert (p - q) * n > 0.0;
    }
  }

  lemma FractionWithin(a: real, n: real)
    requires 0.0 <= a <= n && n > 0.0
    ensures 0.0 <= a / n <= 1.0
  {
    DivideKeepsOrder(0.0, a, n);
    DivideKeepsOrder(a, n, n);
  }

  lemma MulAssociates(a: real, b: real, c: real)
    ensures (a * b) * c == a * (b * c) == b * (a * c)
  {
  }

  lemma Distributes(a: real, b: real, n: real)
    ensures (a + b) * n == a * n + b * n
  {
  }

  lemma QuotientSum(a: real, b: real, n: real)
    requires n != 0.0
    ensures a / n + b / n == (a + b) / n
  {
    Quotient(a, n);
    Quotient(b, n);
    Quotient(a + b, n);
    Distributes(a / n, b / n, n);
    Cancel(a / n + b / n, (a + b) / n, n);
  }
}
