// Facts about products and (Euclidean) quotients of integers.
module Arithmetic {
  lemma MulMono(a: int, b: int, n: int)
    requires a <= b && n >= 0
    ensures a * n <= b * n
  {
    assert (b - a) * n >= 0;
  }

  lemma MulNext(q: int, n: int)
    ensures (q + 1) * n == q * n + n
    ensures (q - 1) * n == q * n - n
  {
  }

  lemma DivBounds(v: int, n: int)
    requires n >= 1
    ensures (v / n) * n <= v < (v / n) * n + n
  {
  }

  // The quotient is the only q with q * n <= v < (q + 1) * n.
  lemma DivUnique(v: int, n: int, q: int)
    requires n >= 1 && q * n <= v < q * n + n
    ensures v / n == q
  {
    DivBounds(v, n);
    MulNext(q, n);
    MulNext(v / n, n);
    if v / n > q {
      MulMono(q + 1, v / n, n);
    } else if v / n < q {
      MulMono(v / n + 1, q, n);
    }
  }

  lemma DivAtLeast(v: int, n: int, q: int)
    requires n >= 1 && q * n <= v
    ensures q <= v / n
  {
    DivBounds(v, n);
    MulNext(v / n, n);
    if v / n < q {
      MulMono(v / n + 1, q, n);
    }
  }

  lemma DivAtMost(v: int, n: int, q: int)
    requires n >= 1 && v < q * n + n
    ensures v / n <= q
  {
    DivBounds(v, n);
    MulNext(q, n);
    if v / n > q {
      MulMono(q + 1, v / n, n);
    }
  }

  lemma DivideTwice(v: nat, a: nat, b: nat)
    requires a > 0 && b > 0
    ensures a * b > 0 && v / a / b == v / (a * b)
  {
    var x := v / a;
    var q := x / b;
    DivBounds(v, a);
    DivBounds(x, b);
    MulMono(q * b, x, a);
    MulMono(x + 1, q * b + b, a);
    MulNext(x, a);
    Regroup(q, b, a);
    DivUnique(v, a * b, q);
  }

  lemma Regroup(q: int, b: int, a: int)
    ensures (q * b) * a == q * (a * b) && (q * b + b) * a == q * (a * b) + a * b
  {
    assert (q * b) * a == q * (b * a);
    assert (q * b + b) * a == (q * b) * a + b * a;
  }
}
