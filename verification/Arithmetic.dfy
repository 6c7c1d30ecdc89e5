/** Multiplication and division facts that the solver should not have to rediscover. */
module Arithmetic {

  lemma {:induction false} MulMonotone(a: int, b: int, m: nat)
    requires a <= b
    ensures a * m <= b * m
  {
    assert (b - a) * m >= 0;
  }

  lemma {:induction false} MulSuccessor(a: int, m: int)
    ensures (a + 1) * m == a * m + m
  {
  }

  lemma {:induction false} MulCancel(a: nat, b: nat, m: nat)
    requires m > 0 && a * m <= b * m
    ensures a <= b
  {
    if a > b {
      MulMonotone(b + 1, a, m);
      MulSuccessor(b, m);
    }
  }

  lemma {:induction false} DivMod(t: nat, m: nat)
    requires m > 0
    ensures t == t / m * m + t % m
  {
  }

  lemma {:induction false} DivIs(t: nat, q: nat, m: nat)
    requires m > 0 && q * m <= t < q * m + m
    ensures t / m == q
  {
    var d := t / m;
    DivMod(t, m);
    MulSuccessor(q, m);
    MulSuccessor(d, m);
    if d > q {
      MulMonotone(q + 1, d, m);
    } else if d < q {
      MulMonotone(d + 1, q, m);
    }
  }

  lemma {:induction false} DivMonotone(a: nat, b: nat, m: nat)
    requires m > 0 && a <= b
    ensures a / m <= b / m
  {
    var c, d := a / m, b / m;
    DivMod(a, m);
    DivMod(b, m);
    MulSuccessor(d, m);
    if c > d {
      MulMonotone(d + 1, c, m);
    }
  }
}
