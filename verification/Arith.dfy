/** Division facts the interval arithmetic rests on. */
module Arith {

  lemma MulLe(a: nat, b: nat, c: nat)
    requires b <= c
    ensures a * b <= a * c && b * a <= c * a
  {
  }

  lemma Distribute(a: int, b: int, c: int)
    ensures (a + b) * c == a * c + b * c
  {
  }

  lemma DivMod(n: nat, s: nat)
    requires s > 0
    ensures n == n / s * s + n % s && n % s < s
  {
  }

  /** Quotient and remainder are unique. */
  lemma DivUnique(n: nat, s: nat, q: nat, r: nat)
    requires s > 0 && n == q * s + r && r < s
    ensures n / s == q
  {
    var p := n / s;
    DivMod(n, s);
    if p < q {
      MulLe(s, p + 1, q);
      Distribute(p, 1, s);
    } else if p > q {
      MulLe(s, q + 1, p);
      Distribute(q, 1, s);
    }
  }

  function CeilDiv(a: nat, s: nat): nat
    requires s > 0
  {
    (a + s - 1) / s
  }

  lemma CeilOf(b: nat, s: nat)
    requires s > 0
    ensures CeilDiv(b, s) == b / s + (if b % s == 0 then 0 else 1)
  {
    DivMod(b, s);
    if b % s == 0 {
      DivUnique(b + s - 1, s, b / s, s - 1);
    } else {
      Distribute(b / s, 1, s);
      DivUnique(b + s - 1, s, b / s + 1, b % s - 1);
    }
  }

  lemma SumQuotient(a: nat, qa: nat, ra: nat, b: nat, qb: nat, rb: nat, s: nat)
    requires s > 0 && a == qa * s + ra && b == qb * s + rb && ra < s && rb < s
    ensures (a + b) / s == qa + qb + (if ra + rb < s then 0 else 1)
  {
    Distribute(qa, qb, s);
    Distribute(qa + qb, 1, s);
    if ra + rb < s {
      DivUnique(a + b, s, qa + qb, ra + rb);
    } else {
      DivUnique(a + b, s, qa + qb + 1, ra + rb - s);
    }
  }

  /** Adding `b` moves the quotient by at least `floor(b/s)` and at most `ceil(b/s)`. */
  lemma DivSplit(a: nat, b: nat, s: nat)
    requires s > 0
    ensures a / s + b / s <= (a + b) / s <= a / s + CeilDiv(b, s)
  {
    SumDiv(a, b, s);
    CeilOf(b, s);
  }

  lemma SumDiv(a: nat, b: nat, s: nat)
    requires s > 0
    ensures (a + b) / s == a / s + b / s + (if a % s + b % s < s then 0 else 1)
    ensures a % s < s && b % s < s
  {
    DivMod(a, s);
    DivMod(b, s);
    SumQuotient(a, a / s, a % s, b, b / s, b % s, s);
  }

  lemma DivLe(a: nat, b: nat, s: nat)
    requires a <= b && s > 0
    ensures a / s <= b / s
  {
    DivSplit(a, b - a, s);
  }

  lemma DivSelf(a: nat, s: nat)
    requires s > 0
    ensures a * s / s == a && 0 / s == 0
  {
    DivUnique(a * s, s, a, 0);
    DivUnique(0, s, 0, 0);
  }

  /** A ceiling is below `n` by less than the divisor. */
  lemma CeilTight(a: nat, s: nat)
    requires s > 0 && a > 0
    ensures CeilDiv(a, s) >= 1 && (CeilDiv(a, s) - 1) * s < a
  {
    CeilOf(a, s);
    DivMod(a, s);
  }

  lemma CeilWhole(a: nat)
    requires a > 0
    ensures CeilDiv(a, a) == 1
  {
    DivUnique(2 * a - 1, a, 1, a - 1);
  }

  function Power(b: nat, e: nat): (p: nat)
    ensures b > 0 ==> p > 0
  {
    if e == 0 then 1 else b * Power(b, e - 1)
  }

  /** `a * n`, by repeated addition: the linear form the invariants are kept in. */
  function Times(a: nat, n: nat): nat {
    if n == 0 then 0 else Times(a, n - 1) + a
  }

  lemma {:induction false} TimesIsProduct(a: nat, n: nat)
    ensures Times(a, n) == a * n
  {
    if n > 0 {
      TimesIsProduct(a, n - 1);
      Distribute(n - 1, 1, a);
    }
  }

  lemma {:induction false} TimesMonotone(a: nat, m: nat, n: nat)
    requires m <= n
    ensures Times(a, m) <= Times(a, n)
    decreases n
  {
    if m < n {
      TimesMonotone(a, m, n - 1);
    }
  }

  /** `x / s`, by repeated subtraction. */
  function Quot(x: nat, s: nat): nat
    requires s > 0
    decreases x
  {
    if x < s then 0 else 1 + Quot(x - s, s)
  }

  lemma {:induction false} QuotIsDiv(x: nat, s: nat)
    requires s > 0
    ensures Quot(x, s) == x / s
    decreases x
  {
    if x < s {
      DivUnique(x, s, 0, x);
    } else {
      QuotIsDiv(x - s, s);
      DivMod(x - s, s);
      Distribute((x - s) / s, 1, s);
      DivUnique(x, s, (x - s) / s + 1, (x - s) % s);
    }
  }
}
