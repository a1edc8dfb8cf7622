/** Integer facts shared by the whole project: powers, congruences, divisibility. */
module Arith {

  function Pow(b: int, e: nat): int {
    if e == 0 then 1 else b * Pow(b, e - 1)
  }

  lemma PowZero(b: int)
    ensures Pow(b, 0) == 1
  {
  }

  lemma {:induction false} PowAdd(b: int, x: nat, y: nat)
    ensures Pow(b, x + y) == Pow(b, x) * Pow(b, y)
  {
    if x == 0 {
    } else {
      PowAdd(b, x - 1, y);
      Assoc(b, Pow(b, x - 1), Pow(b, y));
    }
  }

  lemma Assoc(a: int, b: int, c: int)
    ensures a * (b * c) == (a * b) * c
  {
  }

  lemma {:induction false} PowPos(b: int, e: nat)
    requires b > 0
    ensures Pow(b, e) > 0
  {
    if e > 0 {
      PowPos(b, e - 1);
      MulPos(b, Pow(b, e - 1));
    }
  }

  lemma MulPos(a: int, b: int)
    requires a > 0 && b > 0
    ensures a * b > 0
  {
  }

  lemma MulMono(a: int, b: int, c: int)
    requires a <= b && 0 <= c
    ensures a * c <= b * c && c * a <= c * b
  {
  }

  /** Quotient and remainder are determined by x == q * d + r. */
  lemma DivUnique(x: int, d: int, q: int, r: int)
    requires d > 0 && 0 <= r < d && x == q * d + r
    ensures x / d == q && x % d == r
  {
    var q', r' := x / d, x % d;
    assert x == q' * d + r' by { assert x == d * q' + r'; }
    if q' > q {
      MulMono(q + 1, q', d);
    } else if q' < q {
      MulMono(q' + 1, q, d);
    }
  }

  /** Congruence modulo m. */
  predicate Cong(a: int, b: int, m: int)
    requires m > 0
  {
    a % m == b % m
  }

  lemma CongIntro(a: int, b: int, m: int, k: int)
    requires m > 0 && a == b + k * m
    ensures Cong(a, b, m)
  {
    var q, r := b / m, b % m;
    assert b == m * q + r;
    assert a == (q + k) * m + r;
    DivUnique(a, m, q + k, r);
  }

  lemma CongElim(a: int, b: int, m: int) returns (k: int)
    requires m > 0 && Cong(a, b, m)
    ensures a == b + k * m
  {
    k := a / m - b / m;
    assert a == m * (a / m) + a % m;
    assert b == m * (b / m) + b % m;
    assert k * m == m * (a / m) - m * (b / m);
  }

  lemma CongSym(a: int, b: int, m: int)
    requires m > 0 && Cong(a, b, m)
    ensures Cong(b, a, m)
  {
  }

  lemma CongTrans(a: int, b: int, c: int, m: int)
    requires m > 0 && Cong(a, b, m) && Cong(b, c, m)
    ensures Cong(a, c, m)
  {
  }

  lemma CongAdd(a: int, b: int, c: int, d: int, m: int)
    requires m > 0 && Cong(a, b, m) && Cong(c, d, m)
    ensures Cong(a + c, b + d, m)
  {
    hide Cong;
    var k := CongElim(a, b, m);
    var l := CongElim(c, d, m);
    assert (k + l) * m == k * m + l * m;
    CongIntro(a + c, b + d, m, k + l);
  }

  lemma CongScale(a: int, b: int, c: int, m: int)
    requires m > 0 && Cong(a, b, m)
    ensures Cong(a * c, b * c, m) && Cong(c * a, c * b, m)
  {
    hide Cong;
    var k := CongElim(a, b, m);
    assert a * c == b * c + (k * c) * m;
    CongIntro(a * c, b * c, m, k * c);
  }

  lemma CongMul(a: int, b: int, c: int, d: int, m: int)
    requires m > 0 && Cong(a, b, m) && Cong(c, d, m)
    ensures Cong(a * c, b * d, m)
  {
    CongScale(a, b, c, m);
    CongScale(c, d, b, m);
  }

  lemma CongMod(a: int, m: int)
    requires m > 0
    ensures Cong(a % m, a, m) && 0 <= a % m < m
  {
    assert a == m * (a / m) + a % m;
    DivUnique(a % m, m, 0, a % m);
  }

  lemma ModSmall(a: int, m: int)
    requires 0 <= a < m
    ensures a % m == a
  {
    DivUnique(a, m, 0, a);
  }

  lemma CongSmall(a: int, b: int, m: int)
    requires m > 0 && Cong(a, b, m) && 0 <= a < m
    ensures a == b % m
  {
    ModSmall(a, m);
  }
}
