/** Primes: Euclid's lemma, Fermat's little theorem and square roots of one. */
module PrimeNumbers {
  import opened Arith
  import opened Divisibility

  ghost predicate IsPrime(p: int) {
    p >= 2 && forall d: int :: 1 < d < p ==> !Divides(d, p)
  }

  lemma {:induction false} BezoutExists(a: nat, b: nat) returns (u: int, v: int)
    ensures u * a + v * b == Gcd(a, b)
    decreases b
  {
    if b == 0 {
      u, v := 1, 0;
    } else {
      CongMod(a, b);
      var x, y := BezoutExists(b, a % b);
      var q := a / b;
      assert a == q * b + a % b;
      u, v := y, x - q * y;
      BezoutBack(a, b, q, a % b, x, y);
    }
  }

  lemma BezoutBack(a: int, b: int, q: int, r: int, x: int, y: int)
    requires a == q * b + r
    ensures y * a + (x - q * y) * b == x * b + y * r
  {
  }

  lemma PrimeCoprime(p: int, a: nat)
    requires IsPrime(p) && !Divides(p, a)
    ensures Gcd(a, p) == 1
  {
    var g := Gcd(a, p);
    GcdIsGcd(a, p);
    DividesLe(g, p);
  }

  /** A number not divisible by the prime p has an inverse modulo p. */
  lemma PrimeInverse(p: int, a: int) returns (u: int)
    requires IsPrime(p) && !Divides(p, a)
    ensures Cong(u * a, 1, p)
  {
    var r := a % p;
    CongMod(a, p);
    ModSmall(r, p);
    PrimeCoprime(p, r);
    var v;
    u, v := BezoutExists(r, p);
    CongIntro(u * r, 1, p, -v);
    CongScale(r, a, u, p);
    CongSym(u * r, u * a, p);
    CongTrans(u * a, u * r, 1, p);
  }

  /** Cancelling a factor prime to p. */
  lemma PrimeCancel(p: int, a: int, x: int, y: int)
    requires IsPrime(p) && !Divides(p, a) && Cong(a * x, a * y, p)
    ensures Cong(x, y, p)
  {
    hide Cong;
    var u := PrimeInverse(p, a);
    CongScale(a * x, a * y, u, p);
    Assoc(u, a, x);
    Assoc(u, a, y);
    CongScale(u * a, 1, x, p);
    CongScale(u * a, 1, y, p);
    CongSym(u * a * x, x, p);
    CongTrans(x, u * a * x, u * a * y, p);
    CongTrans(x, u * a * y, y, p);
  }

  lemma CongDivides(p: int, a: int)
    requires p > 0
    ensures Divides(p, a) <==> Cong(a, 0, p)
  {
    ModSmall(0, p);
  }

  lemma EuclidLemma(p: int, a: int, b: int)
    requires IsPrime(p) && Divides(p, a * b)
    ensures Divides(p, a) || Divides(p, b)
  {
    if !Divides(p, a) {
      CongDivides(p, a * b);
      PrimeCancel(p, a, b, 0);
      CongDivides(p, b);
    }
  }

  /** Modulo a prime only 1 and -1 square to 1. */
  lemma SquareRootOfOne(p: int, x: int)
    requires IsPrime(p) && Cong(x * x, 1, p)
    ensures Cong(x, 1, p) || Cong(x, -1, p)
  {
    var k := CongElim(x * x, 1, p);
    assert (x - 1) * (x + 1) == k * p;
    DividesIntro(p, (x - 1) * (x + 1), k);
    EuclidLemma(p, x - 1, x + 1);
    if Divides(p, x - 1) {
      var j := DividesElim(p, x - 1);
      CongIntro(x, 1, p, j);
    } else {
      var j := DividesElim(p, x + 1);
      CongIntro(x, -1, p, j);
    }
  }

  ghost function Prod(s: set<nat>): int {
    if s == {} then 1 else var x :| x in s; x * Prod(s - {x})
  }

  lemma {:induction false} ProdPick(s: set<nat>, y: int)
    requires y in s
    ensures Prod(s) == y * Prod(s - {y})
    decreases |s|
  {
    var x :| x in s && Prod(s) == x * Prod(s - {x});
    if x != y {
      ProdPick(s - {x}, y);
      ProdPick(s - {y}, x);
      assert s - {x} - {y} == s - {y} - {x};
      Swap(x, y, Prod(s - {x} - {y}));
    }
  }

  lemma Swap(x: int, y: int, z: int)
    ensures x * (y * z) == y * (x * z)
  {
  }

  /** The numbers 1..n. */
  function Range(n: nat): (s: set<nat>)
    ensures forall x :: x in s <==> 1 <= x <= n
    ensures |s| == n
  {
    if n == 0 then {} else
      var s := Range(n - 1);
      assert n !in s;
      s + {n}
  }

  /** Multiplication by a modulo p on a set of residues. */
  function Times(a: int, p: int, s: set<nat>): set<nat>
    requires p > 0
  {
    set x | x in s :: a * x % p
  }

  lemma {:induction false} ProdTimes(a: int, p: int, s: set<nat>)
    requires IsPrime(p) && !Divides(p, a) && forall x :: x in s ==> 1 <= x < p
    ensures |Times(a, p, s)| == |s|
    ensures Cong(Prod(Times(a, p, s)), Pow(a, |s|) * Prod(s), p)
    decreases |s|
  {
    hide Cong;
    if s == {} {
      assert Times(a, p, s) == {};
      CongRefl(1, p);
    } else {
      var x :| x in s && Prod(s) == x * Prod(s - {x});
      var t, y := s - {x}, a * x % p;
      ProdTimes(a, p, t);
      TimesInjective(a, p, s, x);
      ProdPick(Times(a, p, s), y);
      CongMod(a * x, p);
      CongMul(y, a * x, Prod(Times(a, p, t)), Pow(a, |t|) * Prod(t), p);
      ProdArith(a, x, Pow(a, |t|), Prod(t));
    }
  }

  lemma CongRefl(a: int, p: int)
    requires p > 0
    ensures Cong(a, a, p)
  {
  }

  lemma ProdArith(a: int, x: int, P: int, t: int)
    ensures a * x * (P * t) == a * P * (x * t)
  {
  }

  /** Distinct residues stay distinct, so removing one removes its image. */
  lemma TimesInjective(a: int, p: int, s: set<nat>, x: int)
    requires IsPrime(p) && !Divides(p, a) && x in s && forall y :: y in s ==> 1 <= y < p
    ensures a * x % p in Times(a, p, s)
    ensures Times(a, p, s) - {a * x % p} == Times(a, p, s - {x})
    ensures |Times(a, p, s)| == |Times(a, p, s - {x})| + 1
  {
    forall z | z in s && a * z % p == a * x % p
      ensures z == x
    {
      PrimeCancel(p, a, z, x);
      ModSmall(z, p);
      ModSmall(x, p);
    }
    var y := a * x % p;
    assert y !in Times(a, p, s - {x});
    forall v | v in Times(a, p, s)
      ensures v == y || v in Times(a, p, s - {x})
    {
      var z :| z in s && v == a * z % p;
      assert z == x || z in s - {x};
    }
    assert Times(a, p, s) == Times(a, p, s - {x}) + {y};
  }

  lemma {:induction false} ProdCoprime(p: int, s: set<nat>)
    requires IsPrime(p) && forall x :: x in s ==> 1 <= x < p
    ensures !Divides(p, Prod(s))
    decreases |s|
  {
    if s == {} {
      if Divides(p, 1) { DividesLe(p, 1); }
    } else {
      var x :| x in s && Prod(s) == x * Prod(s - {x});
      ProdCoprime(p, s - {x});
      if Divides(p, Prod(s)) {
        EuclidLemma(p, x, Prod(s - {x}));
        DividesLe(p, x);
      }
    }
  }

  lemma {:induction false} SubsetSameSize(s: set<nat>, t: set<nat>)
    requires s <= t && |s| == |t|
    ensures s == t
    decreases |s|
  {
    if s != {} {
      var x :| x in s;
      SubsetSameSize(s - {x}, t - {x});
      assert s == s - {x} + {x} == t - {x} + {x} == t;
    }
  }

  /** Fermat's little theorem. */
  lemma Fermat(p: int, a: int)
    requires IsPrime(p) && !Divides(p, a)
    ensures Cong(Pow(a, p - 1), 1, p)
  {
    hide Cong, Pow, Prod, Times, Range;
    var s := Range(p - 1);
    ProdTimes(a, p, s);
    TimesIsRange(p, a, s);
    ProdCoprime(p, s);
    CancelProduct(p, Prod(s), Pow(a, p - 1));
  }

  lemma CancelProduct(p: int, q: int, w: int)
    requires IsPrime(p) && !Divides(p, q) && Cong(q, w * q, p)
    ensures Cong(w, 1, p)
  {
    assert w * q == q * w && q == q * 1;
    PrimeCancel(p, q, w, 1);
  }

  lemma TimesIsRange(p: int, a: int, s: set<nat>)
    requires IsPrime(p) && !Divides(p, a) && s == Range(p - 1) && |Times(a, p, s)| == |s|
    ensures Times(a, p, s) == s
  {
    forall y | y in Times(a, p, s)
      ensures y in s
    {
      var x :| x in s && y == a * x % p;
      CongMod(a * x, p);
      if y == 0 {
        EuclidLemma(p, a, x);
        DividesLe(p, x);
      }
    }
    SubsetSameSize(Times(a, p, s), s);
  }
}
