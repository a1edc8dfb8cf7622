/** Divisibility and greatest common divisors of integers. */
module Divisibility {
  import opened Arith

  predicate Divides(d: int, a: int)
    requires d > 0
  {
    a % d == 0
  }

  lemma DividesIntro(d: int, a: int, k: int)
    requires d > 0 && a == k * d
    ensures Divides(d, a)
  {
    DivUnique(a, d, k, 0);
  }

  lemma DividesElim(d: int, a: int) returns (k: int)
    requires d > 0 && Divides(d, a)
    ensures a == k * d
  {
    k := a / d;
  }

  lemma DividesSum(d: int, a: int, b: int)
    requires d > 0 && Divides(d, a) && Divides(d, b)
    ensures Divides(d, a + b) && Divides(d, a - b)
  {
    var k := DividesElim(d, a);
    var l := DividesElim(d, b);
    assert (k + l) * d == k * d + l * d && (k - l) * d == k * d - l * d;
    DividesIntro(d, a + b, k + l);
    DividesIntro(d, a - b, k - l);
  }

  lemma DividesMul(d: int, a: int, c: int)
    requires d > 0 && Divides(d, a)
    ensures Divides(d, c * a) && Divides(d, a * c)
  {
    var k := DividesElim(d, a);
    Assoc(c, k, d);
    DividesIntro(d, c * a, c * k);
  }

  /** An odd divisor of 2a divides a, and the other way round. */
  lemma DividesHalf(d: int, a: int)
    requires d > 0 && d % 2 == 1
    ensures Divides(d, 2 * a) <==> Divides(d, a)
  {
    if Divides(d, 2 * a) {
      var k := DividesElim(d, 2 * a);
      var h, j, e := d / 2, k / 2, k % 2;
      assert d == 2 * h + 1 && k * d == 2 * (k * h + j) + e;
      assert k * d == 2 * (j * d) + e * d;
      DividesIntro(d, a, j);
    } else if Divides(d, a) {
      DividesMul(d, a, 2);
    }
  }

  lemma DividesOdd(d: int, b: int)
    requires d > 0 && Divides(d, b) && b % 2 == 1
    ensures d % 2 == 1
  {
    var k := DividesElim(d, b);
    var h, e := d / 2, d % 2;
    assert k * d == 2 * (k * h) + k * e;
  }

  lemma DividesLe(d: int, a: int)
    requires d > 0 && a > 0 && Divides(d, a)
    ensures d <= a
  {
    var k := DividesElim(d, a);
    if k <= 0 { MulMono(k, 0, d); } else { MulMono(1, k, d); }
  }

  /** g is the greatest common divisor of a and b in the order of divisibility. */
  ghost predicate IsGcd(g: nat, a: nat, b: nat) {
    if a == 0 && b == 0 then g == 0
    else
      g > 0 && Divides(g, a) && Divides(g, b)
      && forall d: int :: d > 0 && Divides(d, a) && Divides(d, b) ==> Divides(d, g)
  }

  function Gcd(a: nat, b: nat): nat
    decreases b
  {
    if b == 0 then a else CongMod(a, b); Gcd(b, a % b)
  }

  lemma {:induction false} GcdIsGcd(a: nat, b: nat)
    ensures IsGcd(Gcd(a, b), a, b)
    decreases b
  {
    if b == 0 {
      if a > 0 {
        DividesIntro(a, a, 1);
        DividesIntro(a, 0, 0);
      }
    } else {
      CongMod(a, b);
      var g, r := Gcd(b, a % b), a % b;
      GcdIsGcd(b, r);
      var k := a / b;
      assert a == k * b + r;
      DividesMul(g, b, k);
      DividesSum(g, k * b, r);
      forall d: int | d > 0 && Divides(d, a) && Divides(d, b)
        ensures Divides(d, g)
      {
        DividesMul(d, b, k);
        DividesSum(d, a, k * b);
      }
    }
  }

  lemma GcdUnique(g: nat, h: nat, a: nat, b: nat)
    requires IsGcd(g, a, b) && IsGcd(h, a, b)
    ensures g == h
  {
    if a != 0 || b != 0 {
      DividesLe(g, h);
      DividesLe(h, g);
    }
  }

  /** Pairs with the same common divisors have the same gcd. */
  lemma GcdSame(a: nat, b: nat, c: nat, e: nat)
    requires (a > 0 || b > 0) && (c > 0 || e > 0)
    requires forall d: int :: d > 0 ==> ((Divides(d, a) && Divides(d, b)) <==> (Divides(d, c) && Divides(d, e)))
    ensures Gcd(a, b) == Gcd(c, e)
  {
    GcdIsGcd(a, b);
    GcdIsGcd(c, e);
    GcdUnique(Gcd(a, b), Gcd(c, e), a, b);
  }

  lemma GcdComm(a: nat, b: nat)
    ensures Gcd(a, b) == Gcd(b, a)
  {
    if a > 0 || b > 0 { GcdSame(a, b, b, a); }
  }

  lemma GcdSub(a: nat, b: nat)
    requires b <= a && b > 0
    ensures Gcd(a - b, b) == Gcd(a, b)
  {
    forall d: int | d > 0
      ensures (Divides(d, a - b) && Divides(d, b)) <==> (Divides(d, a) && Divides(d, b))
    {
      if Divides(d, b) {
        if Divides(d, a) { DividesSum(d, a, b); }
        if Divides(d, a - b) { DividesSum(d, a - b, b); }
      }
    }
    GcdSame(a - b, b, a, b);
  }

  lemma GcdHalve(a: nat, b: nat)
    requires b % 2 == 1
    ensures Gcd(2 * a, b) == Gcd(a, b)
  {
    forall d: int | d > 0
      ensures (Divides(d, 2 * a) && Divides(d, b)) <==> (Divides(d, a) && Divides(d, b))
    {
      if Divides(d, b) {
        DividesOdd(d, b);
        DividesHalf(d, a);
      }
    }
    GcdSame(2 * a, b, a, b);
  }

  lemma {:induction false} GcdStrip(a: nat, b: nat, e: nat)
    requires b % 2 == 1
    ensures Pow(2, e) > 0 && Pow(2, e) * a >= 0 && Gcd(Pow(2, e) * a, b) == Gcd(a, b)
  {
    PowPos(2, e);
    if e > 0 {
      GcdStrip(a, b, e - 1);
      assert Pow(2, e) * a == 2 * (Pow(2, e - 1) * a);
      GcdHalve(Pow(2, e - 1) * a, b);
    }
  }

  lemma {:induction false} GcdScale(a: nat, b: nat, c: nat)
    requires c > 0
    ensures a * c >= 0 && b * c >= 0 && Gcd(a * c, b * c) == Gcd(a, b) * c
    decreases b
  {
    MulMono(0, a, c);
    MulMono(0, b, c);
    if b > 0 {
      CongMod(a, b);
      var k, r := a / b, a % b;
      assert a == k * b + r;
      GcdScale(b, r, c);
      MulPos(b, c);
      TopDigit0(b, r, c);
      ScaleDiv(a, k, b, r, c);
      DivUnique(a * c, b * c, k, r * c);
    }
  }

  lemma ScaleDiv(a: int, k: int, b: int, r: int, c: int)
    requires a == k * b + r
    ensures a * c == k * (b * c) + r * c
  {
  }

  lemma TopDigit0(b: int, r: int, c: int)
    requires 0 <= r < b && c > 0
    ensures 0 <= r * c < b * c
  {
    MulMono(r + 1, b, c);
    MulMono(0, r, c);
  }
}

/** The binary greatest common divisor. */
module MpiGcd {
  import opened Arith
  import opened Limbs
  import opened MpiCore
  import opened MpiBits
  import opened MpiShift
  import opened MpiAddSub
  import opened Divisibility

  /** The result: 0, not |A|, when B is zero. */
  function GcdValue(a: nat, b: nat): nat {
    if b == 0 then 0 else Gcd(a, b)
  }

  /** The value returned is the greatest common divisor exactly when B != 0 or A == 0. */
  lemma GcdValueCorrect(a: nat, b: nat)
    ensures IsGcd(GcdValue(a, b), a, b) <==> (b != 0 || a == 0)
  {
    GcdIsGcd(a, b);
  }

  /** State of the loop against the pair (a, b) it started from. */
  ghost predicate GcdInv(ta: nat, tb: nat, a: nat, b: nat) {
    if b == 0 then tb == 0
    else tb > 0 && (ta == 0 || ta % 2 == 1 || tb % 2 == 1) && Gcd(ta, tb) == Gcd(a, b)
  }

  method GcdMpi(G: Mpi, A: Mpi, B: Mpi)
    modifies G
    ensures G.V() == GcdValue(Abs(old(A.V())), Abs(old(B.V())))
  {
    hide Pow, Nat, GcdInv, Gcd;
    var TA := new Mpi();
    var TB := new Mpi();
    Copy(TA, A);
    Copy(TB, B);
    ghost var a, b := Nat(A.p), Nat(B.p);
    assert a == Abs(A.V()) && b == Abs(B.V());
    var lz := Lsb(TA);
    var lzt := Lsb(TB);
    CommonTwos(a, b, lz, lzt);
    if lzt < lz { lz := lzt; }
    ShiftR(TA, lz);
    ShiftR(TB, lz);
    TA.s, TB.s := 1, 1;
    ghost var a', b' := Nat(TA.p), Nat(TB.p);
    GcdStart(a', b');
    GcdLoop(TA, TB, a', b');
    GcdDone(Nat(TB.p), a', b');
    ShiftL(TB, lz);
    GcdUnshift(a, b, a', b', Pow(2, lz));
    Copy(G, TB);
  }

  method GcdLoop(TA: Mpi, TB: Mpi, ghost a: nat, ghost b: nat)
    requires TA != TB && TA.s == 1 && TB.s == 1 && GcdInv(Nat(TA.p), Nat(TB.p), a, b)
    modifies TA, TB
    ensures TA.s == 1 && TB.s == 1 && Nat(TA.p) == 0 && GcdInv(Nat(TA.p), Nat(TB.p), a, b)
  {
    hide Pow, Nat, GcdInv, Gcd;
    var cmp := CmpInt(TA, 0);
    while cmp != 0
      invariant TA.s == 1 && TB.s == 1 && cmp == Sgn(Nat(TA.p))
      invariant GcdInv(Nat(TA.p), Nat(TB.p), a, b)
      decreases Nat(TA.p) + Nat(TB.p)
    {
      GcdPass(TA, TB, a, b);
      cmp := CmpInt(TA, 0);
    }
  }

  lemma GcdStart(a: nat, b: nat)
    requires a == 0 || b == 0 || a % 2 == 1 || b % 2 == 1
    ensures GcdInv(a, b, a, b)
  {
  }

  lemma GcdDone(tb: nat, a: nat, b: nat)
    requires GcdInv(0, tb, a, b)
    ensures tb == GcdValue(a, b)
  {
    if b > 0 {
      GcdComm(0, tb);
      assert Gcd(tb, 0) == tb;
    }
  }

  /** The powers of two common to both numbers. */
  lemma CommonTwos(a: nat, b: nat, i: nat, j: nat)
    requires a == 0 ==> i == 0
    requires b == 0 ==> j == 0
    requires a != 0 ==> Pow(2, i) > 0 && a % Pow(2, i) == 0 && a / Pow(2, i) % 2 == 1
    requires b != 0 ==> Pow(2, j) > 0 && b % Pow(2, j) == 0 && b / Pow(2, j) % 2 == 1
    ensures var m := if j < i then j else i;
            var P := Pow(2, m);
            P > 0 && 0 <= a / P && 0 <= b / P && a == a / P * P && b == b / P * P
            && (a == 0 || b == 0 || a / P % 2 == 1 || b / P % 2 == 1)
  {
    var m := if j < i then j else i;
    PowPos(2, m);
    DivideOut(a, m, i);
    DivideOut(b, m, j);
  }

  lemma DivideOut(a: nat, m: nat, i: nat)
    requires (a != 0 && m <= i && Pow(2, i) > 0 && a % Pow(2, i) == 0) || (a == 0 || m == 0)
    ensures Pow(2, m) > 0 && 0 <= a / Pow(2, m) && a == a / Pow(2, m) * Pow(2, m)
  {
    hide Pow;
    PowPos(2, m);
    var P := Pow(2, m);
    if a == 0 {
      DivUnique(a, P, 0, 0);
    } else if m == 0 {
      PowZero(2);
    } else {
      DivideOutFactor(a, m, i);
    }
    DivShrinks(a, P);
  }

  lemma DivideOutFactor(a: nat, m: nat, i: nat)
    requires m <= i && Pow(2, i) > 0 && a % Pow(2, i) == 0
    ensures Pow(2, m) > 0 && a == a / Pow(2, m) * Pow(2, m)
  {
    hide Pow;
    PowPos(2, m);
    PowAdd(2, i - m, m);
    var k, c, P := a / Pow(2, i), Pow(2, i - m), Pow(2, m);
    assert a == k * c * P by { Assoc(k, c, P); }
    DivUnique(a, P, k * c, 0);
  }

  lemma GcdUnshift(a: nat, b: nat, a': nat, b': nat, P: int)
    requires P > 0 && a == a' * P && b == b' * P
    ensures GcdValue(a', b') * P == GcdValue(a, b)
  {
    if b' == 0 {
    } else {
      MulPos(b', P);
      GcdScale(a', b', P);
    }
  }

  /** One pass: strip the factors of two, subtract the smaller from the larger and halve. */
  method GcdPass(TA: Mpi, TB: Mpi, ghost a: nat, ghost b: nat)
    requires TA != TB && TA.s == 1 && TB.s == 1 && Nat(TA.p) > 0 && GcdInv(Nat(TA.p), Nat(TB.p), a, b)
    modifies TA, TB
    ensures TA.s == 1 && TB.s == 1 && GcdInv(Nat(TA.p), Nat(TB.p), a, b)
    ensures Nat(TA.p) + Nat(TB.p) < old(Nat(TA.p) + Nat(TB.p))
  {
    hide Pow, Nat, GcdInv, Gcd;
    ghost var ta, tb := Nat(TA.p), Nat(TB.p);
    StripTwos(TA);
    StripTwos(TB);
    StripPair(ta, tb, Nat(TA.p), Nat(TB.p), a, b);
    PowOneTwo();
    var cmp := CmpMpi(TA, TB);
    ReducePair(Nat(TA.p), Nat(TB.p), a, b);
    if cmp >= 0 {
      var _ := SubAbs(TA, TA, TB);
      ShiftR(TA, 1);
      TA.s := 1;
    } else {
      var _ := SubAbs(TB, TB, TA);
      ShiftR(TB, 1);
      TB.s := 1;
    }
  }

  lemma PowOneTwo()
    ensures Pow(2, 1) == 2
  {
    assert Pow(2, 1) == 2 * Pow(2, 0);
  }

  /** x without its factors of two. */
  ghost predicate Stripped(y: nat, x: nat) {
    if x == 0 then y == 0 else y % 2 == 1 && y <= x && exists e: nat :: x == Pow(2, e) * y
  }

  method StripTwos(X: Mpi)
    requires X.s == 1
    modifies X
    ensures X.s == 1 && Stripped(Nat(X.p), old(Nat(X.p)))
  {
    hide Pow, Nat, Stripped;
    ghost var x := Nat(X.p);
    var count := Lsb(X);
    ShiftR(X, count);
    X.s := 1;
    StrippedBy(x, count);
  }

  lemma StrippedBy(x: nat, count: nat)
    requires Pow(2, count) > 0
    requires x != 0 ==> x % Pow(2, count) == 0 && x / Pow(2, count) % 2 == 1
    ensures 0 <= x / Pow(2, count) && Stripped(x / Pow(2, count), x)
  {
    hide Pow;
    var P := Pow(2, count);
    DivShrinks(x, P);
    if x > 0 {
      assert x == P * (x / P);
    } else {
      DivUnique(0, P, 0, 0);
    }
  }

  lemma StripPair(ta: nat, tb: nat, sa: nat, sb: nat, a: nat, b: nat)
    requires GcdInv(ta, tb, a, b) && ta > 0 && Stripped(sa, ta) && Stripped(sb, tb)
    ensures sa % 2 == 1 && sa <= ta && sb <= tb
    ensures if b == 0 then sb == 0 else sb % 2 == 1 && Gcd(sa, sb) == Gcd(a, b)
  {
    hide Gcd;
    var e: nat :| ta == Pow(2, e) * sa;
    if b != 0 {
      var f: nat :| tb == Pow(2, f) * sb;
      if tb % 2 == 1 {
        GcdStrip(sa, tb, e);
        GcdComm(sa, tb);
        GcdStrip(sb, sa, f);
        GcdComm(sb, sa);
      } else {
        GcdComm(ta, tb);
        GcdStrip(sb, ta, f);
        GcdComm(sb, ta);
        GcdStrip(sa, sb, e);
      }
    }
  }

  lemma ReducePair(sa: nat, sb: nat, a: nat, b: nat)
    requires sa % 2 == 1
    requires if b == 0 then sb == 0 else sb % 2 == 1 && Gcd(sa, sb) == Gcd(a, b)
    ensures sa >= sb ==> GcdInv((sa - sb) / 2, sb, a, b)
    ensures sa < sb ==> GcdInv(sa, (sb - sa) / 2, a, b)
  {
    hide Gcd;
    if b != 0 {
      if sa >= sb {
        GcdSub(sa, sb);
        assert sa - sb == 2 * ((sa - sb) / 2);
        GcdHalve((sa - sb) / 2, sb);
      } else {
        GcdComm(sa, sb);
        GcdSub(sb, sa);
        assert sb - sa == 2 * ((sb - sa) / 2);
        GcdHalve((sb - sa) / 2, sa);
        GcdComm((sb - sa) / 2, sa);
      }
    }
  }
}
