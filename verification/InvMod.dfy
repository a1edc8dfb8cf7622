/** The modular inverse by the extended binary algorithm. */
module MpiInverse {
  import opened Arith
  import opened Limbs
  import opened MpiCore
  import opened MpiShift
  import opened MpiAddSub
  import opened MpiMod
  import opened Divisibility
  import opened MpiGcd

  /** u1 and u2 are Bezout coefficients of t for (ta, tb). */
  ghost predicate Bezout(u1: int, u2: int, t: int, ta: int, tb: int) {
    u1 * ta + u2 * tb == t
  }

  /** One coefficient row of the algorithm: T > 0, coprime to the other row's value tv. */
  ghost predicate Row(T: Mpi, U1: Mpi, U2: Mpi, ta: int, tb: int, tv: int)
    reads T, U1, U2
  {
    T != U1 && T != U2 && U1 != U2 && U1.p != [] && U2.p != []
    && T.V() > 0 && tv > 0 && Gcd(T.V(), tv) == 1 && Bezout(U1.V(), U2.V(), T.V(), ta, tb)
  }

  lemma Parity(X: Mpi)
    requires X.p != []
    ensures X.V() % 2 == X.p[0] % 2
  {
    NatParity(X.p);
  }

  /** An exact halving of a signed number. */
  method Halve(X: Mpi)
    requires X.V() % 2 == 0
    modifies X
    ensures X.V() == old(X.V()) / 2 && (old(X.p) != [] ==> X.p != [])
  {
    hide Nat;
    PowOneTwo();
    ShiftR(X, 1);
  }

  /** While T is even, halve the row, first making both coefficients even. */
  method HalveRow(T: Mpi, U1: Mpi, U2: Mpi, TA: Mpi, TB: Mpi, ghost tv: int)
    requires TA != T && TA != U1 && TA != U2 && TB != T && TB != U1 && TB != U2
    requires Row(T, U1, U2, TA.V(), TB.V(), tv) && (TA.V() % 2 == 1 || TB.V() % 2 == 1)
    modifies T, U1, U2
    ensures Row(T, U1, U2, TA.V(), TB.V(), tv) && T.V() % 2 == 1 && T.V() <= old(T.V())
  {
    hide Nat, Gcd, Bezout;
    while true
      invariant Row(T, U1, U2, TA.V(), TB.V(), tv) && T.V() <= old(T.V())
      decreases T.V()
    {
      NonEmpty(T);
      Parity(T);
      if T.p[0] % 2 != 0 { return; }
      ghost var t, u1, u2 := T.V(), U1.V(), U2.V();
      CoprimeHalf(t, tv);
      Halve(T);
      Parity(U1);
      Parity(U2);
      EvenCoefficients(u1, u2, t, TA.V(), TB.V());
      if U1.p[0] % 2 != 0 || U2.p[0] % 2 != 0 {
        AddMpi(U1, U1, TB);
        SubMpi(U2, U2, TA);
      }
      Halve(U1);
      Halve(U2);
    }
  }

  lemma NonEmpty(X: Mpi)
    requires X.V() != 0
    ensures X.p != []
  {
  }

  lemma CoprimeHalf(t: nat, tv: nat)
    requires t % 2 == 0 && t > 0 && tv > 0 && Gcd(t, tv) == 1
    ensures t / 2 > 0 && Gcd(t / 2, tv) == 1
  {
    GcdIsGcd(t, tv);
    if tv % 2 == 0 {
      assert Divides(2, t) && Divides(2, tv);
      DividesLe(2, 1);
    }
    assert t == 2 * (t / 2);
    GcdHalve(t / 2, tv);
  }

  /** Every halving of the coefficients is exact and keeps the Bezout identity. */
  lemma EvenCoefficients(u1: int, u2: int, t: int, ta: int, tb: int)
    requires Bezout(u1, u2, t, ta, tb) && t % 2 == 0 && (ta % 2 == 1 || tb % 2 == 1)
    ensures if u1 % 2 != 0 || u2 % 2 != 0 then
              (u1 + tb) % 2 == 0 && (u2 - ta) % 2 == 0
              && Bezout((u1 + tb) / 2, (u2 - ta) / 2, t / 2, ta, tb)
            else Bezout(u1 / 2, u2 / 2, t / 2, ta, tb)
  {
    CoefficientParity(u1, u2, t, ta, tb);
    if u1 % 2 != 0 || u2 % 2 != 0 {
      ShiftBezout(u1, u2, ta, tb);
      HalfBezout(u1 + tb, u2 - ta, t, ta, tb);
    } else {
      HalfBezout(u1, u2, t, ta, tb);
    }
  }

  lemma CoefficientParity(u1: int, u2: int, t: int, ta: int, tb: int)
    requires Bezout(u1, u2, t, ta, tb) && t % 2 == 0 && (ta % 2 == 1 || tb % 2 == 1)
    ensures u1 % 2 != 0 || u2 % 2 != 0 ==> (u1 + tb) % 2 == 0 && (u2 - ta) % 2 == 0
  {
    ParityOfProduct(u1, ta);
    ParityOfProduct(u2, tb);
    SumParity(u1 * ta, u2 * tb);
    SumParity(u1, tb);
    SumParity(u2, -ta);
  }

  lemma SumParity(x: int, y: int)
    ensures (x + y) % 2 == 0 <==> x % 2 == y % 2
    ensures -y % 2 == y % 2
  {
  }

  lemma ShiftBezout(u1: int, u2: int, ta: int, tb: int)
    ensures (u1 + tb) * ta + (u2 - ta) * tb == u1 * ta + u2 * tb
  {
  }

  lemma ParityOfProduct(a: int, b: int)
    ensures a * b % 2 == (if a % 2 == 1 && b % 2 == 1 then 1 else 0)
  {
    var j, e, k, f := a / 2, a % 2, b / 2, b % 2;
    assert a * b == 2 * (2 * (j * k) + j * f + k * e) + e * f;
  }

  lemma HalfBezout(x: int, y: int, t: int, ta: int, tb: int)
    requires x % 2 == 0 && y % 2 == 0 && t % 2 == 0 && x * ta + y * tb == t
    ensures Bezout(x / 2, y / 2, t / 2, ta, tb)
  {
    var h, k := x / 2, y / 2;
    assert x * ta + y * tb == 2 * (h * ta + k * tb);
  }

  /** Subtract row (V, V1, V2) from row (T, U1, U2). */
  method SubtractRow(T: Mpi, U1: Mpi, U2: Mpi, V: Mpi, V1: Mpi, V2: Mpi, ghost ta: int, ghost tb: int)
    requires Apart(T, V, V1, V2, V, V, V) && Apart(U1, V, V1, V2, V, V, V) && Apart(U2, V, V1, V2, V, V, V)
    requires V != V1 && V != V2 && V1 != V2
    requires Row(T, U1, U2, ta, tb, V.V()) && Row(V, V1, V2, ta, tb, T.V()) && T.V() >= V.V()
    modifies T, U1, U2
    ensures T.V() == old(T.V()) - V.V() && U1.p != [] && U2.p != []
    ensures Bezout(U1.V(), U2.V(), T.V(), ta, tb) && Gcd(T.V(), V.V()) == 1
  {
    hide Nat, Gcd;
    GcdSub(T.V(), V.V());
    BezoutSub(U1.V(), U2.V(), T.V(), V1.V(), V2.V(), V.V(), ta, tb);
    SubMpi(T, T, V);
    SubMpi(U1, U1, V1);
    SubMpi(U2, U2, V2);
  }

  lemma BezoutSub(u1: int, u2: int, t: int, v1: int, v2: int, v: int, ta: int, tb: int)
    requires Bezout(u1, u2, t, ta, tb) && Bezout(v1, v2, v, ta, tb)
    ensures Bezout(u1 - v1, u2 - v2, t - v, ta, tb)
  {
    assert (u1 - v1) * ta + (u2 - v2) * tb == u1 * ta + u2 * tb - (v1 * ta + v2 * tb);
  }

  ghost predicate Apart(x: Mpi, a: Mpi, b: Mpi, c: Mpi, d: Mpi, e: Mpi, f: Mpi) {
    x != a && x != b && x != c && x != d && x != e && x != f
  }

  /** Both rows together; TU reaches 0 exactly when the loop ends. */
  ghost predicate Rows(TU: Mpi, U1: Mpi, U2: Mpi, TV: Mpi, V1: Mpi, V2: Mpi, ta: int, tb: int)
    reads TU, U1, U2, TV, V1, V2
  {
    Apart(TU, U1, U2, TV, V1, V2, TV) && Apart(U1, U2, TV, V1, V2, TV, TV) && Apart(U2, TV, V1, V2, TV, TV, TV)
    && TV != V1 && TV != V2 && V1 != V2
    && U1.p != [] && U2.p != [] && V1.p != [] && V2.p != []
    && 0 <= TU.V() && 0 < TV.V() && Gcd(TU.V(), TV.V()) == 1
    && Bezout(U1.V(), U2.V(), TU.V(), ta, tb) && Bezout(V1.V(), V2.V(), TV.V(), ta, tb)
  }

  /** One pass of the outer loop. */
  method InversePass(TU: Mpi, U1: Mpi, U2: Mpi, TV: Mpi, V1: Mpi, V2: Mpi, TA: Mpi, TB: Mpi)
    requires Rows(TU, U1, U2, TV, V1, V2, TA.V(), TB.V()) && TU.V() > 0
    requires Apart(TA, TU, U1, U2, TV, V1, V2) && Apart(TB, TU, U1, U2, TV, V1, V2) && (TA.V() % 2 == 1 || TB.V() % 2 == 1)
    modifies TU, U1, U2, TV, V1, V2
    ensures Rows(TU, U1, U2, TV, V1, V2, TA.V(), TB.V())
    ensures TU.V() + TV.V() < old(TU.V() + TV.V())
  {
    hide Nat, Gcd, Bezout;
    HalveRow(TU, U1, U2, TA, TB, TV.V());
    GcdComm(TU.V(), TV.V());
    HalveRow(TV, V1, V2, TA, TB, TU.V());
    GcdComm(TV.V(), TU.V());
    var cmp := CmpMpi(TU, TV);
    if cmp >= 0 {
      SubtractRow(TU, U1, U2, TV, V1, V2, TA.V(), TB.V());
    } else {
      SubtractRow(TV, V1, V2, TU, U1, U2, TA.V(), TB.V());
      GcdComm(TV.V(), TU.V());
    }
  }

  /** X := A^-1 mod N. */
  method InvMod(X: Mpi, A: Mpi, N: Mpi) returns (ret: int)
    modifies X
    ensures ret == if old(N.V()) <= 1 then ERR_BAD_INPUT_DATA
                   else if old(Gcd(Abs(A.V()), Abs(N.V()))) != 1 then ERR_NOT_ACCEPTABLE else 0
    ensures ret == 0 ==> 0 <= X.V() < old(N.V()) && X.V() * old(A.V()) % old(N.V()) == 1
    ensures ret != 0 ==> unchanged(X)
  {
    hide Nat, Gcd;
    var cmp := CmpInt(N, 1);
    if cmp <= 0 { return ERR_BAD_INPUT_DATA; }
    var G := new Mpi();
    GcdMpi(G, A, N);
    cmp := CmpInt(G, 1);
    if cmp != 0 { return ERR_NOT_ACCEPTABLE; }
    var V1 := BezoutOf(A, N);
    ghost var v, a, n := V1.V(), A.V(), N.V();
    ReduceInverse(V1, N);
    InverseOf(V1.V(), v, a, n);
    Copy(X, V1);
    ret := 0;
  }

  lemma InverseOf(x: int, v: int, a: int, n: int)
    requires n > 1 && Cong(v * a, 1, n) && x == v % n
    ensures x * a % n == 1
  {
    CongMod(v, n);
    CongScale(x, v, a, n);
    ModSmall(1, n);
  }

  /** The closing loops bring V1 into [0, N). */
  method ReduceInverse(V1: Mpi, N: Mpi)
    requires V1 != N && N.V() > 1
    modifies V1
    ensures V1.V() == old(V1.V()) % N.V()
  {
    hide Nat, SameClass;
    ghost var v, n := V1.V(), N.V();
    SameClassRefl(v, n);
    var cmp := CmpInt(V1, 0);
    while cmp < 0
      invariant SameClass(v, V1.V(), n) && cmp == Sgn(V1.V())
      decreases -V1.V()
    {
      SameClassStep(v, V1.V(), n);
      AddMpi(V1, V1, N);
      cmp := CmpInt(V1, 0);
    }
    cmp := CmpMpi(V1, N);
    while cmp >= 0
      invariant 0 <= V1.V() && SameClass(v, V1.V(), n) && cmp == Sgn(V1.V() - n)
      decreases V1.V()
    {
      SameClassStep(v, V1.V(), n);
      SubMpi(V1, V1, N);
      cmp := CmpMpi(V1, N);
    }
    SameClassDone(v, V1.V(), n);
  }

  lemma SameClassRefl(a: int, b: int)
    requires b > 0
    ensures SameClass(a, a, b)
  {
  }

  /** The extended binary algorithm, ending with V1 * A congruent to 1. */
  method BezoutOf(A: Mpi, N: Mpi) returns (V1: Mpi)
    requires N.V() > 1 && Gcd(Abs(A.V()), Abs(N.V())) == 1
    ensures fresh(V1) && Cong(V1.V() * A.V(), 1, N.V())
  {
    hide Nat, Gcd, Bezout;
    var TA := new Mpi();
    var TB := new Mpi();
    var _ := ModMpi(TA, A, N);
    Copy(TB, N);
    CoprimeResidue(A.V(), N.V());
    var TV, V2;
    TV, V1, V2 := InverseLoop(TA, TB);
    BezoutDone(V1.V(), V2.V(), A.V(), TA.V(), N.V());
  }

  method InverseLoop(TA: Mpi, TB: Mpi) returns (TV: Mpi, V1: Mpi, V2: Mpi)
    requires TA != TB && 0 < TA.V() && 0 < TB.V() && Gcd(TA.V(), TB.V()) == 1
    requires TA.V() % 2 == 1 || TB.V() % 2 == 1
    ensures fresh(V1) && fresh(V2) && fresh(TV)
    ensures Bezout(V1.V(), V2.V(), 1, TA.V(), TB.V())
  {
    hide Nat, Gcd, Bezout, Rows;
    var TU := new Mpi();
    var U1 := new Mpi();
    var U2 := new Mpi();
    TV := new Mpi();
    V1 := new Mpi();
    V2 := new Mpi();
    Copy(TU, TA);
    Copy(TV, TB);
    Lset(U1, 1);
    Lset(U2, 0);
    Lset(V1, 0);
    Lset(V2, 1);
    RowsStart(TU, U1, U2, TV, V1, V2, TA.V(), TB.V());
    RunPasses(TU, U1, U2, TV, V1, V2, TA, TB);
  }

  lemma RowsStart(TU: Mpi, U1: Mpi, U2: Mpi, TV: Mpi, V1: Mpi, V2: Mpi, ta: int, tb: int)
    requires Apart(TU, U1, U2, TV, V1, V2, TV) && Apart(U1, U2, TV, V1, V2, TV, TV) && Apart(U2, TV, V1, V2, TV, TV, TV)
    requires TV != V1 && TV != V2 && V1 != V2 && U1.p != [] && U2.p != [] && V1.p != [] && V2.p != []
    requires TU.V() == ta >= 0 && TV.V() == tb > 0 && Gcd(ta, tb) == 1
    requires U1.V() == 1 && U2.V() == 0 && V1.V() == 0 && V2.V() == 1
    ensures Rows(TU, U1, U2, TV, V1, V2, ta, tb)
  {
  }

  method RunPasses(TU: Mpi, U1: Mpi, U2: Mpi, TV: Mpi, V1: Mpi, V2: Mpi, TA: Mpi, TB: Mpi)
    requires Rows(TU, U1, U2, TV, V1, V2, TA.V(), TB.V()) && TU.V() > 0
    requires Apart(TA, TU, U1, U2, TV, V1, V2) && Apart(TB, TU, U1, U2, TV, V1, V2) && (TA.V() % 2 == 1 || TB.V() % 2 == 1)
    modifies TU, U1, U2, TV, V1, V2
    ensures Bezout(V1.V(), V2.V(), 1, TA.V(), TB.V())
  {
    hide Nat, Gcd, Bezout, Rows;
    var cmp := 1;
    while cmp != 0
      invariant Rows(TU, U1, U2, TV, V1, V2, TA.V(), TB.V()) && cmp == Sgn(TU.V())
      invariant TA.V() % 2 == 1 || TB.V() % 2 == 1
      decreases TU.V() + TV.V()
    {
      RowsPositive(TU, U1, U2, TV, V1, V2, TA.V(), TB.V());
      InversePass(TU, U1, U2, TV, V1, V2, TA, TB);
      RowsPositive(TU, U1, U2, TV, V1, V2, TA.V(), TB.V());
      cmp := CmpInt(TU, 0);
    }
    RowsDone(TU, U1, U2, TV, V1, V2, TA.V(), TB.V());
  }

  lemma RowsPositive(TU: Mpi, U1: Mpi, U2: Mpi, TV: Mpi, V1: Mpi, V2: Mpi, ta: int, tb: int)
    requires Rows(TU, U1, U2, TV, V1, V2, ta, tb)
    ensures TU.V() >= 0 && TV.V() > 0
  {
  }

  lemma RowsDone(TU: Mpi, U1: Mpi, U2: Mpi, TV: Mpi, V1: Mpi, V2: Mpi, ta: int, tb: int)
    requires Rows(TU, U1, U2, TV, V1, V2, ta, tb) && TU.V() == 0
    ensures Bezout(V1.V(), V2.V(), 1, ta, tb)
  {
    hide Bezout;
    GcdComm(0, TV.V());
    assert Gcd(TV.V(), 0) == TV.V();
  }

  lemma CoprimeResidue(a: int, n: int)
    requires n > 1 && Gcd(Abs(a), n) == 1
    ensures a % n > 0 && Gcd(a % n, n) == 1 && (a % n % 2 == 1 || n % 2 == 1)
  {
    var r, k := a % n, a / n;
    assert a == k * n + r;
    GcdIsGcd(Abs(a), n);
    forall d: int | d > 0
      ensures (Divides(d, Abs(a)) && Divides(d, n)) <==> (Divides(d, r) && Divides(d, n))
    {
      if Divides(d, n) {
        DividesMul(d, n, k);
        DividesNeg(d, a);
        if Divides(d, a) { DividesSum(d, a, k * n); }
        if Divides(d, r) { DividesSum(d, r, k * n); }
      }
    }
    GcdSame(Abs(a), n, r, n);
    GcdIsGcd(r, n);
    if r == 0 {
      DividesIntro(n, 0, 0);
      DividesIntro(n, n, 1);
      DividesLe(n, 1);
    }
    if r % 2 == 0 && n % 2 == 0 {
      assert Divides(2, r) && Divides(2, n);
      DividesLe(2, 1);
    }
  }

  lemma DividesNeg(d: int, a: int)
    requires d > 0
    ensures Divides(d, a) <==> Divides(d, Abs(a))
  {
    if Divides(d, a) { DividesMul(d, a, -1); }
    if Divides(d, Abs(a)) { DividesMul(d, Abs(a), -1); }
  }

  lemma BezoutDone(v1: int, v2: int, a: int, ta: int, n: int)
    requires n > 1 && Bezout(v1, v2, 1, ta, n) && ta == a % n
    ensures Cong(v1 * a, 1, n)
  {
    CongMod(a, n);
    CongScale(ta, a, v1, n);
    CongIntro(v1 * ta, 1, n, -v2);
    CongTrans(v1 * a, v1 * ta, 1, n);
  }
}
