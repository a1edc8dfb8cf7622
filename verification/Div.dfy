/** Multi-limb division with remainder, and the reductions built on it. */
module MpiDiv {
  import opened Arith
  import opened Limbs
  import opened MpiCore
  import opened MpiBits
  import opened MpiShift
  import opened MpiAddSub
  import opened MpiMul
  import opened LimbDivision

  /** Limb i - k of a buffer, 0 below its start. */
  function At(p: seq<Limb>, i: int): Limb
    requires i < |p|
  {
    if i < 0 then 0 else p[i]
  }

  /** The two top limbs of the divisor and the three limbs it is tried against. */
  function Top2(y: seq<Limb>, t: nat): nat
    requires t < |y|
  {
    At(y, t - 1) + BASE * y[t]
  }

  function Top3(x: seq<Limb>, i: nat): nat
    requires 0 < i < |x|
  {
    At(x, i - 2) + BASE * (x[i - 1] + BASE * x[i])
  }

  /** A digit the 3-by-2 test settles on: not above the limbs' quotient, and maximal below BASE. */
  ghost predicate SettledDigit(q: Limb, x3: nat, y2: nat) {
    q * y2 <= x3 && (q == BASE - 1 || x3 < (q + 1) * y2)
  }

  /** Guess the digit for X's limbs i, i-1, i-2 and correct it downwards. */
  method EstimateDigit(Z: Mpi, X: Mpi, Y: Mpi, T1: Mpi, T2: Mpi, i: nat, t: nat)
    requires X != Z && X != T1 && X != T2 && Y != Z && Y != T1 && Y != T2
    requires Z != T1 && Z != T2 && T1 != T2
    requires t < i < |X.p| && t < |Y.p| && i - t - 1 < |Z.p| && Y.p[t] > 0
    requires |T1.p| >= 2 && |T2.p| >= 3
    modifies Z, T1, T2
    ensures Z.s == old(Z.s) && |Z.p| == old(|Z.p|) && |T1.p| >= 2 && |T2.p| >= 3
    ensures Z.p == old(Z.p)[i - t - 1 := Z.p[i - t - 1]]
    ensures SettledDigit(Z.p[i - t - 1], Top3(X.p, i), Top2(Y.p, t))
  {
    hide Pow, Nat;
    var k := i - t - 1;
    ghost var x3, y2 := Top3(X.p, i), Top2(Y.p, t);
    ghost var z0 := Z.p;
    if X.p[i] >= Y.p[t] {
      Z.p := Z.p[k := BASE - 1];
    } else {
      var q, _ := IntDivInt(X.p[i], X.p[i - 1], Y.p[t]);
      Z.p := Z.p[k := q];
      FirstDigit(X.p[i], X.p[i - 1], At(X.p, i - 2), Y.p[t], At(Y.p, t - 1), q);
    }
    ghost var cand := Z.p[k];
    Z.p := Z.p[k := AddW(Z.p[k], 1)];
    var cmp := 1;
    while cmp > 0
      invariant Z.s == old(Z.s) && |Z.p| == |z0| && Z.p == z0[k := Z.p[k]] && |T1.p| >= 2 && |T2.p| >= 3
      invariant cand == BASE - 1 || x3 < (cand + 1) * y2
      invariant cmp > 0 ==> SubW(Z.p[k], 1) == cand
      invariant cmp <= 0 ==> Z.p[k] == cand && cand * y2 <= x3
      decreases cand, cmp
    {
      Z.p := Z.p[k := SubW(Z.p[k], 1)];
      cmp := TryDigit(Z.p[k], X, Y, T1, T2, i, t);
      if cmp > 0 { cand := cand - 1; }
    }
  }

  /** The 3-by-2 test: compare digit * (two top divisor limbs) with the three limbs of X. */
  method TryDigit(z: Limb, X: Mpi, Y: Mpi, T1: Mpi, T2: Mpi, i: nat, t: nat) returns (cmp: int)
    requires X != T1 && X != T2 && Y != T1 && Y != T2 && T1 != T2
    requires 0 < i < |X.p| && t < |Y.p| && |T1.p| >= 2 && |T2.p| >= 3
    modifies T1, T2
    ensures |T1.p| >= 2 && |T2.p| >= 3
    ensures if cmp > 0 then z > 0 && Top3(X.p, i) < ((z - 1) + 1) * Top2(Y.p, t)
            else z * Top2(Y.p, t) <= Top3(X.p, i)
  {
    LoadTwo(T1, if t < 1 then 0 else Y.p[t - 1], Y.p[t]);
    MulInt(T1, T1, z);
    LoadThree(T2, if i < 2 then 0 else X.p[i - 2], if i < 1 then 0 else X.p[i - 1], X.p[i]);
    cmp := CmpMpi(T1, T2);
    DigitTest(z, Top2(Y.p, t), Top3(X.p, i), T1.V(), cmp);
  }

  lemma NatTwo(a: seq<Limb>)
    requires |a| == 2
    ensures Nat(a) == a[0] + BASE * a[1]
  {
    assert Nat(a[1..]) == a[1] + BASE * Nat(a[1..][1..]);
  }

  lemma NatThree(a: seq<Limb>)
    requires |a| == 3
    ensures Nat(a) == a[0] + BASE * (a[1] + BASE * a[2])
  {
    NatTwo(a[1..]);
  }

  /** T1 := (a, b), as lset followed by limb stores. */
  method LoadTwo(T1: Mpi, a: Limb, b: Limb)
    requires |T1.p| >= 2
    modifies T1
    ensures T1.V() == a + BASE * b && |T1.p| == old(|T1.p|)
  {
    hide Pow, Nat;
    Lset(T1, 0);
    T1.p := T1.p[0 := a];
    T1.p := T1.p[1 := b];
    assert T1.p == [a, b] + Zeros(|T1.p| - 2);
    NatPad([a, b], |T1.p| - 2);
    NatTwo([a, b]);
  }

  method LoadThree(T2: Mpi, a: Limb, b: Limb, c: Limb)
    requires |T2.p| >= 3
    modifies T2
    ensures T2.V() == a + BASE * (b + BASE * c) && |T2.p| == old(|T2.p|)
  {
    hide Pow, Nat;
    Lset(T2, 0);
    T2.p := T2.p[0 := a];
    T2.p := T2.p[1 := b];
    T2.p := T2.p[2 := c];
    assert T2.p == [a, b, c] + Zeros(|T2.p| - 3);
    NatPad([a, b, c], |T2.p| - 3);
    NatThree([a, b, c]);
  }

  lemma DigitTest(q: Limb, y2: nat, x3: nat, v: int, cmp: int)
    requires v == y2 * q && cmp == Sgn(v - x3)
    ensures if cmp > 0 then q > 0 && x3 < ((q - 1) + 1) * y2 else q * y2 <= x3
  {
  }

  lemma FirstDigit(x2: Limb, x1: Limb, x0: Limb, y1: Limb, y0: Limb, q: Limb)
    requires x2 < y1 && x2 * BASE + x1 < (q + 1) * y1
    ensures x0 + BASE * (x1 + BASE * x2) < (q + 1) * (y0 + BASE * y1)
  {
    MulMono(0, q + 1, y0);
    assert (q + 1) * (y0 + BASE * y1) == (q + 1) * y0 + BASE * ((q + 1) * y1);
  }

  /**
   * With divisor limbs y2 / BASE >= 1 the settled digit is the true quotient or one above it:
   * x3 and y2 are XX and YY cut at scale P.
   */
  lemma DigitOffByOne(q: Limb, x3: nat, y2: nat, P: int, XX: int, YY: int)
    requires SettledDigit(q, x3, y2) && P > 0 && BASE <= y2
    requires x3 * P <= XX < (x3 + 1) * P && y2 * P <= YY < (y2 + 1) * P && XX < BASE * YY
    ensures (q - 1) * YY <= XX < (q + 1) * YY
  {
    DigitLow(q, x3, y2, P, XX, YY);
    DigitHigh(q, x3, y2, P, XX, YY);
  }

  lemma DigitLow(q: Limb, x3: nat, y2: nat, P: int, XX: int, YY: int)
    requires q * y2 <= x3 && P > 0 && BASE <= y2
    requires x3 * P <= XX && y2 * P <= YY < (y2 + 1) * P
    ensures (q - 1) * YY <= XX
  {
    assert q * YY <= q * ((y2 + 1) * P) by { MulMono(YY, (y2 + 1) * P, q); }
    assert q * ((y2 + 1) * P) == q * y2 * P + q * P by { Spread(q, y2, P); }
    assert q * y2 * P <= x3 * P by { MulMono(q * y2, x3, P); }
    assert q * P <= y2 * P by { MulMono(q, y2, P); }
    assert (q - 1) * YY == q * YY - YY;
  }

  lemma DigitHigh(q: Limb, x3: nat, y2: nat, P: int, XX: int, YY: int)
    requires (q == BASE - 1 || x3 < (q + 1) * y2) && P > 0
    requires XX < (x3 + 1) * P && y2 * P <= YY && XX < BASE * YY
    ensures XX < (q + 1) * YY
  {
    if q < BASE - 1 {
      assert (x3 + 1) * P <= (q + 1) * y2 * P by { MulMono(x3 + 1, (q + 1) * y2, P); }
      assert (q + 1) * y2 * P == (q + 1) * (y2 * P) by { Assoc(q + 1, y2, P); }
      assert (q + 1) * (y2 * P) <= (q + 1) * YY by { MulMono(y2 * P, YY, q + 1); }
    }
  }

  lemma Spread(q: int, y: int, P: int)
    ensures q * ((y + 1) * P) == q * y * P + q * P
  {
  }

  /** The three limbs at i bound the whole number when nothing is above them. */
  lemma Window3(x: seq<Limb>, i: nat)
    requires 0 < i < |x| && Nat(x) < BPow(i + 1)
    ensures Top3(x, i) * BPow(i) <= Nat(x) * (BASE * BASE) < (Top3(x, i) + 1) * BPow(i)
  {
    hide Pow, Nat;
    CutTop(x, i);
    NatSnoc(x, i);
    NatSnoc(x, i - 1);
    BPowNext(i - 1);
    if i == 1 {
      NatEmpty(x);
    } else {
      BPowNext(i - 2);
      NatSnoc(x, i - 2);
      NatBound(x[..i - 2]);
    }
    var low, Q := if i == 1 then 0 else Nat(x[..i - 2]), if i == 1 then 1 else BPow(i - 2);
    if i == 1 {
      assert BPow(1) == BASE;
    } else {
      WindowArith(low, x[i - 2], x[i - 1], x[i], Q);
    }
  }

  lemma WindowArith(low: int, x0: int, x1: int, x2: int, Q: int)
    requires 0 <= low < Q
    ensures var n := low + x0 * Q + x1 * (BASE * Q) + x2 * (BASE * (BASE * Q));
            var x3 := x0 + BASE * (x1 + BASE * x2);
            x3 * (BASE * (BASE * Q)) <= n * (BASE * BASE) < (x3 + 1) * (BASE * (BASE * Q))
  {
    var n := low + x0 * Q + x1 * (BASE * Q) + x2 * (BASE * (BASE * Q));
    var x3 := x0 + BASE * (x1 + BASE * x2);
    assert n == low + x3 * Q;
  }

  lemma CutTop(x: seq<Limb>, i: nat)
    requires i < |x| && Nat(x) < BPow(i + 1)
    ensures Nat(x) == Nat(x[..i + 1])
  {
    hide Pow, Nat;
    NatDrop(x, i + 1);
    DivUnique(Nat(x), BPow(i + 1), 0, Nat(x));
  }

  lemma Window2(y: seq<Limb>, t: nat)
    requires t < |y| && Nat(y) < BPow(t + 1)
    ensures Top2(y, t) * BPow(t) <= Nat(y) * BASE < (Top2(y, t) + 1) * BPow(t)
  {
    hide Pow, Nat;
    CutTop(y, t);
    NatSnoc(y, t);
    NatEmpty(y);
    if t > 0 {
      BPowNext(t - 1);
      NatSnoc(y, t - 1);
      NatBound(y[..t - 1]);
      Window2Arith(Nat(y[..t - 1]), y[t - 1], y[t], BPow(t - 1));
    }
  }

  lemma Window2Arith(low: int, y0: int, y1: int, Q: int)
    requires 0 <= low < Q
    ensures var n := low + y0 * Q + y1 * (BASE * Q);
            (y0 + BASE * y1) * (BASE * Q) <= n * BASE < (y0 + BASE * y1 + 1) * (BASE * Q)
  {
    assert low + y0 * Q + y1 * (BASE * Q) == low + (y0 + BASE * y1) * Q;
  }

  /** The digit chosen for X against Y shifted by k = i - t - 1 limbs. */
  lemma DigitFor(x: seq<Limb>, y: seq<Limb>, i: nat, t: nat, q: Limb)
    requires t < i < |x| && t < |y| && y[t] > 0 && Nat(y) < BPow(t + 1)
    requires Nat(x) < Nat(y) * BPow(i - t)
    requires SettledDigit(q, Top3(x, i), Top2(y, t))
    ensures var s := Nat(y) * BPow(i - t - 1); (q - 1) * s <= Nat(x) < (q + 1) * s
  {
    hide Pow, Nat, SettledDigit;
    var k := i - t - 1;
    var s, P := Nat(y) * BPow(k), BPow(i);
    BPowPos(i);
    BPowPos(k);
    BPowNext(k);
    assert Nat(x) < BASE * s by { MulSwap(BASE, Nat(y), BPow(k)); }
    assert Nat(x) < BPow(i + 1) by {
      BPowAdd(t + 1, k + 1);
      MulMono(Nat(y), BPow(t + 1), BPow(k + 1));
    }
    Window3(x, i);
    Window2(y, t);
    BPowAdd(t, k + 1);
    ScaleWindow(Top2(y, t), Nat(y), BPow(t), BPow(k));
    assert BASE <= Top2(y, t);
    DigitOffByOne(q, Top3(x, i), Top2(y, t), P, Nat(x) * (BASE * BASE), s * (BASE * BASE));
    Unscale(q, Nat(x), s);
  }

  lemma ScaleWindow(y2: int, n: int, T: int, K: int)
    requires K > 0 && y2 * T <= n * BASE < (y2 + 1) * T
    ensures var P := T * (BASE * K);
            y2 * P <= n * K * (BASE * BASE) < (y2 + 1) * P
  {
    var c := BASE * K;
    assert y2 * T * c <= n * BASE * c by { MulMono(y2 * T, n * BASE, c); }
    assert n * BASE * c < (y2 + 1) * T * c by { TopDigit((y2 + 1) * T, n * BASE, c, 0); }
    assert y2 * T * c == y2 * (T * c) && (y2 + 1) * T * c == (y2 + 1) * (T * c);
    assert n * BASE * c == n * K * (BASE * BASE);
  }

  lemma Unscale(q: int, x: int, s: int)
    requires (q - 1) * (s * (BASE * BASE)) <= x * (BASE * BASE) < (q + 1) * (s * (BASE * BASE))
    ensures (q - 1) * s <= x < (q + 1) * s
  {
  }

  /** State of the main loop: X < Y * BASE^m, and x0 is what the quotient limbs so far account for. */
  ghost predicate DivInv(x0: int, z: seq<Limb>, x: int, y: int, m: nat) {
    m <= |z| && z[..m] == Zeros(m) && 0 <= x < y * BPow(m) && x0 == Nat(z) * y + x
  }

  /** One pass of the main loop: fix quotient limb i - t - 1. */
  method DivStep(Z: Mpi, X: Mpi, Y: Mpi, T1: Mpi, T2: Mpi, i: nat, t: nat, ghost x0: int)
    requires Distinct5(X, Y, Z, T1, T2)
    requires t < i < |X.p| && t < |Y.p| && i - t <= |Z.p| && |T1.p| >= 2 && |T2.p| >= 3
    requires Y.p[t] > 0 && Nat(Y.p) < BPow(t + 1) && Y.s == 1
    requires DivInv(x0, Z.p, X.V(), Y.V(), i - t)
    modifies X, Z, T1, T2
    ensures |X.p| >= old(|X.p|) && |Z.p| == old(|Z.p|) && Z.s == old(Z.s)
    ensures |T1.p| >= 2 && |T2.p| >= 3
    ensures DivInv(x0, Z.p, X.V(), Y.V(), i - t - 1)
  {
    hide Pow, Nat, DivInv, SettledDigit;
    var k := i - t - 1;
    ghost var z0, x, y := Z.p, X.V(), Y.V();
    DivInvParts(x0, z0, x, y, k + 1);
    EstimateDigit(Z, X, Y, T1, T2, i, t);
    ghost var q, s := Z.p[k], y * BPow(k);
    DigitFor(X.p, Y.p, i, t, q);
    MulInt(T1, Y, Z.p[k]);
    ShiftL(T1, 64 * k);
    ShiftedMultiple(y, q, k);
    assert T1.V() == q * s;
    SubMpi(X, X, T1);
    var neg := CmpInt(X, 0);
    DigitBack(x, q, s);
    if neg < 0 {
      assert x < q * s;
      Copy(T1, Y);
      ShiftL(T1, 64 * k);
      ShiftedMultiple(y, 1, k);
      AddMpi(X, X, T1);
      Z.p := Z.p[k := SubW(Z.p[k], 1)];
    }
    assert Z.p == z0[k := Z.p[k]];
    assert x == Z.p[k] * s + X.V() && 0 <= X.V() < s;
    DivInvStep(x0, z0, x, y, k, Z.p[k], X.V());
  }

  ghost predicate Distinct5(a: Mpi, b: Mpi, c: Mpi, d: Mpi, e: Mpi) {
    a != b && a != c && a != d && a != e && b != c && b != d && b != e && c != d && c != e && d != e
  }

  lemma ShiftedMultiple(y: int, q: int, k: nat)
    ensures y * q * Pow(2, 64 * k) == q * (y * BPow(k))
  {
    BPowBits(k);
    MulSwap(y, q, Pow(2, 64 * k));
  }

  lemma DigitBack(x: int, q: int, s: int)
    requires (q - 1) * s <= x < (q + 1) * s && 0 <= x && s > 0
    ensures x < q * s ==> q > 0 && x == (q - 1) * s + (x - q * s + s) && 0 <= x - q * s + s < s
    ensures x >= q * s ==> x - q * s < s
  {
    if x < q * s && q <= 0 { MulMono(q, 0, s); }
  }

  lemma DivInvParts(x0: int, z: seq<Limb>, x: int, y: int, m: nat)
    requires DivInv(x0, z, x, y, m)
    ensures m <= |z| && 0 <= x < y * BPow(m)
  {
  }

  lemma DivInvStep(x0: int, z: seq<Limb>, x: int, y: int, k: nat, q: Limb, x': int)
    requires DivInv(x0, z, x, y, k + 1)
    requires x == q * (y * BPow(k)) + x' && 0 <= x' < y * BPow(k)
    ensures DivInv(x0, z[k := q], x', y, k)
  {
    hide Pow, Nat;
    assert z[k] == z[..k + 1][k] == 0;
    assert z[..k] == z[..k + 1][..k] == Zeros(k);
    assert z[k := q][..k] == z[..k];
    NatUpdate(z, k, q);
    QuotientArith(Nat(z), q, BPow(k), y);
  }

  lemma QuotientArith(z: int, q: int, P: int, y: int)
    ensures (z + q * P) * y == z * y + q * (y * P)
  {
  }

  /** Both operands shifted so that the divisor's top limb has its second highest bit as top bit. */
  method NormaliseOperands(X: Mpi, Y: Mpi) returns (k: nat)
    requires X != Y && Nat(Y.p) > 0 && Nat(X.p) > 0 && X.p != [] && Y.p != []
    requires |X.p| == Max(1, Used(X.p)) && |Y.p| == Max(1, Used(Y.p))
    modifies X, Y
    ensures X.s == old(X.s) && Y.s == old(Y.s) && k < 64
    ensures Nat(X.p) == old(Nat(X.p)) * Pow(2, k) && Nat(Y.p) == old(Nat(Y.p)) * Pow(2, k)
    ensures old(|X.p|) <= |X.p| <= old(|X.p|) + 1 && Y.p != []
    ensures BASE / 4 * BPow(|Y.p| - 1) <= Nat(Y.p)
  {
    hide Pow, Nat;
    var m := BitLen(Y);
    k := m % 64;
    TopIsUsed(Y.p);
    if k < 63 {
      k := 63 - k;
      ghost var x0, y0 := X.p, Y.p;
      ShiftL(X, k);
      ShiftL(Y, k);
      OneLimbMore(x0, X.p, k);
      PowPos(2, k);
      MulMono(1, Pow(2, k), Nat(y0));
      ScaleBits(Nat(y0), m, k);
      TopNormal(Y.p, m + k);
    } else {
      k := 0;
      PowZero(2);
      TopNormal(Y.p, m);
    }
  }

  lemma TopIsUsed(p: seq<Limb>)
    requires Nat(p) > 0 && |p| == Max(1, Used(p))
    ensures BPow(|p| - 1) <= Nat(p)
  {
    if Used(p) == 0 { UsedZero(p); } else { UsedPos(p); }
  }

  lemma OneLimbMore(x0: seq<Limb>, x: seq<Limb>, k: nat)
    requires k < 64 && x0 != [] && |x| >= |x0| && Nat(x) == Nat(x0) * Pow(2, k)
    requires |x| == |x0| || Nat(x) == 0 || BPow(|x| - 1) <= Nat(x)
    requires Nat(x0) > 0
    ensures |x| <= |x0| + 1
  {
    hide Pow, Nat;
    if |x| > |x0| + 1 {
      PowPos(2, k);
      MulPos(Nat(x0), Pow(2, k));
      NatBound(x0);
      BPowMono(|x0| + 1, |x| - 1);
      BPowNext(|x0|);
      Pow2Mono(k, 64);
      Pow64();
      MulMono(Nat(x0), BPow(|x0|), Pow(2, k));
      MulMono(Pow(2, k), BASE, BPow(|x0|));
      TopDigit(BPow(|x0|), Nat(x0), Pow(2, k), 0);
    }
  }

  lemma ScaleBits(y: nat, m: nat, k: nat)
    requires y < Pow(2, m) && (m > 0 ==> Pow(2, m - 1) <= y) && y > 0
    ensures m > 0 && Pow(2, m + k - 1) <= y * Pow(2, k) < Pow(2, m + k)
  {
    if m == 0 { PowZero(2); }
    PowPos(2, k);
    PowAdd(2, m, k);
    PowAdd(2, m - 1, k);
    MulMono(Pow(2, m - 1), y, Pow(2, k));
    TopDigit(Pow(2, m), y, Pow(2, k), 0);
  }

  lemma TopNormal(p: seq<Limb>, m: nat)
    requires m % 64 == 63 && Pow(2, m - 1) <= Nat(p) < Pow(2, m) && p != [] && BPow(|p| - 1) <= Nat(p)
    ensures BASE / 4 * BPow(|p| - 1) <= Nat(p)
  {
    hide Pow, Nat;
    var n := |p| - 1;
    NatBound(p);
    BPowBits(n);
    BPowBits(n + 1);
    if m <= 64 * n { Pow2Mono(m, 64 * n); }
    if m > 64 * (n + 1) { Pow2Mono(64 * (n + 1), m - 1); }
    assert m == 64 * n + 63;
    PowAdd(2, 62, 64 * n);
    Pow62();
  }

  lemma Pow62()
    ensures Pow(2, 62) == BASE / 4
  {
    Pow64();
    assert Pow(2, 64) == 2 * Pow(2, 63) == 4 * Pow(2, 62);
  }

  /** The leading quotient limb, by at most three subtractions of the aligned divisor. */
  method LeadingDigit(Z: Mpi, X: Mpi, Y: Mpi, n: nat, t: nat)
    requires X != Y && X != Z && Y != Z
    requires t <= n == |X.p| - 1 && t == |Y.p| - 1 && n - t < |Z.p| && Z.p == Zeros(|Z.p|)
    requires X.s == 1 && Y.s == 1 && BASE / 4 * BPow(t) <= Nat(Y.p)
    modifies X, Y, Z
    ensures Y.s == 1 && Nat(Y.p) == old(Nat(Y.p)) && |Y.p| > t
    ensures |X.p| > n && |Z.p| == old(|Z.p|) && Z.s == old(Z.s) && Z.p[n - t] <= 3
    ensures DivInv(old(X.V()), Z.p, X.V(), Y.V(), n - t)
  {
    hide Pow, Nat, DivInv;
    var m := n - t;
    ghost var x0, y := X.V(), Y.V();
    ShiftL(Y, 64 * m);
    ghost var yn := y * BPow(m);
    BPowBits(m);
    LeadingBound(X.p, Nat(Y.p), y, n, t);
    NatZeros(|Z.p|);
    LeadingInit(x0, Z.p, yn, m);
    var cmp := CmpMpi(X, Y);
    while cmp >= 0
      invariant Y.s == 1 && Y.V() == yn > 0 && |Y.p| > t && |X.p| > n && |Z.p| == old(|Z.p|) && Z.s == old(Z.s)
      invariant 0 <= X.V() && cmp == Sgn(X.V() - yn)
      invariant LeadingInv(x0, Z.p, X.V(), yn, m)
      decreases X.V()
    {
      LeadingStep(x0, Z.p, X.V(), yn, m);
      Z.p := Z.p[m := AddW(Z.p[m], 1)];
      SubMpi(X, X, Y);
      cmp := CmpMpi(X, Y);
    }
    LeadingDone(x0, Z.p, X.V(), y, m);
    ShiftR(Y, 64 * m);
    BPowPos(m);
    DivUnique(yn, BPow(m), y, 0);
  }

  ghost predicate LeadingInv(x0: int, z: seq<Limb>, x: int, yn: int, m: nat) {
    m < |z| && z == Zeros(|z|)[m := z[m]] && x0 == z[m] * yn + x && 0 <= x && x0 < 4 * yn
  }

  lemma LeadingBound(x: seq<Limb>, yn: int, y: int, n: nat, t: nat)
    requires t <= n && |x| == n + 1 && BASE / 4 * BPow(t) <= y && yn == y * Pow(2, 64 * (n - t))
    ensures 0 < yn && Nat(x) < 4 * yn
  {
    hide Pow, Nat;
    NatBound(x);
    BPowBits(n - t);
    BPowPos(n - t);
    BPowAdd(t, n - t);
    BPowNext(n);
    BPowPos(n);
    MulMono(BASE / 4 * BPow(t), y, BPow(n - t));
    Assoc(BASE / 4, BPow(t), BPow(n - t));
  }

  lemma LeadingInit(x0: int, z: seq<Limb>, yn: int, m: nat)
    requires m < |z| && z == Zeros(|z|) && 0 <= x0 < 4 * yn
    ensures LeadingInv(x0, z, x0, yn, m)
  {
    assert z[m] == 0;
  }

  lemma LeadingStep(x0: int, z: seq<Limb>, x: int, yn: int, m: nat)
    requires LeadingInv(x0, z, x, yn, m) && x >= yn > 0
    ensures m < |z| && z[m] < 3
    ensures LeadingInv(x0, z[m := AddW(z[m], 1)], x - yn, yn, m)
  {
    if z[m] >= 3 { MulMono(3, z[m], yn); }
    assert AddW(z[m], 1) == z[m] + 1;
    assert (z[m] + 1) * yn == z[m] * yn + yn;
  }

  lemma LeadingDone(x0: int, z: seq<Limb>, x: int, y: int, m: nat)
    requires y * BPow(m) > 0 && LeadingInv(x0, z, x, y * BPow(m), m) && x < y * BPow(m)
    ensures m < |z| && z[m] <= 3 && DivInv(x0, z, x, y, m)
  {
    hide Pow, Nat;
    var Z0 := Zeros(|z|);
    if z[m] > 3 { MulMono(4, z[m], y * BPow(m)); }
    assert z[..m] == Z0[..m] == Zeros(m);
    NatUpdate(Z0, m, z[m]);
    NatZeros(|z|);
    QuotientArith(0, z[m], BPow(m), y);
  }

  /** C division: the quotient truncates toward zero and the remainder takes the dividend's sign. */
  function TDiv(a: int, b: int): int
    requires b != 0
  {
    var q: int := Abs(a) / Abs(b);
    if (a < 0) == (b < 0) then q else -q
  }

  function TMod(a: int, b: int): int
    requires b != 0
  {
    var r: int := Abs(a) % Abs(b);
    if a < 0 then -r else r
  }

  lemma TruncatedDivision(a: int, b: int)
    requires b != 0
    ensures a == TDiv(a, b) * b + TMod(a, b)
    ensures Abs(TMod(a, b)) < Abs(b) && (TMod(a, b) == 0 || (TMod(a, b) < 0) == (a < 0))
  {
    var q, r := Abs(a) / Abs(b), Abs(a) % Abs(b);
    assert Abs(a) == Abs(b) * q + r;
    SignedProducts(q, b);
  }

  lemma SignedProducts(q: int, b: int)
    ensures (-q) * b == -(q * b) && q * (-b) == -(q * b) && b * q == q * b && (-b) * q == -(q * b)
  {
  }

  method DivMpi(Q: Mpi?, R: Mpi?, A: Mpi, B: Mpi) returns (ret: int)
    requires Q != null ==> Q != A && Q != B && Q != R
    modifies if Q == null then {} else {Q}, if R == null then {} else {R}
    ensures ret == if old(B.V()) == 0 then ERR_DIVISION_BY_ZERO else 0
    ensures ret == 0 && Q != null ==> Q.V() == TDiv(old(A.V()), old(B.V()))
    ensures ret == 0 && R != null ==> R.V() == TMod(old(A.V()), old(B.V()))
    ensures ret == 0 && R != null && (R == A || old(A.p) != []) ==> |R.p| >= old(|R.p|)
    ensures ret != 0 ==> (Q != null ==> unchanged(Q)) && (R != null ==> unchanged(R))
  {
    hide Pow, Nat;
    var cmp := CmpInt(B, 0);
    if cmp == 0 { return ERR_DIVISION_BY_ZERO; }
    cmp := CmpAbs(A, B);
    if cmp < 0 {
      SmallDividend(A.V(), B.V());
      if Q != null { Lset(Q, 0); }
      if R != null { Copy(R, A); }
      return 0;
    }
    var sign: Sign := if A.s == B.s then 1 else 0 - 1;
    var Z, X, k := DivAbs(A, B);
    if Q != null {
      Copy(Q, Z);
      Q.s := sign;
    }
    if R != null {
      StoreRemainder(R, X, A.s, k);
    }
    ret := 0;
  }

  method StoreRemainder(R: Mpi, X: Mpi, sa: Sign, k: nat)
    requires R != X && X.p != [] && Pow(2, k) > 0
    modifies R, X
    ensures R.V() == var r: int := old(Nat(X.p)) / Pow(2, k); if sa == 1 then r else -r
    ensures |R.p| >= old(|R.p|)
  {
    ShiftR(X, k);
    X.s := sa;
    Copy(R, X);
    var cmp := CmpInt(R, 0);
    if cmp == 0 { R.s := 1; }
  }

  /** Quotient of the magnitudes in Z, and in X their remainder shifted left by k bits. */
  method DivAbs(A: Mpi, B: Mpi) returns (Z: Mpi, X: Mpi, k: nat)
    requires 0 < Nat(B.p) <= Nat(A.p)
    ensures fresh(Z) && fresh(X) && Z != X && Z.p != [] && X.p != [] && Pow(2, k) > 0
    ensures Nat(Z.p) == Nat(A.p) / Nat(B.p) && Nat(X.p) / Pow(2, k) == Nat(A.p) % Nat(B.p)
  {
    hide Pow, Nat, Used, Zeros;
    X := new Mpi();
    var Y := new Mpi();
    Z := new Mpi();
    var T1 := new Mpi();
    var T2 := new Mpi();
    NonZeroUsed(A.p);
    NonZeroUsed(B.p);
    Copy(X, A);
    Copy(Y, B);
    CopiedUsed(A.p, X.p);
    CopiedUsed(B.p, Y.p);
    X.s, Y.s := 1, 1;
    Grow(Z, |A.p| + 2);
    Lset(Z, 0);
    Grow(T1, 2);
    Grow(T2, 3);
    assert Z.p == Zeros(|Z.p|);
    k := DivCore(Z, X, Y, T1, T2);
    PositiveQuotient(Nat(A.p), Nat(B.p), Nat(Z.p), Nat(X.p), Pow(2, k));
  }

  lemma NonZeroUsed(p: seq<Limb>)
    requires Nat(p) > 0
    ensures Used(p) > 0 && p != []
  {
    if Used(p) == 0 { UsedZero(p); }
  }

  /** Equal numbers use the same limbs. */
  lemma CopiedUsed(p: seq<Limb>, x: seq<Limb>)
    requires Nat(p) == Nat(x)
    ensures Used(p) == Used(x)
  {
    if Used(p) < Used(x) { UsedLess(p, x); }
    if Used(x) < Used(p) { UsedLess(x, p); }
  }

  lemma SmallDividend(a: int, b: int)
    requires Abs(a) < Abs(b)
    ensures TDiv(a, b) == 0 && TMod(a, b) == a
  {
    DivUnique(Abs(a), Abs(b), 0, Abs(a));
  }

  lemma PositiveQuotient(a: nat, b: nat, z: nat, x: nat, T: int)
    requires b > 0 && T > 0 && a * T == z * (b * T) + x && x < b * T
    ensures z == a / b && x / T == a % b
  {
    Denormalise(a, b, z, x, T);
    DivUnique(a, b, z, x / T);
  }

  /** The unsigned division: normalise, leading limb, then one limb per pass. */
  method DivCore(Z: Mpi, X: Mpi, Y: Mpi, T1: Mpi, T2: Mpi) returns (k: nat)
    requires Distinct5(X, Y, Z, T1, T2) && X.s == 1 && Y.s == 1 && Z.s == 1
    requires 0 < Nat(Y.p) <= Nat(X.p) && Z.p == Zeros(|Z.p|) && |Z.p| > |X.p| + 1
    requires |X.p| == Used(X.p) && |Y.p| == Used(Y.p) && |T1.p| >= 2 && |T2.p| >= 3
    modifies X, Y, Z, T1, T2
    ensures Pow(2, k) > 0 && Z.p != [] && X.p != []
    ensures old(Nat(X.p)) * Pow(2, k) == Nat(Z.p) * (old(Nat(Y.p)) * Pow(2, k)) + Nat(X.p)
    ensures Nat(X.p) < old(Nat(Y.p)) * Pow(2, k)
  {
    hide Pow, Nat, DivInv;
    NonZeroUsed(X.p);
    NonZeroUsed(Y.p);
    k := NormaliseOperands(X, Y);
    PowPos(2, k);
    var n, t := |X.p| - 1, |Y.p| - 1;
    MulMono(old(Nat(Y.p)), old(Nat(X.p)), Pow(2, k));
    DivisorShorter(X.p, Y.p);
    NatBound(Y.p);
    ghost var x0, y := X.V(), Y.V();
    LeadingDigit(Z, X, Y, n, t);
    DigitLoop(Z, X, Y, T1, T2, n, t, x0);
  }

  method DigitLoop(Z: Mpi, X: Mpi, Y: Mpi, T1: Mpi, T2: Mpi, n: nat, t: nat, ghost x0: int)
    requires Distinct5(X, Y, Z, T1, T2) && t <= n < |X.p| && t < |Y.p| && n - t < |Z.p|
    requires Y.s == 1 && BASE / 4 * BPow(t) <= Nat(Y.p) < BPow(t + 1)
    requires |T1.p| >= 2 && |T2.p| >= 3 && Z.s == 1 && DivInv(x0, Z.p, X.V(), Y.V(), n - t)
    modifies X, Z, T1, T2
    ensures Z.p != [] && X.p != [] && 0 <= X.V() < Y.V() && x0 == Nat(Z.p) * Y.V() + X.V()
    ensures X.V() == Nat(X.p)
  {
    hide Pow, Nat, DivInv;
    BPowPos(t);
    MulMono(1, BASE / 4, BPow(t));
    TopLimbPos(Y.p, t);
    var i := n;
    while i > t
      invariant t <= i <= n && |X.p| > n && n - t < |Z.p| && |T1.p| >= 2 && |T2.p| >= 3 && Z.s == 1
      invariant DivInv(x0, Z.p, X.V(), Y.V(), i - t)
    {
      DivStep(Z, X, Y, T1, T2, i, t, x0);
      i := i - 1;
    }
    DivInvDone(x0, Z.p, X.V(), Y.V());
  }

  lemma DivisorShorter(x: seq<Limb>, y: seq<Limb>)
    requires y != [] && BASE / 4 * BPow(|y| - 1) <= Nat(y) <= Nat(x)
    ensures |y| <= |x|
  {
    hide Pow, Nat;
    NatBound(x);
    BPowPos(|y| - 1);
    if |y| > |x| {
      BPowMono(|x|, |y| - 1);
      MulMono(1, BASE / 4, BPow(|y| - 1));
    }
  }

  lemma TopLimbPos(y: seq<Limb>, t: nat)
    requires t < |y| && BPow(t) <= Nat(y) < BPow(t + 1)
    ensures y[t] > 0
  {
    hide Pow, Nat;
    CutTop(y, t);
    NatSnoc(y, t);
    NatBound(y[..t]);
    MulZero(BPow(t), 0);
  }

  lemma DivInvDone(x0: int, z: seq<Limb>, x: int, y: int)
    requires DivInv(x0, z, x, y, 0)
    ensures 0 <= x < y && x0 == Nat(z) * y + x
  {
    NatEmpty(z);
  }
}
