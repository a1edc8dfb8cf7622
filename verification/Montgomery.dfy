/** Montgomery setup, multiplication and reduction. */
module Montgomery {
  import opened Arith
  import opened Limbs
  import opened MpiCore
  import opened MpiAddSub
  import opened MpiMul

  /** mm is the negated inverse of the lowest limb of the modulus. */
  predicate NegInverse(mm: Limb, n0: Limb) {
    (mm * n0 + 1) % BASE == 0
  }

  /** One Newton step x := x * (2 - m0 * x), wrapping at every operation. */
  function Newton(x: Limb, m0: Limb): Limb {
    x * ((2 - m0 * x) % BASE) % BASE
  }

  method MontgInit(N: Mpi) returns (mm: Limb)
    requires N.p != [] && N.p[0] % 2 == 1
    ensures NegInverse(mm, N.p[0])
  {
    hide Newton;
    var m0 := N.p[0];
    var x: Limb := (m0 + (m0 + 2) / 4 % 2 * 4 * 2) % BASE;
    NewtonStart(m0);
    var i := 64;
    ghost var M := 16;
    while i >= 8
      invariant i > 0 && M > 0 && Doubling(i, M)
      invariant Cong(m0 * x, 1, M)
      decreases i
    {
      DoublingNext(i, M);
      NewtonStep(m0, x, M, BASE / (M * M));
      x := Newton(x, m0);
      i, M := i / 2, M * M;
    }
    mm := (BASE - 1 - x + 1) % BASE;
    NegatedInverse(m0, x, mm);
  }

  /** Up to which modulus M the loop has come when its counter is i. */
  ghost predicate Doubling(i: nat, M: nat) {
    (i == 64 && M == 0x10) || (i == 32 && M == 0x100) || (i == 16 && M == 0x1_0000)
    || (i == 8 && M == 0x1_0000_0000) || (i == 4 && M == BASE)
  }

  lemma DoublingNext(i: nat, M: nat)
    requires Doubling(i, M) && i >= 8
    ensures M > 0 && M * M > 0 && BASE == BASE / (M * M) * (M * M) && i / 2 > 0 && Doubling(i / 2, M * M)
  {}

  lemma NewtonStart(m0: Limb)
    requires m0 % 2 == 1
    ensures Cong(m0 * ((m0 + (m0 + 2) / 4 % 2 * 4 * 2) % BASE), 1, 16)
  {
    hide Cong;
    var k, r, e := m0 / 16, m0 % 16, (m0 + 2) / 4 % 2;
    var x := (m0 + e * 4 * 2) % BASE;
    LowBitsOf(m0);
    CongDivisor(m0 + e * 4 * 2, 16, BASE / 16);
    CongIntro(m0, r, 16, k);
    CongIntro(m0 + e * 4 * 2, r + 8 * e, 16, k);
    CongTrans(x, m0 + e * 4 * 2, r + 8 * e, 16);
    CongMul(m0, r, x, r + 8 * e, 16);
    SixteenCases(r, e);
    CongTrans(m0 * x, r * (r + 8 * e), 1, 16);
  }

  lemma LowBitsOf(m0: Limb)
    requires m0 % 2 == 1
    ensures (m0 + 2) / 4 % 2 == (m0 % 16 + 2) / 4 % 2 && m0 % 16 % 2 == 1
  {
    var q, r, h := m0 / 16, m0 % 16, m0 / 2;
    var s := (r + 2) / 4;
    assert m0 == 16 * q + r && m0 == 2 * h + 1;
    DivUnique(r, 2, h - 8 * q, 1);
    DivUnique(m0 + 2, 4, 4 * q + s, (r + 2) % 4);
    DivUnique(4 * q + s, 2, 2 * q + s / 2, s % 2);
  }

  lemma SixteenCases(r: int, e: int)
    requires 0 <= r < 16 && r % 2 == 1 && e == (r + 2) / 4 % 2
    ensures Cong(r * (r + 8 * e), 1, 16)
  {
    assert r == 1 || r == 3 || r == 5 || r == 7 || r == 9 || r == 11 || r == 13 || r == 15;
  }

  /** A Newton step squares the modulus up to which x inverts m0. */
  lemma NewtonStep(m0: Limb, x: Limb, M: int, c: int)
    requires M > 0 && Cong(m0 * x, 1, M) && BASE == c * (M * M)
    ensures M * M > 0 && Cong(m0 * Newton(x, m0), 1, M * M)
  {
    hide Cong;
    MulPos(M, M);
    var e := CongElim(m0 * x, 1, M);
    var w := 2 - m0 * x;
    assert Cong(w % BASE, w, M * M) by { CongDivisor(w, M * M, c); }
    CongScale(w % BASE, w, x, M * M);
    assert Cong(Newton(x, m0), x * (w % BASE), M * M) by { CongDivisor(x * (w % BASE), M * M, c); }
    CongTrans(Newton(x, m0), x * (w % BASE), x * w, M * M);
    CongScale(Newton(x, m0), x * w, m0, M * M);
    NewtonArith(m0 * x, e, M);
    Assoc(m0, x, w);
    CongIntro(m0 * (x * w), 1, M * M, -(e * e));
    CongTrans(m0 * Newton(x, m0), m0 * (x * w), 1, M * M);
  }

  lemma NewtonArith(y: int, e: int, M: int)
    requires y == 1 + e * M
    ensures y * (2 - y) == 1 + -(e * e) * (M * M)
  {
    assert (1 + e * M) * (1 - e * M) == 1 - e * M * (e * M);
    assert e * M * (e * M) == e * e * (M * M);
  }

  /** Truncation to a limb keeps residues modulo a divisor of the base. */
  lemma CongDivisor(a: int, d: int, c: int)
    requires d > 0 && BASE == c * d
    ensures Cong(a % BASE, a, d)
  {
    var k := a / BASE;
    assert a == k * BASE + a % BASE;
    Assoc(k, c, d);
    CongIntro(a, a % BASE, d, k * c);
  }

  lemma NegatedInverse(m0: Limb, x: Limb, mm: Limb)
    requires Cong(m0 * x, 1, BASE) && mm == (BASE - x) % BASE
    ensures NegInverse(mm, m0)
  {
    hide Cong;
    CongMod(BASE - x, BASE);
    CongScale(mm, BASE - x, m0, BASE);
    var k := CongElim(mm * m0, (BASE - x) * m0, BASE);
    var l := CongElim(m0 * x, 1, BASE);
    assert (BASE - x) * m0 == m0 * BASE - m0 * x;
    DivUnique(mm * m0 + 1, BASE, m0 - l + k, 0);
  }

  /** u1 = (d[0] + u0 * B->p[0]) * mm, wrapping. */
  function MontDigit(d0: Limb, u0: Limb, b0: Limb, mm: Limb): Limb {
    (d0 + u0 * b0) % BASE * mm % BASE
  }

  /** The lowest limb of the sum can be computed from the lowest limbs. */
  lemma LowLimb(t: int, u0: Limb, b: int, b0: Limb)
    requires Cong(b0, b, BASE)
    ensures Cong(t % BASE + u0 * b0, t + u0 * b, BASE)
  {
    hide Cong;
    CongMod(t, BASE);
    CongScale(b0, b, u0, BASE);
    CongAdd(t % BASE, t, u0 * b0, u0 * b, BASE);
  }

  /** The chosen multiple of N clears the lowest limb of y, which x shares: the quotient k. */
  lemma MontDigitClears(x: int, y: int, n: int, n0: Limb, mm: Limb) returns (k: int)
    requires NegInverse(mm, n0) && Cong(n0, n, BASE) && Cong(x, y, BASE)
    ensures y + x % BASE * mm % BASE * n == k * BASE
  {
    hide Cong;
    var u1 := x % BASE * mm % BASE;
    CongMod(x, BASE);
    CongScale(x % BASE, x, mm, BASE);
    CongMod(x % BASE * mm, BASE);
    CongTrans(u1, x % BASE * mm, x * mm, BASE);
    CongSym(n0, n, BASE);
    CongMul(u1, x * mm, n, n0, BASE);
    var q := (mm * n0 + 1) / BASE;
    MontDigitArith(x, mm, n0, q);
    CongIntro(x * mm * n0, -x, BASE, x * q);
    CongTrans(u1 * n, x * mm * n0, -x, BASE);
    CongSym(x, y, BASE);
    CongAdd(y, x, u1 * n, -x, BASE);
    k := CongElim(y + u1 * n, 0, BASE);
  }

  lemma DigitClears(t: int, d0: Limb, u0: Limb, b: int, b0: Limb, n: int, n0: Limb, mm: Limb) returns (k: int)
    requires NegInverse(mm, n0) && t % BASE == d0 && b % BASE == b0 && n % BASE == n0
    ensures t + u0 * b + MontDigit(d0, u0, b0, mm) * n == k * BASE
  {
    hide Cong, NegInverse;
    CongMod(b, BASE);
    CongMod(n, BASE);
    LowLimb(t, u0, b, b0);
    k := MontDigitClears(d0 + u0 * b0, t + u0 * b, n, n0, mm);
  }

  lemma MontDigitArith(x: int, mm: int, n0: int, k: int)
    requires mm * n0 + 1 == k * BASE
    ensures x * mm * n0 == -x + x * k * BASE
  {
    assert x * mm * n0 == x * (k * BASE - 1);
  }


  /**
   * After i limbs: T holds the consumed limbs of A below, and above them a number t with
   * t * BASE^i == A[..i] * b + u * n, kept below b + n.
   */
  ghost predicate MontInv(tp: seq<Limb>, a: seq<Limb>, i: nat, b: int, n: int, u: int) {
    i <= |tp| && i <= |a| && tp[..i] == a[..i]
    && Nat(tp[i..]) * BPow(i) == Nat(a[..i]) * b + u * n && Nat(tp[i..]) < b + n
  }

  /** The loop body: T := (T + u0 * B + u1 * N) / 2^biL. */
  method MontStep(T: Mpi, A: Mpi, B: Mpi, N: Mpi, mm: Limb, m: nat, i: nat, ghost u: int)
      returns (ghost u': int)
    requires T != A && T != B && T != N
    requires 0 < m <= |B.p| && m <= |N.p| && i < |N.p| && i < |A.p| && |T.p| >= 2 * |N.p| + 2
    requires NegInverse(mm, N.p[0]) && Nat(B.p[..m]) <= Nat(N.p)
    requires MontInv(T.p, A.p, i, Nat(B.p[..m]), Nat(N.p), u)
    modifies T
    ensures |T.p| == old(|T.p|) && T.s == old(T.s)
    ensures MontInv(T.p, A.p, i + 1, Nat(B.p[..m]), Nat(N.p), u')
  {
    hide Pow, Nat, MontInv, NegInverse, MontDigit;
    var n := |N.p|;
    var u0 := A.p[i];
    var u1 := MontDigit(T.p[i], u0, B.p[0], mm);
    ghost var b, nv, t0 := Nat(B.p[..m]), Nat(N.p), T.p;
    assert N.p[..n] == N.p;
    NatBound(N.p);
    MontRoom(t0, A.p, i, b, nv, u, u0, u1, n);
    MulHlp(m, B, T, i, u0);
    MulHlp(n, N, T, i, u1);
    ghost var t1 := T.p;
    T.p := T.p[i := u0];
    T.p := T.p[i + n + 2 := 0];
    u' := u + u1 * BPow(i);
    MontShift(t0, t1, i, u0 * b + u1 * nv, n);
    MontLowDigits(B.p, m, N.p);
    LowDigit(t0[i..]);
    ghost var q := DigitClears(Nat(t0[i..]), t0[i], u0, b, B.p[0], nv, N.p[0], mm);
    DivUnique(Nat(t0[i..]) + u0 * b + u1 * nv, BASE, q, 0);
    MontStepInv(t0, t1, T.p, A.p, i, b, nv, u, u0, u1, n);
  }

  /** The sums of both multiply-accumulate calls stay inside T. */
  lemma MontRoom(t: seq<Limb>, a: seq<Limb>, i: nat, b: int, nv: nat, u: int, u0: Limb, u1: Limb, n: nat)
    requires i < n && |t| >= 2 * n + 2 && 0 <= b <= nv < BPow(n) && MontInv(t, a, i, b, nv, u)
    ensures Nat(t) + u0 * b * BPow(i) < BPow(|t|)
    ensures Nat(t) + u0 * b * BPow(i) + u1 * nv * BPow(i) < BPow(|t|)
    ensures Nat(t[i..]) + u0 * b + u1 * nv < BASE * (b + nv)
  {
    hide Pow, Nat;
    NatSplit(t, i);
    NatBound(t[..i]);
    DigitSum(Nat(t[i..]), b, nv, u0, u1);
    var s := Nat(t[i..]) + u0 * b + u1 * nv;
    DigitRoom(s, b, nv, n);
    BPowAdd(i, n + 2);
    BPowMono(i + (n + 2), |t|);
    BPowPos(i);
    MulMono(s + 1, BPow(n + 2), BPow(i));
    MulMono(0, u1 * nv, BPow(i));
    MontRoomArith(Nat(t[i..]), u0 * b, u1 * nv, BPow(i));
  }

  lemma DigitSum(t: nat, b: int, nv: int, u0: Limb, u1: Limb)
    requires 0 <= b && 0 <= nv && t < b + nv
    ensures t + u0 * b + u1 * nv < BASE * (b + nv) && 0 <= u1 * nv
  {
    MulMono(u0, BASE - 1, b);
    MulMono(u1, BASE - 1, nv);
    MulMono(0, u1, nv);
  }

  lemma DigitRoom(s: int, b: int, nv: int, n: nat)
    requires s < BASE * (b + nv) && 0 <= b <= nv < BPow(n)
    ensures s + 1 <= BPow(n + 2)
  {
    hide Pow;
    BPowNext(n);
    BPowNext(n + 1);
  }

  lemma MontRoomArith(t: int, x: int, y: int, P: int)
    ensures (t + x + y + 1) * P == P * t + x * P + y * P + P
  {
  }

  /** Adding v at limb i leaves the limbs below and adds v above. */
  lemma MontShift(t0: seq<Limb>, t1: seq<Limb>, i: nat, v: int, n: nat)
    requires i <= |t0| == |t1| && t1[..i] == t0[..i] && Nat(t1) == Nat(t0) + v * BPow(i)
    ensures Nat(t1[i..]) == Nat(t0[i..]) + v
  {
    hide Pow, Nat;
    NatSplit(t0, i);
    NatSplit(t1, i);
    BPowPos(i);
    CancelMul(Nat(t1[i..]), Nat(t0[i..]) + v, BPow(i));
  }

  lemma CancelMul(x: int, y: int, P: int)
    requires P > 0 && x * P == y * P
    ensures x == y
  {
  }

  lemma MontLowDigits(b: seq<Limb>, m: nat, n: seq<Limb>)
    requires 0 < m <= |b| && n != []
    ensures Nat(b[..m]) % BASE == b[0] && Nat(n) % BASE == n[0]
  {
    LowDigit(b[..m]);
    LowDigit(n);
  }

  lemma LowDigit(s: seq<Limb>)
    requires s != []
    ensures Nat(s) % BASE == s[0] && Nat(s) / BASE == Nat(s[1..])
  {
    DivUnique(Nat(s), BASE, Nat(s[1..]), s[0]);
  }

  lemma MontStepInv(t0: seq<Limb>, t1: seq<Limb>, t2: seq<Limb>, a: seq<Limb>, i: nat,
                    b: nat, nv: nat, u: int, u0: Limb, u1: Limb, n: nat)
    requires i < n && i < |a| && |t1| == |t0| >= 2 * n + 2 && t1[..i] == t0[..i] && u0 == a[i]
    requires t2 == t1[i := u0][i + n + 2 := 0] && b <= nv < BPow(n)
    requires MontInv(t0, a, i, b, nv, u)
    requires Nat(t1[i..]) == Nat(t0[i..]) + (u0 * b + u1 * nv) < BASE * (b + nv)
    requires (Nat(t0[i..]) + u0 * b + u1 * nv) % BASE == 0
    ensures MontInv(t2, a, i + 1, b, nv, u + u1 * BPow(i))
  {
    hide Pow, Nat;
    var s, h := t1[i..], t1[i + 1..];
    assert s[1..] == h;
    LowDigit(s);
    assert Nat(s) == BASE * Nat(h);
    assert Nat(h) < BPow(n + 1) by { BPowNext(n); }
    HighZero(h, n + 1);
    assert h[n + 1] == t1[i + n + 2];
    assert t2[i + 1..] == h;
    assert t2[..i + 1] == t1[..i] + [u0] == a[..i] + [a[i]] == a[..i + 1];
    NatSnoc(a, i);
    BPowNext(i);
    MontStepArith(Nat(h), Nat(t0[i..]), Nat(a[..i]), b, nv, u, u0, u1, BPow(i));
  }

  lemma MontStepArith(h: int, t: int, a: int, b: int, nv: int, u: int, u0: int, u1: int, P: int)
    requires BASE * h == t + (u0 * b + u1 * nv) && t * P == a * b + u * nv
    ensures h * (BASE * P) == (a + u0 * P) * b + (u + u1 * P) * nv
  {
    assert h * (BASE * P) == (BASE * h) * P;
    assert (t + (u0 * b + u1 * nv)) * P == t * P + u0 * b * P + u1 * nv * P;
    assert (a + u0 * P) * b == a * b + u0 * b * P;
    assert (u + u1 * P) * nv == u * nv + u1 * nv * P;
  }

  /** A number below BASE^k has only zero limbs from k on. */
  lemma HighZero(s: seq<Limb>, k: nat)
    requires k <= |s| && Nat(s) < BPow(k)
    ensures forall j :: k <= j < |s| ==> s[j] == 0
    ensures Nat(s[..k]) == Nat(s)
  {
    hide Pow, Nat;
    NatDrop(s, k);
    DivUnique(Nat(s), BPow(k), 0, Nat(s));
    AllZero(s[k..]);
    forall j | k <= j < |s| ensures s[j] == 0 {
      assert s[j] == s[k..][j - k];
    }
  }

  lemma {:induction false} AllZero(s: seq<Limb>)
    requires Nat(s) == 0
    ensures forall j :: 0 <= j < |s| ==> s[j] == 0
  {
    if s != [] {
      AllZero(s[1..]);
      forall j | 0 <= j < |s| ensures s[j] == 0 {
        if j > 0 { assert s[j] == s[1..][j - 1]; }
      }
    }
  }

  /** A := A * B * R^-1 mod N with R = BASE^n; B may be A itself. */
  method MontMul(A: Mpi, B: Mpi, N: Mpi, mm: Limb, T: Mpi) returns (ret: int)
    requires T != A && T != B && T != N && A != N && N.p != [] && B.p != []
    requires |T.p| >= |N.p| + 1 ==> |T.p| >= 2 * |N.p| + 2
    requires |A.p| >= |N.p| + 1 && Nat(A.p) < BPow(|N.p|)
    requires 0 < Nat(N.p) && Nat(B.p) <= Nat(N.p) && NegInverse(mm, N.p[0])
    modifies A, T
    ensures ret == if old(|T.p|) < |N.p| + 1 then ERR_BAD_INPUT_DATA else 0
    ensures ret == 0 ==> A.s == old(A.s) && |A.p| == old(|A.p|) && |T.p| == old(|T.p|)
    ensures ret == 0 ==> Nat(A.p) < Nat(N.p)
    ensures ret == 0 ==> Cong(Nat(A.p) * BPow(|N.p|), old(Nat(A.p)) * old(Nat(B.p)), Nat(N.p))
    ensures ret != 0 ==> unchanged(A) && unchanged(T)
  {
    hide Pow, Nat, MontInv, NegInverse;
    if |T.p| < |N.p| + 1 { return ERR_BAD_INPUT_DATA; }
    T.p := Zeros(|T.p|);
    var n := |N.p|;
    var m := if |B.p| < n then |B.p| else n;
    ghost var a, b, nv := Nat(A.p), Nat(B.p), Nat(N.p);
    NatBound(N.p);
    OperandLimbs(B.p, m, n, nv);
    HighZero(A.p, n);
    MontStart(T.p, A.p, b, nv);
    ghost var u := MontLoop(T, A, B, N, mm, m);
    ghost var a0 := A.p;
    A.p := T.p[n..2 * n + 1] + A.p[n + 1..];
    MontEnd(T.p, a0, A.p, n, b, nv, u);
    MontCong(Nat(A.p), BPow(n), a * b, nv, u);
    SubtractOnce(A, N, T, a * b);
    ret := 0;
  }

  /** The final subtraction, or the dummy one in its place. */
  method SubtractOnce(A: Mpi, N: Mpi, T: Mpi, ghost ab: int)
    requires T != A && T != N && A != N && 0 < |N.p| < |A.p| && |N.p| <= |T.p|
    requires 0 < Nat(N.p) && Nat(A.p) < 2 * Nat(N.p) && Nat(A.p) == Nat(T.p[|N.p|..])
    requires Cong(Nat(A.p) * BPow(|N.p|), ab, Nat(N.p)) && Cong((Nat(A.p) - Nat(N.p)) * BPow(|N.p|), ab, Nat(N.p))
    modifies A, T
    ensures A.s == old(A.s) && |A.p| == old(|A.p|) && |T.p| == old(|T.p|)
    ensures Nat(A.p) < Nat(N.p) && Cong(Nat(A.p) * BPow(|N.p|), ab, Nat(N.p))
  {
    hide Pow, Nat, Cong, BPow;
    var n := |N.p|;
    var cmp := CmpAbs(A, N);
    if cmp >= 0 {
      assert N.p[..n] == N.p;
      SubHlp(n, N, A);
    } else {
      DummySubFits(T.p, A.p, n);
      SubHlp(n, A, T);
    }
  }

  /** One step for every limb of N. */
  method MontLoop(T: Mpi, A: Mpi, B: Mpi, N: Mpi, mm: Limb, m: nat) returns (ghost u: int)
    requires T != A && T != B && T != N
    requires 0 < m <= |B.p| && m <= |N.p| < |A.p| && |T.p| >= 2 * |N.p| + 2
    requires NegInverse(mm, N.p[0]) && Nat(B.p[..m]) <= Nat(N.p)
    requires MontInv(T.p, A.p, 0, Nat(B.p[..m]), Nat(N.p), 0)
    modifies T
    ensures |T.p| == old(|T.p|) && T.s == old(T.s)
    ensures MontInv(T.p, A.p, |N.p|, Nat(B.p[..m]), Nat(N.p), u)
  {
    hide Pow, Nat, MontInv, NegInverse;
    u := 0;
    var i := 0;
    while i < |N.p|
      invariant i <= |N.p| && |T.p| == old(|T.p|) && T.s == old(T.s)
      invariant MontInv(T.p, A.p, i, Nat(B.p[..m]), Nat(N.p), u)
    {
      u := MontStep(T, A, B, N, mm, m, i, u);
      i := i + 1;
    }
  }

  /** The limbs of B that the loop uses are all of B. */
  lemma OperandLimbs(b: seq<Limb>, m: nat, n: nat, nv: nat)
    requires b != [] && n > 0 && m == (if |b| < n then |b| else n) && Nat(b) <= nv < BPow(n)
    ensures 0 < m <= |b| && Nat(b[..m]) == Nat(b)
  {
    if |b| < n {
      assert b[..m] == b;
    } else {
      HighZero(b, n);
    }
  }

  lemma MontStart(t: seq<Limb>, a: seq<Limb>, b: nat, n: nat)
    requires t == Zeros(|t|) && n > 0
    ensures MontInv(t, a, 0, b, n, 0)
  {
    assert t[0..] == t && t[..0] == a[..0];
    NatZeros(|t|);
    NatEmpty(a);
  }

  lemma MontEnd(t: seq<Limb>, a0: seq<Limb>, a: seq<Limb>, n: nat, b: nat, nv: nat, u: int)
    requires |t| >= 2 * n + 2 && |a0| >= n + 1 && Nat(a0) < BPow(n) && b <= nv < BPow(n)
    requires MontInv(t, a0, n, b, nv, u) && a == t[n..2 * n + 1] + a0[n + 1..]
    ensures Nat(a) == Nat(t[n..]) < b + nv && Nat(a) * BPow(n) == Nat(a0) * b + u * nv
    ensures a[..n] == t[n..2 * n]
  {
    hide Pow, Nat;
    HighZero(a0, n);
    BPowNext(n);
    HighZero(t[n..], n + 1);
    assert t[n..][..n + 1] == t[n..2 * n + 1];
    assert a0[n + 1..] == Zeros(|a0| - n - 1);
    NatPad(t[n..2 * n + 1], |a0| - n - 1);
  }

  /** Both outcomes of the final comparison give the same residue. */
  lemma MontCong(x: int, P: int, ab: int, n: int, u: int)
    requires n > 0 && x * P == ab + u * n
    ensures Cong(x * P, ab, n) && Cong((x - n) * P, ab, n)
  {
    CongIntro(x * P, ab, n, u);
    assert (x - n) * P == ab + (u - P) * n;
    CongIntro((x - n) * P, ab, n, u - P);
  }

  /** The dummy subtraction taken when no reduction is needed does not run out of T either. */
  lemma DummySubFits(t: seq<Limb>, a: seq<Limb>, n: nat)
    requires n <= |t| && n <= |a| && Nat(a) == Nat(t[n..])
    ensures Nat(a[..n]) <= Nat(t)
  {
    hide Pow, Nat;
    NatSplit(a, n);
    NatSplit(t, n);
    BPowPos(n);
    MulMono(1, BPow(n), Nat(t[n..]));
    MulMono(0, BPow(n), Nat(a[n..]));
  }

  /** A := A * R^-1 mod N. */
  method MontRed(A: Mpi, N: Mpi, mm: Limb, T: Mpi) returns (ret: int)
    requires T != A && T != N && A != N && N.p != []
    requires |T.p| >= |N.p| + 1 ==> |T.p| >= 2 * |N.p| + 2
    requires |A.p| >= |N.p| + 1 && Nat(A.p) < BPow(|N.p|)
    requires 0 < Nat(N.p) && NegInverse(mm, N.p[0])
    modifies A, T
    ensures ret == if old(|T.p|) < |N.p| + 1 then ERR_BAD_INPUT_DATA else 0
    ensures ret == 0 ==> A.s == old(A.s) && |A.p| == old(|A.p|) && |T.p| == old(|T.p|)
    ensures ret == 0 ==> Nat(A.p) < Nat(N.p)
    ensures ret == 0 ==> Cong(Nat(A.p) * BPow(|N.p|), old(Nat(A.p)), Nat(N.p))
    ensures ret != 0 ==> unchanged(A) && unchanged(T)
  {
    var U := new Mpi.OfInt(1);
    ret := MontMul(A, U, N, mm, T);
  }
}
