/** Schoolbook multiplication built on the multiply-accumulate limb step. */
module MpiMul {
  import opened Arith
  import opened Limbs
  import opened MpiCore
  import opened MpiAddSub

  const HALF: int := 0x1_0000_0000

  /** MULADDC_CORE of the portable header, double-width form: (d, c) := s * b + c + d. */
  method MulAddC(s: Limb, b: Limb, d: Limb, c: Limb) returns (d': Limb, c': Limb)
    ensures d' + c' * BASE == d + s * b + c
  {
    var r := s * b;
    MulBound(s, b);
    var r0: Limb, r1: Limb := r % BASE, r / BASE;
    d', c' := AddTwo(r0, r1, c, d);
  }

  /** The four carry statements that end both forms of the core. */
  method AddTwo(r0: Limb, r1: Limb, c: Limb, d: Limb) returns (d': Limb, c': Limb)
    requires r0 + r1 * BASE <= (BASE - 1) * (BASE - 1)
    ensures d' + c' * BASE == r0 + r1 * BASE + c + d
  {
    d' := AddW(r0, c);
    var h: int := r1 + if d' < c then 1 else 0;
    d' := AddW(d', d);
    c' := h + if d' < d then 1 else 0;
  }

  lemma MulBound(s: Limb, b: Limb)
    ensures 0 <= s * b <= (BASE - 1) * (BASE - 1)
  {
    MulMono(s, BASE - 1, b);
    MulMono(b, BASE - 1, BASE - 1);
    MulMono(0, s, b);
  }

  /** MULADDC_CORE when no double-width type exists: four half-limb products. */
  method MulAddCHalf(s: Limb, b: Limb, d: Limb, c: Limb) returns (d': Limb, c': Limb)
    ensures d' + c' * BASE == d + s * b + c
  {
    var b0, b1, s0, s1 := b % HALF, b / HALF, s % HALF, s / HALF;
    HalfProducts(s0, s1, b0, b1);
    MulBound(s, b);
    var l, h := HalfSum(s0 * b1, s1 * b0, s0 * b0, s1 * b1, s * b);
    d', c' := AddTwo(l, h, c, d);
  }

  /** Sum of the half-limb products, with the middle ones split around the half-limb boundary. */
  method HalfSum(rx: Limb, ry: Limb, r0: Limb, r1: Limb, ghost r: int) returns (l: Limb, h: Limb)
    requires r == r0 + (rx + ry) * HALF + r1 * BASE && r <= (BASE - 1) * (BASE - 1)
    ensures l + h * BASE == r
  {
    var hi := r1 + rx / HALF + ry / HALF;
    var rxl := LowHalf(rx);
    var ryl := LowHalf(ry);
    l := AddW(r0, rxl);
    hi := hi + if l < rxl then 1 else 0;
    l := AddW(l, ryl);
    hi := hi + if l < ryl then 1 else 0;
    h := hi;
  }

  /** x << biH truncated to a limb keeps the low half only. */
  function LowHalf(x: Limb): (r: Limb)
    ensures r == (x - x / HALF * HALF) * HALF
  {
    DivUnique(x * HALF, BASE, x / HALF, x % HALF * HALF);
    x * HALF % BASE
  }

  lemma HalfProducts(s0: int, s1: int, b0: int, b1: int)
    requires 0 <= s0 < HALF && 0 <= s1 < HALF && 0 <= b0 < HALF && 0 <= b1 < HALF
    ensures 0 <= s0 * b0 < BASE && 0 <= s0 * b1 < BASE && 0 <= s1 * b0 < BASE && 0 <= s1 * b1 < BASE
    ensures (s0 + s1 * HALF) * (b0 + b1 * HALF)
         == s0 * b0 + (s0 * b1 + s1 * b0) * HALF + s1 * b1 * BASE
  {
    HalfProduct(s0, b0);
    HalfProduct(s0, b1);
    HalfProduct(s1, b0);
    HalfProduct(s1, b1);
  }

  lemma HalfProduct(x: int, y: int)
    requires 0 <= x < HALF && 0 <= y < HALF
    ensures 0 <= x * y < BASE
  {
    MulMono(x, HALF, y);
    MulMono(0, x, y);
  }

  /** Add b times the low n limbs of S to D at limb offset off. */
  method MulHlp(n: nat, S: Mpi, D: Mpi, off: nat, b: Limb)
    requires S != D && n <= |S.p| && off + n < |D.p|
    requires Nat(D.p) + b * Nat(S.p[..n]) * BPow(off) < BPow(|D.p|)
    modifies D
    ensures D.s == old(D.s) && |D.p| == old(|D.p|)
    ensures Nat(D.p) == old(Nat(D.p)) + b * Nat(S.p[..n]) * BPow(off)
    ensures D.p[..off] == old(D.p[..off])
  {
    hide Pow, Nat;
    var k, c: Limb := 0, 0;
    ghost var start := Nat(D.p);
    NatEmpty(S.p);
    while k < n
      invariant k <= n && |D.p| == old(|D.p|) && D.s == old(D.s) && D.p[..off] == old(D.p[..off])
      invariant Nat(D.p) + c * BPow(off + k) == start + b * Nat(S.p[..k]) * BPow(off)
    {
      ghost var before, c0 := D.p, c;
      var d, c1 := MulAddC(S.p[k], b, D.p[off + k], c);
      D.p := D.p[off + k := d];
      MulStep(before, S.p, k, off, b, d, c0, c1, start);
      c := c1;
      k := k + 1;
    }
    MulRipple(D, off + n, c, start + b * Nat(S.p[..n]) * BPow(off));
  }

  lemma MulStep(p: seq<Limb>, s: seq<Limb>, k: nat, off: nat, b: Limb, v: Limb, c: int, c': int, start: int)
    requires off + k < |p| && k < |s| && v + c' * BASE == p[off + k] + s[k] * b + c
    requires Nat(p) + c * BPow(off + k) == start + b * Nat(s[..k]) * BPow(off)
    ensures Nat(p[off + k := v]) + c' * BPow(off + k + 1) == start + b * Nat(s[..k + 1]) * BPow(off)
  {
    hide Pow, Nat;
    NatUpdate(p, off + k, v);
    NatSnoc(s, k);
    BPowNext(off + k);
    BPowAdd(off, k);
    CarryArith(p[off + k], s[k] * b, v, c, c', BPow(off + k));
    MulStepArith(b, Nat(s[..k]), s[k], BPow(k), BPow(off));
  }

  lemma MulStepArith(b: int, n: int, s: int, P: int, Q: int)
    ensures b * (n + s * P) * Q == b * n * Q + s * b * (Q * P)
  {
  }

  /** The closing do-while of the helper. */
  method MulRipple(D: Mpi, i0: nat, c0: Limb, ghost total: int)
    requires i0 < |D.p| && Nat(D.p) + c0 * BPow(i0) == total < BPow(|D.p|)
    modifies D
    ensures D.s == old(D.s) && |D.p| == old(|D.p|) && Nat(D.p) == total
    ensures D.p[..i0] == old(D.p[..i0])
  {
    hide Pow, Nat;
    var i, c: Limb := i0, c0;
    var again := true;
    while again
      invariant i0 <= i <= |D.p| == old(|D.p|) && D.s == old(D.s) && D.p[..i0] == old(D.p[..i0])
      invariant Nat(D.p) + c * BPow(i) == total
      invariant (again ==> i < |D.p|) && (!again ==> c == 0)
      decreases |D.p| - i, again
    {
      ghost var before, c1 := D.p, c;
      D.p := D.p[i := AddW(D.p[i], c)];
      c := if D.p[i] < c then 1 else 0;
      RippleStep(before, i, D.p[i], c1, c, total);
      i := i + 1;
      again := c != 0;
      if i == |D.p| && again {
        NatBound(D.p);
        assert false;
      }
    }
  }

  method MulMpi(X: Mpi, A: Mpi, B: Mpi)
    modifies X
    ensures X.V() == old(A.V()) * old(B.V())
    ensures Nat(X.p) == old(Nat(A.p)) * old(Nat(B.p))
    ensures |X.p| >= old(|X.p|) && |X.p| >= 1
  {
    hide Pow, Nat;
    var a, b := A, B;
    if X == A {
      a := new Mpi();
      Copy(a, A);
    }
    if X == B {
      b := new Mpi();
      Copy(b, B);
    }
    assert a.V() == old(A.V()) && b.V() == old(B.V());
    var sign: Sign := if a.s == b.s then 1 else 0 - 1;
    MulNonAliased(X, a, b);
    X.s := sign;
    SignedProduct(a.s, Nat(a.p), b.s, Nat(b.p), a.V(), b.V());
  }

  method MulNonAliased(X: Mpi, a: Mpi, b: Mpi)
    requires X != a && X != b
    modifies X
    ensures Nat(X.p) == Nat(a.p) * Nat(b.p)
    ensures |X.p| >= old(|X.p|) && |X.p| >= 1
  {
    hide Pow, Nat;
    var i := UsedLimbs(a.p);
    var j := UsedLimbs(b.p);
    UsedSuffix(a.p, i);
    UsedSuffix(b.p, j);
    Grow(X, i + j);
    Lset(X, 0);
    MulLoop(X, a, b, i, j);
  }

  method MulLoop(X: Mpi, a: Mpi, b: Mpi, i: nat, j0: nat)
    requires X != a && X != b && Nat(X.p) == 0
    requires i <= |a.p| && j0 <= |b.p| && i + j0 <= |X.p|
    modifies X
    ensures X.s == old(X.s) && |X.p| == old(|X.p|)
    ensures Nat(X.p) == Nat(a.p[..i]) * Nat(b.p[..j0])
  {
    hide Pow, Nat;
    var j := j0;
    ghost var na, nb := Nat(a.p[..i]), Nat(b.p[..j0]);
    while j > 0
      invariant 0 <= j <= j0 && |X.p| == old(|X.p|) && X.s == old(X.s)
      invariant Nat(X.p) == na * (nb - Nat(b.p[..j]))
    {
      MulLoopStep(na, nb, b.p, j - 1);
      MulFits(a.p, b.p, i, j0, j - 1, |X.p|);
      MulHlp(i, a, X, j - 1, b.p[j - 1]);
      j := j - 1;
    }
    NatEmpty(b.p);
  }

  lemma MulLoopStep(na: int, nb: int, b: seq<Limb>, j: nat)
    requires j < |b|
    ensures na * (nb - Nat(b[..j + 1])) + b[j] * na * BPow(j) == na * (nb - Nat(b[..j]))
  {
    hide Pow, Nat;
    NatSnoc(b, j);
    MulLoopArith(na, nb, Nat(b[..j]), b[j], BPow(j));
  }

  lemma MulLoopArith(na: int, nb: int, n: int, d: int, P: int)
    ensures na * (nb - (n + d * P)) + d * na * P == na * (nb - n)
  {
  }

  lemma MulFits(a: seq<Limb>, b: seq<Limb>, i: nat, j: nat, k: nat, n: nat)
    requires i <= |a| && k < j <= |b| && i + j <= n
    ensures Nat(a[..i]) * (Nat(b[..j]) - Nat(b[..k])) < BPow(n)
  {
    hide Pow, Nat;
    NatBound(a[..i]);
    NatBound(b[..j]);
    BPowAdd(i, j);
    BPowMono(i + j, n);
    MulLess(Nat(a[..i]), Nat(b[..j]) - Nat(b[..k]), BPow(i), BPow(j));
  }

  lemma MulLess(a: int, b: int, A: int, B: int)
    requires 0 <= a < A && b < B && B > 0
    ensures a * b < A * B
  {
    MulMono(b, B, a);
    TopDigit(A, a, B, 0);
  }

  lemma SignedProduct(s: Sign, a: int, t: Sign, b: int, va: int, vb: int)
    requires va == (if s == 1 then a else -a) && vb == if t == 1 then b else -b
    ensures va * vb == if s == t then a * b else -(a * b)
  {
  }

  method MulInt(X: Mpi, A: Mpi, b: Limb)
    modifies X
    ensures X.V() == old(A.V()) * b && Nat(X.p) == old(Nat(A.p)) * b
    ensures |X.p| >= old(|X.p|) && |X.p| >= 1
  {
    var B := new Mpi();
    B.p := [b];
    assert Nat(B.p) == Nat([b]) == b;
    MulMpi(X, A, B);
  }
}
