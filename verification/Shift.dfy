/** In-place shifts of multi-precision integers. */
module MpiShift {
  import opened Arith
  import opened Limbs
  import opened MpiCore
  import opened MpiBits

  /** x << t truncated to a limb. */
  function Shl(x: Limb, t: nat): Limb {
    x * Pow(2, t) % BASE
  }

  /** x >> t. */
  function Shr(x: Limb, t: nat): Limb {
    PowPos(2, t);
    DivShrinks(x, Pow(2, t));
    x / Pow(2, t)
  }

  lemma DivShrinks(x: nat, d: nat)
    requires d > 0
    ensures 0 <= x / d <= x
  {
    var q := x / d;
    assert x == d * q + x % d;
    if q < 0 {
      MulMono(q, -1, d);
    } else {
      MulMono(1, d, q);
    }
  }

  method ShiftL(X: Mpi, count: nat)
    modifies X
    ensures X.s == old(X.s)
    ensures Nat(X.p) == old(Nat(X.p)) * Pow(2, count)
    ensures |X.p| >= old(|X.p|)
    ensures |X.p| == old(|X.p|) || Nat(X.p) == 0 || (|X.p| > 0 && BPow(|X.p| - 1) <= Nat(X.p))
  {
    hide Pow, Nat, BPow, Zeros, Used;
    var v0, t1 := count / 64, count % 64;
    var bits := BitLen(X);
    if |X.p| * 64 < bits + count {
      Grow(X, LimbsForBits(bits + count));
    }
    ghost var orig := X.p;
    ShiftRoom(orig, bits, count);
    if v0 > 0 {
      MoveLimbsUp(X, v0);
    } else {
      assert orig == Zeros(0) + orig[..|orig|];
    }
    ShlValue(orig, X.p, count);
    if t1 > 0 {
      ShlBits(X, v0, t1);
    } else {
      assert Pow(2, t1) == 1 by { PowZero(2); }
    }
    if |X.p| > old(|X.p|) {
      ShlTop(old(Nat(X.p)), bits, count, |X.p|);
    }
  }

  lemma ShlValue(orig: seq<Limb>, q: seq<Limb>, count: nat)
    requires count / 64 <= |orig| && q == Zeros(count / 64) + orig[..|orig| - count / 64]
    requires Nat(orig[..|orig| - count / 64]) == Nat(orig)
    ensures Nat(q) * Pow(2, count % 64) == Nat(orig) * Pow(2, count)
  {
    hide Pow;
    var v0 := count / 64;
    NatConcat(Zeros(v0), orig[..|orig| - v0]);
    NatZeros(v0);
    PowAdd(2, v0 * 64, count % 64);
    BPowBits(v0);
    MulSwap(BPow(v0), Nat(orig), Pow(2, count % 64));
  }

  /** Shift by count / limb_size. */
  method MoveLimbsUp(X: Mpi, v0: nat)
    requires 0 < v0 <= |X.p|
    modifies X
    ensures X.s == old(X.s) && X.p == Zeros(v0) + old(X.p)[..|old(X.p)| - v0]
  {
    var n := |X.p|;
    ghost var orig := X.p;
    var i := n;
    while i > v0
      invariant v0 <= i <= n == |X.p| && X.s == old(X.s)
      invariant X.p[..i] == orig[..i] && X.p[i..] == orig[i - v0..n - v0]
    {
      X.p := X.p[i - 1 := X.p[i - v0 - 1]];
      i := i - 1;
    }
    while i > 0
      invariant 0 <= i <= v0 <= n == |X.p| && X.s == old(X.s)
      invariant forall k :: i <= k < v0 ==> X.p[k] == 0
      invariant X.p[v0..] == orig[..n - v0]
    {
      X.p := X.p[i - 1 := 0];
      i := i - 1;
    }
  }

  /** Shift by count % limb_size, with r0 the bits carried between limbs. */
  method ShlBits(X: Mpi, v0: nat, t1: nat)
    requires 0 < t1 < 64 && v0 <= |X.p| && X.p[..v0] == Zeros(v0)
    requires Nat(X.p) * Pow(2, t1) < BPow(|X.p|)
    modifies X
    ensures X.s == old(X.s) && |X.p| == old(|X.p|)
    ensures Nat(X.p) == old(Nat(X.p)) * Pow(2, t1)
  {
    hide Pow, Nat;
    var n := |X.p|;
    ghost var q := X.p;
    PowPos(2, t1);
    NatEmpty(q);
    BPowPos(n);
    NatZeros(v0);
    var r0: Limb := 0;
    var i := v0;
    while i < n
      invariant v0 <= i <= n == |X.p| && X.s == old(X.s) && X.p[i..] == q[i..] && r0 < Pow(2, t1)
      invariant Nat(X.p[..i]) + r0 * BPow(i) == Pow(2, t1) * Nat(q[..i])
    {
      var x := X.p[i];
      ghost var before := X.p;
      ShlSplit(x, t1, r0);
      var r1 := Shr(x, 64 - t1);
      X.p := X.p[i := Shl(x, t1) + r0];
      ShlLoopStep(before, X.p, q, i, t1, r0, r1);
      r0 := r1;
      i := i + 1;
    }
    assert X.p[..n] == X.p && q[..n] == q;
    ShlNoCarry(Nat(X.p), r0, BPow(n), Pow(2, t1), Nat(q));
  }

  /** BITS_TO_LIMBS. */
  function LimbsForBits(i: nat): nat {
    i / 64 + if i % 64 != 0 then 1 else 0
  }

  lemma MulSwap(a: int, b: int, c: int)
    ensures (a * b) * c == b * (a * c)
  {
  }

  lemma ShlTop(x: nat, bits: nat, count: nat, n: nat)
    requires x < Pow(2, bits) && (bits > 0 ==> Pow(2, bits - 1) <= x)
    requires n > 0 && 64 * (n - 1) < bits + count
    ensures x * Pow(2, count) == 0 || BPow(n - 1) <= x * Pow(2, count)
  {
    if bits == 0 { return; }
    BPowBits(n - 1);
    PowAdd(2, bits - 1, count);
    PowPos(2, count);
    MulMono(Pow(2, bits - 1), x, Pow(2, count));
    Pow2Mono(64 * (n - 1), bits - 1 + count);
  }

  lemma {:induction false} Pow2Mono(a: nat, b: nat)
    requires a <= b
    ensures 0 < Pow(2, a) <= Pow(2, b)
  {
    PowPos(2, a);
    if a < b { Pow2Mono(a, b - 1); }
  }

  /** The limbs that a shift by `count` pushes out of the buffer are zero. */
  lemma ShiftRoom(s: seq<Limb>, bits: nat, count: nat)
    requires Nat(s) < Pow(2, bits) && bits + count <= 64 * |s|
    ensures count / 64 <= |s|
    ensures Nat(s[..|s| - count / 64]) == Nat(s)
    ensures Nat(s) * Pow(2, count) < BPow(|s|)
  {
    hide Pow, Nat;
    var k := |s| - count / 64;
    ShiftFits(Nat(s), bits, count, |s|);
    if Nat(s[k..]) > 0 {
      TopLimbs(s, k);
      ShiftTooBig(Nat(s), count, k, |s|);
      assert false;
    }
    NatBound(s[k..]);
    NatSplit(s, k);
  }

  lemma TopLimbs(s: seq<Limb>, k: nat)
    requires k <= |s| && Nat(s[k..]) > 0
    ensures BPow(k) <= Nat(s)
  {
    NatSplit(s, k);
    NatBound(s[..k]);
    BPowPos(k);
    MulMono(1, Nat(s[k..]), BPow(k));
  }

  lemma ShiftFits(x: nat, bits: nat, count: nat, n: nat)
    requires x < Pow(2, bits) && bits + count <= 64 * n
    ensures x * Pow(2, count) < BPow(n)
  {
    hide Pow;
    PowPos(2, count);
    TopDigit(Pow(2, bits), x, Pow(2, count), 0);
    PowAdd(2, bits, count);
    BPowBits(n);
    Pow2Mono(bits + count, 64 * n);
  }

  lemma ShiftTooBig(x: nat, count: nat, k: nat, n: nat)
    requires BPow(k) <= x && n <= k + count / 64
    ensures BPow(n) <= x * Pow(2, count)
  {
    hide Pow;
    PowPos(2, count);
    MulMono(BPow(k), x, Pow(2, count));
    BPowBits(k);
    PowAdd(2, 64 * k, count);
    BPowBits(n);
    Pow2Mono(64 * n, 64 * k + count);
  }

  lemma ShlSplit(x: Limb, t: nat, r0: nat)
    requires 0 < t < 64 && r0 < Pow(2, t)
    ensures Shl(x, t) + r0 < BASE
    ensures Shl(x, t) + r0 + Shr(x, 64 - t) * BASE == x * Pow(2, t) + r0
    ensures Shr(x, 64 - t) < Pow(2, t)
    ensures Pow(2, 64 - t) > 0 && Shl(x, t) == x % Pow(2, 64 - t) * Pow(2, t)
  {
    var T, M := Pow(2, t), Pow(2, 64 - t);
    PowPos(2, t);
    PowPos(2, 64 - t);
    assert T * M == BASE by { PowAdd(2, t, 64 - t); Pow64(); }
    var hi, lo := x / M, x % M;
    ShlArith(x, hi, lo, T, M);
    DivUnique(x * T, BASE, hi, lo * T);
  }

  lemma ShlArith(x: int, hi: int, lo: int, T: int, M: int)
    requires x == hi * M + lo && 0 <= lo < M && T > 0 && M > 0 && T * M == BASE && 0 <= x < BASE
    ensures x * T == hi * BASE + lo * T
    ensures 0 <= lo * T <= BASE - T && 0 <= hi < T
  {
    assert x * T == hi * BASE + lo * T by { MulSwap(hi, M, T); }
    LowPart(lo, T, M);
    if hi >= T {
      MulMono(T, hi, M);
    } else if hi < 0 {
      MulMono(hi, -1, M);
    }
  }

  lemma LowPart(lo: int, T: int, M: int)
    requires 0 <= lo < M && T > 0
    ensures 0 <= lo * T <= M * T - T
  {
    MulMono(lo + 1, M, T);
  }

  lemma ShlLoopStep(p: seq<Limb>, p': seq<Limb>, q: seq<Limb>, i: nat, t: nat, r0: Limb, r1: Limb)
    requires i < |p| == |p'| == |q| && p[..i] == p'[..i]
    requires Nat(p[..i]) + r0 * BPow(i) == Pow(2, t) * Nat(q[..i])
    requires p'[i] + r1 * BASE == q[i] * Pow(2, t) + r0
    ensures Nat(p'[..i + 1]) + r1 * BPow(i + 1) == Pow(2, t) * Nat(q[..i + 1])
  {
    hide Pow;
    NatSnoc(p', i);
    NatSnoc(q, i);
    ShlStep(Nat(p[..i]), Nat(q[..i]), p'[i], q[i], r0, r1, Pow(2, t), BPow(i));
    BPowNext(i);
  }

  lemma ShlStep(np: int, nq: int, v: int, x: int, r0: int, r1: int, T: int, P: int)
    requires np + r0 * P == T * nq
    requires v + r1 * BASE == x * T + r0
    ensures np + v * P + r1 * (BASE * P) == T * (nq + x * P)
  {
    assert (v + r1 * BASE) * P == (x * T + r0) * P;
    assert (v + r1 * BASE) * P == v * P + r1 * (BASE * P);
    assert (x * T + r0) * P == T * (x * P) + r0 * P;
  }

  lemma ShlNoCarry(n: nat, r: nat, P: int, T: int, q: int)
    requires n + r * P == T * q && q * T < P && P > 0
    ensures n == q * T
  {
    if r > 0 { MulMono(1, r, P); }
  }

  method ShiftR(X: Mpi, count: nat)
    modifies X
    ensures Pow(2, count) > 0 && Nat(X.p) == old(Nat(X.p)) / Pow(2, count)
    ensures X.s == old(X.s) || Nat(X.p) == 0
    ensures |X.p| == old(|X.p|) || (old(|X.p|) == 0 && |X.p| == 1)
  {
    hide Pow, Nat;
    var v0, v1 := count / 64, count % 64;
    PowPos(2, count);
    if v0 > |X.p| || (v0 == |X.p| && v1 > 0) {
      ShrAll(X.p, count);
      Lset(X, 0);
      return;
    }
    if v0 > 0 {
      MoveLimbsDown(X, v0);
    } else {
      assert X.p == X.p[0..] + Zeros(0);
    }
    MovedDown(old(X.p), X.p, v0);
    ghost var q := Nat(X.p);
    if v1 > 0 {
      ShrBits(X, v1);
    } else {
      PowZero(2);
    }
    PowAdd(2, 64 * v0, v1);
    BPowBits(v0);
    PowPos(2, v1);
    DivDiv(old(Nat(X.p)), BPow(v0), Pow(2, v1), Nat(X.p), q % Pow(2, v1));
  }

  lemma ShrAll(s: seq<Limb>, count: nat)
    requires |s| * 64 <= count
    ensures Pow(2, count) > 0 && Nat(s) / Pow(2, count) == 0
  {
    NatBound(s);
    BPowBits(|s|);
    Pow2Mono(64 * |s|, count);
    DivUnique(Nat(s), Pow(2, count), 0, Nat(s));
  }

  lemma MovedDown(s: seq<Limb>, q: seq<Limb>, v: nat)
    requires v <= |s| && q == s[v..] + Zeros(v)
    ensures BPow(v) > 0 && Nat(s) / BPow(v) == Nat(q)
  {
    hide Pow, Nat;
    NatDrop(s, v);
    NatZeros(v);
    NatConcat(s[v..], Zeros(v));
  }

  /** Shift by count / limb_size. */
  method MoveLimbsDown(X: Mpi, v0: nat)
    requires v0 <= |X.p|
    modifies X
    ensures X.s == old(X.s) && X.p == old(X.p)[v0..] + Zeros(v0)
  {
    var n := |X.p|;
    ghost var orig := X.p;
    var i := 0;
    while i < n - v0
      invariant i <= n - v0 && |X.p| == n && X.s == old(X.s)
      invariant X.p[..i] == orig[v0..v0 + i] && X.p[i..] == orig[i..]
    {
      X.p := X.p[i := X.p[i + v0]];
      assert orig[v0..v0 + i + 1] == orig[v0..v0 + i] + [orig[v0 + i]];
      i := i + 1;
    }
    while i < n
      invariant n - v0 <= i <= n == |X.p| && X.s == old(X.s)
      invariant X.p[..n - v0] == orig[v0..] && forall k :: n - v0 <= k < i ==> X.p[k] == 0
    {
      X.p := X.p[i := 0];
      i := i + 1;
    }
  }

  /** Shift by count % limb_size, with r0 the bits carried between limbs. */
  method ShrBits(X: Mpi, v1: nat)
    requires 0 < v1 < 64
    modifies X
    ensures X.s == old(X.s) && |X.p| == old(|X.p|)
    ensures Pow(2, v1) > 0
    ensures old(Nat(X.p)) == Pow(2, v1) * Nat(X.p) + old(Nat(X.p)) % Pow(2, v1)
  {
    hide Pow, Nat;
    NatEmpty(X.p);
    assert X.p[|X.p|..] == X.p[..0];
    var n := |X.p|;
    ghost var q := X.p;
    ghost var rem := 0;
    var r0: Limb := 0;
    var i := n;
    PowPos(2, v1);
    while i > 0
      invariant 0 <= i <= n == |X.p| && X.s == old(X.s) && X.p[..i] == q[..i]
      invariant 0 <= rem < Pow(2, v1) && r0 == rem * Pow(2, 64 - v1)
      invariant Nat(q[i..]) == Pow(2, v1) * Nat(X.p[i..]) + rem
    {
      var x := X.p[i - 1];
      ghost var before := X.p;
      ShrSplit(x, rem, v1);
      var r1 := Shl(x, 64 - v1);
      X.p := X.p[i - 1 := Shr(x, v1) + r0];
      assert X.p[i..] == before[i..];
      ShrLoopStep(X.p, q, i - 1, v1, rem);
      rem := x % Pow(2, v1);
      r0 := r1;
      i := i - 1;
    }
    assert X.p[0..] == X.p && q[0..] == q;
    DivUnique(Nat(q), Pow(2, v1), Nat(X.p), rem);
  }

  lemma ShrSplit(x: Limb, rem: nat, v: nat)
    requires 0 < v < 64 && rem < Pow(2, v)
    ensures 0 <= Shr(x, v) + rem * Pow(2, 64 - v) < BASE
    ensures Shl(x, 64 - v) == x % Pow(2, v) * Pow(2, 64 - v)
  {
    hide Pow;
    PowPos(2, v);
    PowPos(2, 64 - v);
    assert Pow(2, v) * Pow(2, 64 - v) == BASE by { PowAdd(2, v, 64 - v); Pow64(); }
    ShlSplit(x, 64 - v, 0);
    ShrRoom(x, rem, Pow(2, v), Pow(2, 64 - v));
  }

  lemma ShrLoopStep(p: seq<Limb>, q: seq<Limb>, i: nat, v: nat, rem: int)
    requires i < |p| == |q| && 0 < v < 64 && p[i] == Shr(q[i], v) + rem * Pow(2, 64 - v)
    requires Nat(q[i + 1..]) == Pow(2, v) * Nat(p[i + 1..]) + rem
    ensures Pow(2, v) > 0 && Nat(q[i..]) == Pow(2, v) * Nat(p[i..]) + q[i] % Pow(2, v)
  {
    hide Pow;
    PowPos(2, v);
    PowAdd(2, v, 64 - v);
    Pow64();
    assert p[i..][1..] == p[i + 1..] && q[i..][1..] == q[i + 1..];
    ShrStep(Nat(q[i + 1..]), Nat(p[i + 1..]), q[i], rem, Pow(2, v), Pow(2, 64 - v));
  }

  lemma ShrRoom(x: Limb, rem: int, P: int, M: int)
    requires P > 0 && M > 0 && P * M == BASE && 0 <= rem < P
    ensures 0 <= x / P && x / P + rem * M < BASE
  {
    var a := x / P;
    assert x == P * a + x % P;
    if a >= M { MulMono(M, a, P); }
    MulMono(rem + 1, P, M);
    assert (rem + 1) * M == rem * M + M;
  }

  lemma ShrStep(nq: int, np: int, x: int, rem: int, P: int, M: int)
    requires P > 0 && P * M == BASE && nq == P * np + rem
    ensures x + BASE * nq == P * (x / P + rem * M + BASE * np) + x % P
  {
    assert x == P * (x / P) + x % P;
    assert BASE * nq == P * (BASE * np) + (P * M) * rem;
  }

  lemma DivDiv(x: int, a: int, b: int, q: int, rem: int)
    requires a > 0 && b > 0 && 0 <= rem < b && x / a == b * q + rem
    ensures a * b > 0 && x / (a * b) == q
  {
    MulPos(a, b);
    var l := x % a;
    assert x == a * (b * q + rem) + l;
    assert a * (b * q + rem) == q * (a * b) + a * rem;
    MulMono(rem + 1, b, a);
    MulMono(0, rem, a);
    assert a * (rem + 1) == a * rem + a;
    DivUnique(x, a * b, q, a * rem + l);
  }
}
