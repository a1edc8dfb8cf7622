/** Addition and subtraction with carries and borrows, in place over limb buffers. */
module MpiAddSub {
  import opened Arith
  import opened Limbs
  import opened MpiCore

  /** Limb addition wraps around, and the result is below an operand exactly when it did. */
  function AddW(a: Limb, b: Limb): (r: Limb)
    ensures r == a + b - if r < b then BASE else 0
  {
    (a + b) % BASE
  }

  function SubW(a: Limb, b: Limb): (r: Limb)
    ensures r == a - b + if a < b then BASE else 0
  {
    (a - b) % BASE
  }

  lemma CarryStep(p: seq<Limb>, b: seq<Limb>, i: nat, v: Limb, c: int, c': int, rest: int)
    requires i < |p| && i < |b| && v + c' * BASE == p[i] + c + b[i]
    requires Nat(p) + c * BPow(i) == rest + Nat(b[..i])
    ensures Nat(p[i := v]) + c' * BPow(i + 1) == rest + Nat(b[..i + 1])
  {
    hide Pow, Nat;
    NatUpdate(p, i, v);
    NatSnoc(b, i);
    BPowNext(i);
    CarryArith(p[i], b[i], v, c, c', BPow(i));
  }

  lemma CarryArith(d: int, s: int, v: int, c: int, c': int, P: int)
    requires v + c' * BASE == d + c + s
    ensures (v - d) * P + c' * (BASE * P) == c * P + s * P
  {
    assert (v - d) * P + c' * (BASE * P) == (v - d + c' * BASE) * P;
    assert (c + s) * P == c * P + s * P;
  }

  method AddAbs(X: Mpi, A: Mpi, B: Mpi)
    modifies X
    ensures X.s == 1 && Nat(X.p) == old(Nat(A.p)) + old(Nat(B.p))
    ensures X == A || old(A.p) != [] ==> |X.p| >= old(|X.p|)
  {
    hide Pow, Nat;
    var a, b := A, B;
    if X == b {
      a, b := X, A;
    }
    if X != a {
      Copy(X, a);
    }
    X.s := 1;
    var j := UsedLimbs(b.p);
    UsedSuffix(b.p, j);
    Grow(X, j);
    assert b == X ==> X.p == old(X.p) + Zeros(0) == old(X.p);
    ghost var total := Nat(X.p) + Nat(b.p[..j]);
    var c := AddLimbs(X, b, j);
    Ripple(X, j, c, total);
  }

  /** Add the low j limbs of b, which may be X itself, and return the carry. */
  method AddLimbs(X: Mpi, b: Mpi, j: nat) returns (c: nat)
    requires j <= |X.p| && j <= |b.p|
    modifies X
    ensures X.s == old(X.s) && |X.p| == old(|X.p|) && c <= 1
    ensures Nat(X.p) + c * BPow(j) == old(Nat(X.p)) + old(Nat(b.p[..j]))
  {
    hide Pow, Nat;
    ghost var b0, start := b.p, Nat(X.p);
    var i := 0;
    c := 0;
    NatEmpty(b0);
    while i < j
      invariant i <= j <= |X.p| == old(|X.p|) && c <= 1 && X.s == old(X.s)
      invariant |b.p| == |b0| && b.p[i..] == b0[i..]
      invariant Nat(X.p) + c * BPow(i) == start + Nat(b0[..i])
    {
      var tmp := b.p[i];
      ghost var before, c0 := X.p, c;
      var d := AddW(X.p[i], c);
      c := if d < c then 1 else 0;
      d := AddW(d, tmp);
      c := c + if d < tmp then 1 else 0;
      X.p := X.p[i := d];
      CarryStep(before, b0, i, d, c0, c, start);
      i := i + 1;
    }
  }

  /** Carry past the shorter operand, growing the buffer when it runs out. */
  method Ripple(X: Mpi, i0: nat, c0: int, ghost total: int)
    requires i0 <= |X.p| && 0 <= c0 <= 1 && Nat(X.p) + c0 * BPow(i0) == total
    modifies X
    ensures X.s == old(X.s) && Nat(X.p) == total && |X.p| >= old(|X.p|)
  {
    hide Pow, Nat;
    var i, c := i0, c0;
    while c != 0
      invariant 0 <= i <= |X.p| && 0 <= c <= 1 && X.s == old(X.s) && |X.p| >= old(|X.p|)
      invariant Nat(X.p) + c * BPow(i) == total
      decreases c, |X.p| - i
    {
      if i >= |X.p| {
        Grow(X, i + 1);
      }
      ghost var before, c1 := X.p, c;
      X.p := X.p[i := AddW(X.p[i], c)];
      c := if X.p[i] < c then 1 else 0;
      RippleStep(before, i, X.p[i], c1, c, total);
      i := i + 1;
    }
  }

  lemma RippleStep(p: seq<Limb>, i: nat, v: Limb, c: int, c': int, total: int)
    requires i < |p| && v + c' * BASE == p[i] + c
    requires Nat(p) + c * BPow(i) == total
    ensures Nat(p[i := v]) + c' * BPow(i + 1) == total
  {
    hide Pow, Nat;
    NatUpdate(p, i, v);
    BPowNext(i);
    CarryArith(p[i], 0, v, c, c', BPow(i));
  }

  /** Subtract the low n limbs of S from D; the borrow stops inside D. */
  method SubHlp(n: nat, S: Mpi, D: Mpi)
    requires S != D && n <= |S.p| && n <= |D.p| && Nat(S.p[..n]) <= Nat(D.p)
    modifies D
    ensures |D.p| == old(|D.p|) && D.s == old(D.s)
    ensures Nat(D.p) == old(Nat(D.p)) - Nat(S.p[..n])
  {
    hide Pow, Nat;
    var i, c := 0, 0;
    ghost var total: int := Nat(D.p);
    NatEmpty(S.p);
    while i < n
      invariant i <= n <= |D.p| == old(|D.p|) && D.s == old(D.s) && 0 <= c <= 1
      invariant Nat(D.p) - c * BPow(i) == total - Nat(S.p[..i])
    {
      ghost var before, c0 := D.p, c;
      var z := if D.p[i] < c then 1 else 0;
      D.p := D.p[i := SubW(D.p[i], c)];
      c := (if D.p[i] < S.p[i] then 1 else 0) + z;
      D.p := D.p[i := SubW(D.p[i], S.p[i])];
      assert D.p == before[i := D.p[i]];
      BorrowStep(before, S.p, i, D.p[i], c0, c, total);
      i := i + 1;
    }
    total := total - Nat(S.p[..n]);
    while c != 0
      invariant 0 <= i <= |D.p| == old(|D.p|) && D.s == old(D.s) && 0 <= c <= 1
      invariant Nat(D.p) - c * BPow(i) == total
      decreases |D.p| - i
    {
      if i == |D.p| {
        NatBound(D.p);
        assert false;
      }
      ghost var before, c0 := D.p, c;
      var z := if D.p[i] < c then 1 else 0;
      D.p := D.p[i := SubW(D.p[i], c)];
      c := z;
      RippleStep(before, i, D.p[i], -c0, -c, total);
      i := i + 1;
    }
  }

  lemma BorrowStep(p: seq<Limb>, s: seq<Limb>, i: nat, v: Limb, c: int, c': int, total: int)
    requires i < |p| && i < |s| && v - c' * BASE == p[i] - c - s[i]
    requires Nat(p) - c * BPow(i) == total - Nat(s[..i])
    ensures Nat(p[i := v]) - c' * BPow(i + 1) == total - Nat(s[..i + 1])
  {
    hide Pow, Nat;
    NatUpdate(p, i, v);
    NatSnoc(s, i);
    BPowNext(i);
    var si: int := s[i];
    CarryArith(p[i], -si, v, -c, -c', BPow(i));
  }

  method SubAbs(X: Mpi, A: Mpi, B: Mpi) returns (ret: int)
    modifies X
    ensures ret == if old(Nat(A.p)) < old(Nat(B.p)) then ERR_NEGATIVE_VALUE else 0
    ensures ret == 0 ==> X.s == 1 && Nat(X.p) == old(Nat(A.p)) - old(Nat(B.p))
    ensures ret != 0 ==> X.s == old(X.s) && X.p == old(X.p)
    ensures X == A || old(A.p) != [] ==> |X.p| >= old(|X.p|)
  {
    hide Pow, Nat;
    var cmp := CmpAbs(A, B);
    if cmp < 0 { return ERR_NEGATIVE_VALUE; }
    var b := B;
    if X == B {
      b := new Mpi();
      Copy(b, B);
    }
    if X != A {
      Copy(X, A);
    }
    X.s := 1;
    var n := UsedLimbs(b.p);
    UsedSuffix(b.p, n);
    UsedFits(b.p, X.p);
    SubHlp(n, b, X);
    ret := 0;
  }

  lemma UsedFits(y: seq<Limb>, x: seq<Limb>)
    requires Nat(y) <= Nat(x)
    ensures Used(y) <= |x|
  {
    if Used(y) > Used(x) { UsedLess(x, y); }
  }

  method AddMpi(X: Mpi, A: Mpi, B: Mpi)
    modifies X
    ensures X.V() == old(A.V()) + old(B.V())
    ensures X == A || old(A.p) != [] ==> |X.p| >= old(|X.p|)
  {
    var s := A.s;
    if A.s != B.s {
      var cmp := CmpAbs(A, B);
      if cmp >= 0 {
        var _ := SubAbs(X, A, B);
        X.s := s;
      } else {
        var _ := SubAbs(X, B, A);
        X.s := 0 - s;
      }
    } else {
      AddAbs(X, A, B);
      X.s := s;
    }
  }

  method SubMpi(X: Mpi, A: Mpi, B: Mpi)
    modifies X
    ensures X.V() == old(A.V()) - old(B.V())
    ensures X == A || old(A.p) != [] ==> |X.p| >= old(|X.p|)
  {
    var s := A.s;
    if A.s == B.s {
      var cmp := CmpAbs(A, B);
      if cmp >= 0 {
        var _ := SubAbs(X, A, B);
        X.s := s;
      } else {
        var _ := SubAbs(X, B, A);
        X.s := 0 - s;
      }
    } else {
      AddAbs(X, A, B);
      X.s := s;
    }
  }

  method AddInt(X: Mpi, A: Mpi, b: Sint)
    modifies X
    ensures X.V() == old(A.V()) + b
    ensures X == A || old(A.p) != [] ==> |X.p| >= old(|X.p|)
  {
    var B := new Mpi.OfInt(b);
    AddMpi(X, A, B);
  }

  method SubInt(X: Mpi, A: Mpi, b: Sint)
    modifies X
    ensures X.V() == old(A.V()) - b
    ensures X == A || old(A.p) != [] ==> |X.p| >= old(|X.p|)
  {
    var B := new Mpi.OfInt(b);
    SubMpi(X, A, B);
  }
}
