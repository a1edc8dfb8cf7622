/** Reductions modulo a multi-precision integer or a machine integer. */
module MpiMod {
  import opened Arith
  import opened Limbs
  import opened MpiCore
  import opened MpiAddSub
  import opened MpiMul
  import opened MpiDiv

  method DivInt(Q: Mpi?, R: Mpi?, A: Mpi, b: Sint) returns (ret: int)
    requires Q != null ==> Q != A && Q != R
    modifies if Q == null then {} else {Q}, if R == null then {} else {R}
    ensures ret == if b == 0 then ERR_DIVISION_BY_ZERO else 0
    ensures ret == 0 && Q != null ==> Q.V() == TDiv(old(A.V()), b)
    ensures ret == 0 && R != null ==> R.V() == TMod(old(A.V()), b)
  {
    var B := new Mpi.OfInt(b);
    ret := DivMpi(Q, R, A, B);
  }

  method ModMpi(R: Mpi, A: Mpi, B: Mpi) returns (ret: int)
    requires R != B
    modifies R
    ensures ret == if B.V() < 0 then ERR_NEGATIVE_VALUE else if B.V() == 0 then ERR_DIVISION_BY_ZERO else 0
    ensures ret == 0 ==> R.V() == old(A.V()) % B.V()
    ensures ret == 0 && (R == A || old(A.p) != []) ==> |R.p| >= old(|R.p|)
    ensures ret != 0 ==> unchanged(R)
  {
    hide Pow, Nat, SameClass, TDiv, TMod;
    var cmp := CmpInt(B, 0);
    if cmp < 0 { return ERR_NEGATIVE_VALUE; }
    ghost var a, b, n := A.V(), B.V(), |R.p|;
    ghost var keep := R == A || A.p != [];
    ret := DivMpi(null, R, A, B);
    if ret != 0 { return; }
    SameClassInit(a, b);
    assert b > 0;
    cmp := CmpInt(R, 0);
    while cmp < 0
      invariant SameClass(a, R.V(), b) && cmp == Sgn(R.V()) && (keep ==> |R.p| >= n)
      decreases -R.V()
    {
      SameClassStep(a, R.V(), b);
      AddMpi(R, R, B);
      cmp := CmpInt(R, 0);
    }
    cmp := CmpMpi(R, B);
    while cmp >= 0
      invariant 0 <= R.V() && SameClass(a, R.V(), b) && cmp == Sgn(R.V() - b) && (keep ==> |R.p| >= n)
      decreases R.V()
    {
      SameClassStep(a, R.V(), b);
      SubMpi(R, R, B);
      cmp := CmpMpi(R, B);
    }
    SameClassDone(a, R.V(), b);
  }

  ghost predicate SameClass(a: int, r: int, b: int) {
    b > 0 && Cong(a, r, b)
  }

  lemma SameClassInit(a: int, b: int)
    requires b > 0
    ensures SameClass(a, TMod(a, b), b)
  {
    TruncatedDivision(a, b);
    CongIntro(a, TMod(a, b), b, TDiv(a, b));
  }

  lemma SameClassStep(a: int, r: int, b: int)
    requires SameClass(a, r, b)
    ensures SameClass(a, r + b, b) && SameClass(a, r - b, b)
  {
    CongIntro(r + b, r, b, 1);
    CongIntro(r - b, r, b, -1);
  }

  lemma SameClassDone(a: int, r: int, b: int)
    requires SameClass(a, r, b) && 0 <= r < b
    ensures r == a % b
  {
    ModSmall(r, b);
  }

  /** y := ((y << biH) | h) mod b, with the shift wrapping in a limb. */
  function HalfStep(y: nat, h: nat, b: nat): (r: nat)
    requires b > 0
    ensures r < b
  {
    CongMod(y * HALF % BASE + h, b);
    (y * HALF % BASE + h) % b
  }

  /** The value of the half-limb loop over the limbs, most significant first. */
  function ModLimbs(p: seq<Limb>, b: nat): nat
    requires b > 0
  {
    if p == [] then 0
    else HalfStep(HalfStep(ModLimbs(p[1..], b), p[0] / HALF, b), p[0] % HALF, b)
  }

  /** Divisors for which the half-limb loop never loses information. */
  predicate HalfLoopSafe(b: nat)
    requires b > 0
  {
    b <= HALF || BASE % b == 0
  }

  lemma HalfStepMod(y: nat, n: int, h: nat, b: nat)
    requires b > 0 && HalfLoopSafe(b) && y < b && Cong(y, n, b)
    ensures HalfStep(y, h, b) < b && Cong(HalfStep(y, h, b), n * HALF + h, b)
  {
    var w := y * HALF % BASE;
    assert Cong(w, y * HALF, b) by {
      if b <= HALF {
        ModSmall(y * HALF, BASE);
      } else {
        var k, c := y * HALF / BASE, BASE / b;
        assert BASE == b * c;
        assert y * HALF == w + k * BASE;
        assert y * HALF == w + (k * c) * b by { Assoc(k, b, c); }
        CongIntro(y * HALF, w, b, k * c);
      }
    }
    CongScale(y, n, HALF, b);
    CongAdd(w, n * HALF, h, h, b);
    CongMod(w + h, b);
  }

  lemma {:induction false} ModLimbsMod(p: seq<Limb>, b: nat)
    requires b > 0 && HalfLoopSafe(b)
    ensures ModLimbs(p, b) == Nat(p) % b
  {
    if p != [] {
      var y, n := ModLimbs(p[1..], b), Nat(p[1..]);
      var h, l := p[0] / HALF, p[0] % HALF;
      ModLimbsMod(p[1..], b);
      CongMod(n, b);
      HalfStepMod(y, n, h, b);
      HalfStepMod(HalfStep(y, h, b), n * HALF + h, l, b);
      assert (n * HALF + h) * HALF + l == p[0] + BASE * n;
      CongSmall(ModLimbs(p, b), Nat(p), b);
    } else {
      ModSmall(0, b);
    }
  }

  /** Every other divisor gets a wrong answer, already for the number BASE. */
  lemma HalfLoopUnsafe(b: nat)
    requires HALF < b < BASE / 2 && !HalfLoopSafe(b)
    ensures Nat([0, 1]) == BASE && ModLimbs([0, 1], b) == 0 && BASE % b != 0
  {
    var one: seq<Limb> := [1];
    assert [0, 1][1..] == one && one[1..] == [];
    assert Nat([0, 1]) == 0 + BASE * Nat(one) && Nat(one) == 1 + BASE * Nat([]);
    ModSmall(0, b);
    ModSmall(1, b);
    assert HalfStep(0, 0, b) == 0 && HalfStep(0, 1, b) == 1;
    assert ModLimbs(one, b) == HalfStep(HalfStep(ModLimbs([], b), 0, b), 1, b) == 1;
    ModSmall(HALF, b);
    assert HalfStep(1, 0, b) == HALF && HalfStep(HALF, 0, b) == 0;
  }

  /** Reads limb 0 unconditionally for b == 2. */
  method ModInt(A: Mpi, b: Sint) returns (ret: int, r: nat)
    requires b == 2 ==> A.p != []
    ensures ret == if b == 0 then ERR_DIVISION_BY_ZERO else if b < 0 then ERR_NEGATIVE_VALUE else 0
    ensures ret == 0 && HalfLoopSafe(b) ==> r == A.V() % b
    ensures b > 2 ==> r == if A.s == 1 || ModLimbs(A.p, b) == 0 then ModLimbs(A.p, b) else b - ModLimbs(A.p, b)
  {
    hide Nat;
    if b == 0 { return ERR_DIVISION_BY_ZERO, 0; }
    if b < 0 { return ERR_NEGATIVE_VALUE, 0; }
    if b == 1 {
      DivUnique(A.V(), 1, A.V(), 0);
      return 0, 0;
    }
    if b == 2 {
      NatParity(A.p);
      NegMod(Nat(A.p), 2);
      return 0, A.p[0] % 2;
    }
    var y := HalfLoop(A.p, b);
    if HalfLoopSafe(b) {
      ModLimbsMod(A.p, b);
      NegMod(Nat(A.p), b);
    }
    if A.s < 0 && y != 0 {
      y := b - y;
    }
    return 0, y;
  }

  lemma NatParity(p: seq<Limb>)
    requires p != []
    ensures Nat(p) % 2 == p[0] % 2
  {
    var n := Nat(p[1..]);
    assert Nat(p) == p[0] + 2 * (BASE / 2 * n);
  }

  method HalfLoop(p: seq<Limb>, b: nat) returns (y: nat)
    requires b > 0
    ensures y == ModLimbs(p, b) && y < b
  {
    var i := |p|;
    y := 0;
    assert p[i..] == [];
    while i > 0
      invariant 0 <= i <= |p| && y == ModLimbs(p[i..], b) && y < b
    {
      assert p[i - 1..][1..] == p[i..];
      var x := p[i - 1];
      y := HalfStep(y, x / HALF, b);
      y := HalfStep(y, x % HALF, b);
      i := i - 1;
    }
    assert p[0..] == p;
  }

  lemma NegMod(n: int, b: nat)
    requires b > 0
    ensures n % b == 0 ==> -n % b == 0
    ensures n % b != 0 ==> -n % b == b - n % b
  {
    var q, m := n / b, n % b;
    assert n == b * q + m;
    if m == 0 {
      DivUnique(-n, b, -q, 0);
    } else {
      assert -n == (-q - 1) * b + (b - m);
      DivUnique(-n, b, -q - 1, b - m);
    }
  }
}
