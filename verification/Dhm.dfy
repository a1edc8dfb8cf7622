/** Diffie-Hellman-Merkle with blinded exponentiation of the peer's value. */
module Dhm {
  import opened Arith
  import opened Limbs
  import opened MpiCore
  import opened MpiShift
  import opened MpiAddSub
  import opened MpiMul
  import opened MpiMod
  import opened ModExp
  import opened MpiInverse
  import opened MpiGcd
  import opened Divisibility
  import opened PrimeNumbers
  import opened ByteStrings
  import opened MpiBinary

  const ERR_DHM_BAD_INPUT_DATA := -0x3080
  const ERR_DHM_MAKE_PUBLIC_FAILED := -0x3280
  const ERR_DHM_CALC_SECRET_FAILED := -0x3300

  /** vf undoes blinding by vi under the exponent x: vi^x * vf == 1 mod p. */
  ghost predicate Blinding(vi: int, vf: int, x: int, p: int) {
    p > 0 && x >= 0 && Cong(Pow(vi, x) * vf, 1, p)
  }

  lemma BlindingStart(x: int, p: int)
    requires p > 1 && x >= 0
    ensures Blinding(1, 1, x, p)
  {
    PowOfOne(x);
  }

  lemma {:induction false} PowOfOne(e: nat)
    ensures Pow(1, e) == 1
  {
    if e > 0 { PowOfOne(e - 1); }
  }

  lemma {:induction false} PowMul(a: int, b: int, e: nat)
    ensures Pow(a * b, e) == Pow(a, e) * Pow(b, e)
  {
    if e > 0 {
      PowMul(a, b, e - 1);
      PowMulArith(a, b, Pow(a, e - 1), Pow(b, e - 1));
    }
  }

  lemma PowMulArith(a: int, b: int, x: int, y: int)
    ensures a * b * (x * y) == a * x * (b * y)
  {
  }

  lemma {:induction false} PowCong(a: int, b: int, e: nat, m: int)
    requires m > 0 && Cong(a, b, m)
    ensures Cong(Pow(a, e), Pow(b, e), m)
  {
    if e > 0 {
      PowCong(a, b, e - 1, m);
      CongMul(a, b, Pow(a, e - 1), Pow(b, e - 1), m);
    }
  }

  /** Squaring both values keeps the blinding relation. */
  lemma BlindingSquared(vi: int, vf: int, x: int, p: int)
    requires Blinding(vi, vf, x, p)
    ensures Blinding(vi * vi % p, vf * vf % p, x, p)
  {
    hide Pow, Cong;
    var w, v := vi * vi % p, vf * vf % p;
    CongMod(vi * vi, p);
    CongMod(vf * vf, p);
    PowCong(w, vi * vi, x, p);
    PowMul(vi, vi, x);
    CongMul(Pow(w, x), Pow(vi, x) * Pow(vi, x), v, vf * vf, p);
    CongMul(Pow(vi, x) * vf, 1, Pow(vi, x) * vf, 1, p);
    PowMulArith(Pow(vi, x), Pow(vi, x), vf, vf);
    CongTrans(Pow(w, x) * v, Pow(vi, x) * Pow(vi, x) * (vf * vf), 1, p);
  }

  /** A power of the inverse unblinds. */
  lemma BlindingFresh(vi: int, inv: int, x: int, p: int)
    requires p > 1 && 0 < vi < p && x >= 0 && inv * vi % p == 1
    ensures Blinding(vi, Pow(inv, x) % p, x, p)
  {
    hide Pow, Cong;
    ModSmall(1, p);
    assert Cong(inv * vi, 1, p) by { assert inv * vi % p == 1 % p; CongByMod(inv * vi, 1, p); }
    PowCong(inv * vi, 1, x, p);
    PowOfOne(x);
    PowMul(inv, vi, x);
    CongMod(Pow(inv, x), p);
    CongScale(Pow(inv, x) % p, Pow(inv, x), Pow(vi, x), p);
    Commute(Pow(vi, x), Pow(inv, x));
    CongTrans(Pow(vi, x) * (Pow(inv, x) % p), Pow(vi, x) * Pow(inv, x), 1, p);
  }

  lemma CongByMod(a: int, b: int, m: int)
    requires m > 0 && a % m == b % m
    ensures Cong(a, b, m)
  {
  }

  lemma Commute(a: int, b: int)
    ensures a * b == b * a
  {
  }

  /** The blinded computation yields the plain power. */
  lemma Unblind(gy: int, vi: int, vf: int, x: int, p: int)
    requires Blinding(vi, vf, x, p)
    ensures Pow(gy * vi % p, x) % p * vf % p == Pow(gy, x) % p
  {
    hide Pow, Cong;
    var g := gy * vi % p;
    CongMod(gy * vi, p);
    PowCong(g, gy * vi, x, p);
    PowMul(gy, vi, x);
    CongMod(Pow(g, x), p);
    CongTrans(Pow(g, x) % p, Pow(g, x), Pow(gy, x) * Pow(vi, x), p);
    CongScale(Pow(g, x) % p, Pow(gy, x) * Pow(vi, x), vf, p);
    Assoc(Pow(gy, x), Pow(vi, x), vf);
    CongScale(Pow(vi, x) * vf, 1, Pow(gy, x), p);
    CongTrans(Pow(g, x) % p * vf, Pow(gy, x) * (Pow(vi, x) * vf), Pow(gy, x), p);
    CongToMod(Pow(g, x) % p * vf, Pow(gy, x), p);
  }

  lemma CongToMod(a: int, b: int, m: int)
    requires m > 0 && Cong(a, b, m)
    ensures a % m == b % m
  {
  }

  /** dhm_check_range: 2 <= param <= P - 2. */
  method CheckRange(param: Mpi, P: Mpi) returns (ret: int)
    ensures ret == if 2 <= param.V() <= P.V() - 2 then 0 else ERR_DHM_BAD_INPUT_DATA
  {
    var L := new Mpi();
    var U := new Mpi();
    Lset(L, 2);
    SubInt(U, P, 2);
    var c1 := CmpMpi(param, L);
    var c2 := CmpMpi(param, U);
    ret := if c1 < 0 || c2 > 0 then ERR_DHM_BAD_INPUT_DATA else 0;
  }

  /** Shift X right until it is below P. */
  method ShiftBelow(X: Mpi, P: Mpi)
    requires X != P && P.V() > 0 && X.V() >= 0
    modifies X
    ensures X.V() == Halved(old(X.V()), P.V())
  {
    hide Nat, Pow;
    PowOneTwo();
    var cmp := CmpMpi(X, P);
    while cmp >= 0
      invariant X.V() >= 0 && cmp == Sgn(X.V() - P.V()) && Halved(X.V(), P.V()) == Halved(old(X.V()), P.V())
      decreases X.V()
    {
      ShiftR(X, 1);
      cmp := CmpMpi(X, P);
    }
  }

  lemma NotDivisor(p: int, a: int)
    requires 0 < a < p
    ensures !Divides(p, a)
  {
    if Divides(p, a) { DividesLe(p, a); }
  }

  /** exp_mod for an odd modulus, where it cannot fail. */
  method PowerInto(K: Mpi, A: Mpi, E: Mpi, N: Mpi, RP: Mpi)
    requires K != E && K != N && RP != K && RP != A && RP != E && RP != N
    requires A.p != [] && E.V() >= 0 && N.V() > 0 && N.V() % 2 == 1 && (RP.p != [] ==> IsRR(RP, N))
    modifies K, RP
    ensures IsRR(RP, N) && Cong(K.V(), old(Pow(A.V(), E.V())), N.V())
    ensures old(A.V()) > 0 ==> K.V() == old(Pow(A.V(), E.V())) % N.V()
  {
    hide Pow, Nat, Cong;
    ExpValueIsPower(A.s == -1, Nat(A.p), Nat(E.p), N.V());
    SignedNumber(A);
    SignedNumber(E);
    var _ := ExpMod(K, A, E, N, RP);
  }

  lemma SignedNumber(A: Mpi)
    ensures A.V() == if A.s == -1 then -(Nat(A.p) as int) else Nat(A.p)
  {}

  // ----- random numbers below the modulus -----

  /** Shifted right until it is below p. */
  function Halved(x: nat, p: nat): (r: nat)
    requires p > 0
    ensures r < p && (x < p ==> r == x)
  {
    if x < p then x else Halved(x / 2, p)
  }

  /** A number drawn, and whether it is in range. */
  datatype Sampled = Sampled(v: nat, pos: nat, ok: bool)

  const TRIES := 11

  /** Draw numbers of `size` octets until one, shifted below p, is in [2, high]; give up after
      `left` failures with one more drawn. */
  function Sample(draw: nat -> Byte, size: nat, p: nat, high: int, pos: nat, left: nat): (s: Sampled)
    requires p > 0
    ensures s.v < p && (s.ok ==> 2 <= s.v <= high)
    decreases left
  {
    var v := Halved(RandomNumber(draw, size, pos), p);
    if left == 0 then Sampled(v, pos + size, false)
    else if 2 <= v <= high then Sampled(v, pos + size, true)
    else Sample(draw, size, p, high, pos + size, left - 1)
  }

  lemma SampleStep(draw: nat -> Byte, size: nat, p: nat, high: int, pos: nat, left: nat)
    requires p > 0
    ensures var v := Halved(RandomNumber(draw, size, pos), p);
            Sample(draw, size, p, high, pos, left) ==
              if left == 0 then Sampled(v, pos + size, false)
              else if 2 <= v <= high then Sampled(v, pos + size, true)
              else Sample(draw, size, p, high, pos + size, left - 1)
  {
    hide RandomNumber, Halved;
  }

  /** A source of zeros never gives a number in range. */
  lemma {:induction false} ZerosFail(draw: nat -> Byte, size: nat, p: nat, high: int, pos: nat, left: nat)
    requires p > 0 && forall i: nat :: draw(i) == 0
    ensures Sample(draw, size, p, high, pos, left).v == 0 && !Sample(draw, size, p, high, pos, left).ok
    decreases left
  {
    AllZero(seq(size, i requires 0 <= i < size => draw(pos + i)));
    if left > 0 { ZerosFail(draw, size, p, high, pos + size, left - 1); }
  }

  /** The blinding values of the next call: whether they can be had, the new Vi, and the position in
      the random source. They start at 1 for a new exponent, are squared once they are not 1, and
      are drawn otherwise. */
  datatype Refreshed = Refreshed(ok: bool, vi: int, pos: nat)

  function Refresh(p: nat, len: nat, draw: nat -> Byte, x: int, px: int, vi: int, pos: nat): Refreshed
    requires p > 0
  {
    if px != x then Refreshed(true, 1, pos)
    else if vi != 1 then Refreshed(true, vi * vi % p, pos)
    else
      var f := Sample(draw, len, p, p - 1, pos, TRIES);
      Refreshed(f.ok && Gcd(f.v, p) == 1, f.v, f.pos)
  }

  class DhmContext {
    var len: nat
    const P: Mpi
    const G: Mpi
    const X: Mpi
    const GX: Mpi
    const GY: Mpi
    const K: Mpi
    const RP: Mpi
    const Vi: Mpi
    const Vf: Mpi
    const pX: Mpi

    /** The ten numbers of the record are separate objects. */
    ghost predicate Distinct() {
      P != G && P != X && P != GX && P != GY && P != K && P != RP && P != Vi && P != Vf && P != pX
      && G != X && G != GX && G != GY && G != K && G != RP && G != Vi && G != Vf && G != pX
      && X != GX && X != GY && X != K && X != RP && X != Vi && X != Vf && X != pX
      && GX != GY && GX != K && GX != RP && GX != Vi && GX != Vf && GX != pX
      && GY != K && GY != RP && GY != Vi && GY != Vf && GY != pX
      && K != RP && K != Vi && K != Vf && K != pX
      && RP != Vi && RP != Vf && RP != pX
      && Vi != Vf && Vi != pX
      && Vf != pX
    }

    /** What every call keeps, failing or not: an odd modulus of len octets, and the cached R^2 is
        its own. */
    ghost predicate Sound()
      reads this, P, RP
    {
      Distinct() && P.V() > 2 && P.V() % 2 == 1
      && len > 0 && Pow(256, len - 1) <= Nat(P.p) < Pow(256, len)
      && (RP.p != [] ==> IsRR(RP, P))
    }

    /** What every successful call keeps besides: once an exponent has been remembered,
        Vi^pX * Vf == 1 mod P. */
    ghost predicate Valid()
      reads this, P, RP, Vi, Vf, pX
    {
      Sound() && (pX.V() > 0 ==> Blinding(Vi.V(), Vf.V(), pX.V(), P.V()))
    }

    constructor ()
      ensures Distinct() && len == 0 && RP.p == [] && pX.p == []
      ensures fresh(P) && fresh(G) && fresh(X) && fresh(GX) && fresh(GY)
      ensures fresh(K) && fresh(RP) && fresh(Vi) && fresh(Vf) && fresh(pX)
    {
      len := 0;
      P := new Mpi();
      G := new Mpi();
      X := new Mpi();
      GX := new Mpi();
      GY := new Mpi();
      K := new Mpi();
      RP := new Mpi();
      Vi := new Mpi();
      Vf := new Mpi();
      pX := new Mpi();
    }

    /** Set the modulus and generator. What is cached for an earlier modulus stays: the invariants hold
        exactly if it fits the new one. */
    method SetGroup(p: Mpi, g: Mpi)
      requires Distinct() && p.V() > 2 && p.V() % 2 == 1
      requires p != P && p != G && p != RP && p != Vi && p != Vf && p != pX && g != P && g != G
      modifies this`len, P, G
      ensures P.V() == p.V() && G.V() == g.V()
      ensures Sound() <==> RP.p == [] || RP.V() == BPow(2 * |P.p|) % P.V()
      ensures Valid() <==> Sound() && (pX.V() > 0 ==> Blinding(Vi.V(), Vf.V(), pX.V(), P.V()))
      ensures RP.p == [] && pX.p == [] ==> Valid() && pX.V() == 0
    {
      hide Pow, Nat, Blinding;
      Copy(P, p);
      Copy(G, g);
      len := Size(P);
      PositiveSize(P, len);
      NatEmpty(pX.p);
      assert pX.p != [] || pX.p[..0] == pX.p;
    }

    /** The values that fresh blinding draws. */
    function Fresh(draw: nat -> Byte, pos: nat): Sampled
      reads this, P
      requires P.V() > 0
    {
      Sample(draw, len, P.V(), P.V() - 1, pos, TRIES)
    }

    function Next(draw: nat -> Byte, pos: nat): Refreshed
      reads this, P, X, pX, Vi
      requires P.V() > 0
    {
      Refresh(P.V(), len, draw, X.V(), pX.V(), Vi.V(), pos)
    }

    /** Refresh the blinding pair for the current X. A failure leaves the number drawn last in Vi
        with the Vf that belonged to 1. */
    method UpdateBlinding(draw: nat -> Byte, pos0: nat) returns (ret: int, pos: nat)
      requires Sound() && X.V() > 0
      modifies pX, Vi, Vf, RP
      ensures Sound() && pX.V() == X.V()
      ensures ret == if old(Next(draw, pos0).ok) then 0 else ERR_NOT_ACCEPTABLE
      ensures Vi.V() == old(Next(draw, pos0).vi) && pos == old(Next(draw, pos0).pos)
      ensures ret != 0 ==> Vf.V() == old(Vf.V())
      ensures ret == 0 && old(pX.V() != X.V()) ==> Vf.V() == 1
      ensures ret == 0 && old(pX.V() == X.V() && Vi.V() != 1) ==> Vf.V() == old(Vf.V() * Vf.V() % P.V())
      ensures ret == 0 && (old(Valid()) || old(pX.V() != X.V()) || old(Vi.V() == 1)) ==> Valid()
    {
      hide Pow, Nat, Blinding, Gcd, Sample;
      pos := pos0;
      var cmp := CmpMpi(X, pX);
      if cmp != 0 {
        Copy(pX, X);
        Lset(Vi, 1);
        Lset(Vf, 1);
        BlindingStart(X.V(), P.V());
        return 0, pos;
      }
      cmp := CmpInt(Vi, 1);
      if cmp != 0 {
        SquareBlinding();
        return 0, pos;
      }
      ret, pos := FreshBlinding(draw, pos);
    }

    method SquareBlinding()
      requires Sound() && pX.V() > 0
      modifies Vi, Vf
      ensures Sound() && Vi.V() == old(Vi.V() * Vi.V() % P.V()) && Vf.V() == old(Vf.V() * Vf.V() % P.V())
      ensures old(Valid()) ==> Valid()
    {
      hide Pow, Nat, Blinding;
      if Blinding(Vi.V(), Vf.V(), pX.V(), P.V()) {
        BlindingSquared(Vi.V(), Vf.V(), pX.V(), P.V());
      }
      MulMpi(Vi, Vi, Vi);
      var _ := ModMpi(Vi, Vi, P);
      MulMpi(Vf, Vf, Vf);
      var _ := ModMpi(Vf, Vf, P);
    }

    /** Vi = random(2, P - 1), Vf = Vi^-X mod P. */
    method FreshBlinding(draw: nat -> Byte, pos0: nat) returns (ret: int, pos: nat)
      requires Sound() && X.V() > 0 && pX.V() == X.V()
      modifies Vi, Vf, RP
      ensures Sound()
      ensures ret == if Fresh(draw, pos0).ok && Gcd(Fresh(draw, pos0).v, P.V()) == 1 then 0 else ERR_NOT_ACCEPTABLE
      ensures Vi.V() == Fresh(draw, pos0).v && pos == Fresh(draw, pos0).pos
      ensures ret != 0 ==> Vf.V() == old(Vf.V())
      ensures ret == 0 ==> Valid()
    {
      hide Pow, Nat, Blinding, Gcd, Sample;
      pos, ret := SampleVi(draw, pos0);
      if ret != 0 { return; }
      ret := InvMod(Vf, Vi, P);
      if ret != 0 { return; }
      PositiveInverse(Vf.V(), Vi.V(), P.V());
      NonEmpty(Vf);
      ghost var inv := Vf.V();
      PowerInto(Vf, Vf, X, P, RP);
      BlindingFresh(Vi.V(), inv, X.V(), P.V());
    }

    method SampleVi(draw: nat -> Byte, pos0: nat) returns (pos: nat, ret: int)
      requires Sound()
      modifies Vi
      ensures Sound() && Vi.V() == Fresh(draw, pos0).v && pos == Fresh(draw, pos0).pos
      ensures ret == if Fresh(draw, pos0).ok then 0 else ERR_NOT_ACCEPTABLE
    {
      hide Pow, Nat, Sample, RandomNumber, Halved;
      var size := Size(P);
      SizeUnique(Nat(P.p), size, len);
      ghost var p := P.V();
      var count := 0;
      pos := pos0;
      while true
        invariant count <= 11 && Sample(draw, len, p, p - 1, pos0, TRIES) == Sample(draw, len, p, p - 1, pos, TRIES - count)
        decreases 11 - count
      {
        SampleStep(draw, len, p, p - 1, pos, TRIES - count);
        DrawBelow(Vi, size, draw, pos);
        pos := pos + size;
        if count > 10 { return pos, ERR_NOT_ACCEPTABLE; }
        count := count + 1;
        var cmp := CmpInt(Vi, 1);
        if cmp > 0 { return pos, 0; }
      }
    }

    /** A random number shifted below P. */
    method DrawBelow(R: Mpi, size: nat, draw: nat -> Byte, pos: nat)
      requires R != P && P.V() > 0
      modifies R
      ensures R.V() == Halved(RandomNumber(draw, size, pos), P.V()) && 0 <= R.V() < P.V()
    {
      hide Nat, Pow, Halved, BigEndian;
      var _ := FillRandom(R, size, draw, pos);
      ShiftBelow(R, P);
    }

    /** Derive the secret; without a random source the peer's value is used unblinded. Whenever the
        blinding relation holds afterwards, the secret is the plain power. */
    method CalcSecret(output: array<Byte>, blind: bool, draw: nat -> Byte, pos0: nat)
        returns (ret: int, olen: nat, pos: nat)
      requires Sound() && X.V() > 0
      modifies K, RP, Vi, Vf, pX, output
      ensures Sound() && (ret == 0 || !blind ==> old(Valid()) ==> Valid())
      ensures ret ==
        if output.Length < len || !(2 <= GY.V() <= P.V() - 2) then ERR_DHM_BAD_INPUT_DATA
        else if blind && !old(Next(draw, pos0).ok) then ERR_DHM_CALC_SECRET_FAILED + ERR_NOT_ACCEPTABLE else 0
      ensures ret == ERR_DHM_BAD_INPUT_DATA ==> old(Valid()) ==> Valid()
      ensures ret != 0 ==> output[..] == old(output[..])
      ensures ret == 0 ==> IsExport(K.V(), output, olen)
      ensures ret == 0 && (blind ==> Valid()) ==> K.V() == Pow(GY.V(), X.V()) % P.V()
      ensures ret == 0 && blind ==> K.V() == Pow(GY.V() * Vi.V(), X.V()) * Vf.V() % P.V()
      ensures !blind || ret == ERR_DHM_BAD_INPUT_DATA ==>
        pX.V() == old(pX.V()) && Vi.V() == old(Vi.V()) && Vf.V() == old(Vf.V()) && pos == pos0
      ensures blind && ret != ERR_DHM_BAD_INPUT_DATA ==>
        pX.V() == X.V() && Vi.V() == old(Next(draw, pos0).vi) && pos == old(Next(draw, pos0).pos)
        && (ret == 0 && old(pX.V() != X.V() || Vi.V() == 1) ==> Valid())
        && (ret == 0 && old(pX.V() == X.V() && Vi.V() != 1) ==> Vf.V() == old(Vf.V() * Vf.V() % P.V()))
        && (ret != 0 ==> Vf.V() == old(Vf.V()))
    {
      hide Pow, Nat, Blinding, BigEndian, ToBytes, IsExport, Gcd, Sample;
      pos, olen := pos0, 0;
      if output.Length < len { return ERR_DHM_BAD_INPUT_DATA, 0, pos; }
      ret := CheckRange(GY, P);
      if ret != 0 { return; }
      ret, pos := ComputeK(blind, draw, pos);
      if ret != 0 { return ERR_DHM_CALC_SECRET_FAILED + ret, 0, pos; }
      olen := ExportSecret(output);
    }

    /** Blind the peer's value, raise it to X, unblind the result. */
    method ComputeK(blind: bool, draw: nat -> Byte, pos0: nat) returns (ret: int, pos: nat)
      requires Sound() && X.V() > 0 && 2 <= GY.V() <= P.V() - 2
      modifies K, RP, Vi, Vf, pX
      ensures Sound() && (ret == 0 || !blind ==> old(Valid()) ==> Valid())
      ensures ret == if blind && !old(Next(draw, pos0).ok) then ERR_NOT_ACCEPTABLE else 0
      ensures ret == 0 ==> 0 <= K.V() < P.V()
      ensures ret == 0 && (blind ==> Valid()) ==> K.V() == Pow(GY.V(), X.V()) % P.V()
      ensures ret == 0 && blind ==> K.V() == Pow(GY.V() * Vi.V(), X.V()) * Vf.V() % P.V()
      ensures !blind ==> pX.V() == old(pX.V()) && Vi.V() == old(Vi.V()) && Vf.V() == old(Vf.V()) && pos == pos0
      ensures blind ==>
        pX.V() == X.V() && Vi.V() == old(Next(draw, pos0).vi) && pos == old(Next(draw, pos0).pos)
        && (ret == 0 && old(pX.V() != X.V() || Vi.V() == 1) ==> Valid())
        && (ret == 0 && old(pX.V() == X.V() && Vi.V() != 1) ==> Vf.V() == old(Vf.V() * Vf.V() % P.V()))
        && (ret != 0 ==> Vf.V() == old(Vf.V()))
    {
      hide Pow, Nat, Blinding, Gcd, Sample;
      pos := pos0;
      if blind {
        ret, pos := UpdateBlinding(draw, pos);
        if ret != 0 { return; }
        BlindedPower();
      } else {
        var GYb := new Mpi();
        Copy(GYb, GY);
        NonEmpty(GYb);
        PowerInto(K, GYb, X, P, RP);
        CongMod(Pow(GY.V(), X.V()), P.V());
      }
      ret := 0;
    }

    method BlindedPower()
      requires Sound() && X.V() > 0 && 2 <= GY.V() <= P.V() - 2
      modifies K, RP
      ensures Sound() && 0 <= K.V() < P.V() && K.V() == Pow(GY.V() * Vi.V(), X.V()) * Vf.V() % P.V()
      ensures Blinding(Vi.V(), Vf.V(), X.V(), P.V()) ==> K.V() == Pow(GY.V(), X.V()) % P.V()
    {
      hide Pow, Nat, Blinding, Cong;
      var GYb := new Mpi();
      MulMpi(GYb, GY, Vi);
      var _ := ModMpi(GYb, GYb, P);
      PowerInto(K, GYb, X, P, RP);
      BlindedResidue(GY.V() * Vi.V(), X.V(), K.V(), Vf.V(), P.V());
      MulMpi(K, K, Vf);
      var _ := ModMpi(K, K, P);
      CongMod(K.V(), P.V());
      if Blinding(Vi.V(), Vf.V(), X.V(), P.V()) {
        Unblind(GY.V(), Vi.V(), Vf.V(), X.V(), P.V());
      }
    }

    /** *olen = size of K; write_binary. */
    method ExportSecret(output: array<Byte>) returns (olen: nat)
      requires 0 <= K.V() < P.V() && Nat(P.p) < Pow(256, len) && len <= output.Length && P.V() > 0
      modifies output
      ensures IsExport(K.V(), output, olen)
    {
      hide Pow, Nat, BigEndian, ToBytes;
      olen := Size(K);
      if olen > len { PowMono256(len, olen - 1); }
      var _ := WriteBinary(K, output, 0, olen);
      assert output[0..olen] == output[..olen];
    }

    /** Import the peer's public value. */
    method ReadPublic(input: seq<Byte>) returns (ret: int)
      requires Sound()
      modifies GY
      ensures Sound() && (old(Valid()) ==> Valid())
      ensures ret == if 1 <= |input| <= len then 0 else ERR_DHM_BAD_INPUT_DATA
      ensures GY.V() == if ret == 0 then BigEndian(input) else old(GY.V())
    {
      hide Pow, Nat, Blinding, IsRR;
      if |input| < 1 || |input| > len { return ERR_DHM_BAD_INPUT_DATA; }
      ReadBinary(GY, input);
      ret := 0;
    }

    /** The private key that is drawn. */
    function Private(xSize: nat, draw: nat -> Byte, pos: nat): Sampled
      reads P
      requires P.V() > 0
    {
      Sample(draw, xSize, P.V(), P.V() - 2, pos, TRIES)
    }

    /** Draw X in [2, P - 2] and export G^X mod P. */
    method MakePublic(xSize: nat, output: array<Byte>, olen: nat, draw: nat -> Byte, pos0: nat)
        returns (ret: int, pos: nat)
      requires Sound() && G.p != [] && olen <= output.Length
      modifies X, GX, RP, output
      ensures Sound() && (old(Valid()) ==> Valid())
      ensures !(1 <= olen <= len) ==> ret == ERR_DHM_BAD_INPUT_DATA && X.V() == old(X.V()) && pos == pos0
      ensures 1 <= olen <= len ==>
        var x := Private(xSize, draw, pos0);
        var gx := Pow(G.V(), x.v) % P.V();
        X.V() == x.v && pos == x.pos
        && ret == (if !x.ok then ERR_DHM_MAKE_PUBLIC_FAILED
                   else if !(2 <= gx <= P.V() - 2) then ERR_DHM_BAD_INPUT_DATA
                   else if gx >= Pow(256, olen) then ERR_DHM_MAKE_PUBLIC_FAILED + ERR_BUFFER_TOO_SMALL else 0)
        && (ret == 0 ==> GX.V() == gx && output[..olen] == ToBytes(gx, olen) && BigEndian(output[..olen]) == gx)
    {
      hide Pow, Nat, Blinding, BigEndian, ToBytes, Sample;
      pos := pos0;
      if olen < 1 || olen > len { return ERR_DHM_BAD_INPUT_DATA, pos; }
      ret, pos := SamplePrivate(xSize, draw, pos);
      if ret != 0 { return; }
      SignedNumber(G);
      SignedNumber(X);
      CanonicalPower(G.s == -1, Nat(G.p), Nat(X.p), P.V());
      var _ := ExpMod(GX, G, X, P, RP);
      ret := CheckRange(GX, P);
      if ret != 0 { return; }
      ret := WriteBinary(GX, output, 0, olen);
      if ret != 0 { return ERR_DHM_MAKE_PUBLIC_FAILED + ret, pos; }
      NumberRoundTrip(Nat(GX.p), olen);
      assert output[0..olen] == output[..olen];
    }

    method SamplePrivate(xSize: nat, draw: nat -> Byte, pos0: nat) returns (ret: int, pos: nat)
      requires Sound()
      modifies X
      ensures Sound() && X.V() == Private(xSize, draw, pos0).v && pos == Private(xSize, draw, pos0).pos
      ensures ret == if Private(xSize, draw, pos0).ok then 0 else ERR_DHM_MAKE_PUBLIC_FAILED
    {
      hide Pow, Nat, Sample, RandomNumber, Halved;
      ghost var p := P.V();
      var count := 0;
      pos := pos0;
      while true
        invariant count <= 11 && Sample(draw, xSize, p, p - 2, pos0, TRIES) == Sample(draw, xSize, p, p - 2, pos, TRIES - count)
        decreases 11 - count
      {
        SampleStep(draw, xSize, p, p - 2, pos, TRIES - count);
        DrawBelow(X, xSize, draw, pos);
        pos := pos + xSize;
        if count > 10 { return ERR_DHM_MAKE_PUBLIC_FAILED, pos; }
        count := count + 1;
        var r := CheckRange(X, P);
        if r == 0 { return 0, pos; }
      }
    }
  }

  /** The octets of a secret, as few as it takes. */
  ghost predicate IsExport(k: int, output: array<Byte>, olen: nat)
    reads output
  {
    0 <= k < Pow(256, olen) && (olen > 0 ==> Pow(256, olen - 1) <= k)
    && olen <= output.Length && output[..olen] == ToBytes(k, olen)
  }

  lemma PositiveSize(P: Mpi, n: nat)
    requires P.V() > 0 && Nat(P.p) < Pow(256, n)
    ensures n > 0 && Nat(P.p) == P.V()
  {
    PowZero(256);
  }

  /** The number of octets is determined. */
  lemma SizeUnique(x: nat, m: nat, n: nat)
    requires x < Pow(256, m) && (m > 0 ==> Pow(256, m - 1) <= x)
    requires x < Pow(256, n) && (n > 0 ==> Pow(256, n - 1) <= x)
    ensures m == n
  {
    if m < n { PowMono256(m, n - 1); }
    if n < m { PowMono256(n, m - 1); }
  }

  lemma PositiveInverse(inv: int, v: int, p: int)
    requires p > 1 && 0 <= inv && inv * v % p == 1
    ensures inv > 0
  {
    if inv == 0 { ModSmall(0, p); }
  }

  /** The residue of the blinded power, multiplied. */
  lemma BlindedResidue(b: int, x: nat, k: int, vf: int, p: int)
    requires p > 0 && Cong(k, Pow(b % p, x), p)
    ensures k * vf % p == Pow(b, x) * vf % p == Pow(b % p, x) % p * vf % p
  {
    hide Pow, Cong;
    CongMod(b, p);
    PowCong(b % p, b, x, p);
    CongTrans(k, Pow(b % p, x), Pow(b, x), p);
    CongScale(k, Pow(b, x), vf, p);
    CongToMod(k * vf, Pow(b, x) * vf, p);
    CongMod(Pow(b % p, x), p);
    CongTrans(Pow(b % p, x) % p, Pow(b % p, x), Pow(b, x), p);
    CongScale(Pow(b % p, x) % p, Pow(b, x), vf, p);
    CongToMod(Pow(b % p, x) % p * vf, Pow(b, x) * vf, p);
  }

  /** In range, the value of exp_mod is the residue. */
  lemma CanonicalPower(neg: bool, a: nat, e: nat, p: int)
    requires p > 2
    ensures var v, g := ExpValue(neg, a, e, p), Pow(if neg then -(a as int) else a, e) % p;
            (2 <= v <= p - 2 <==> 2 <= g <= p - 2) && (2 <= v <= p - 2 ==> v == g)
  {
    hide Pow, Cong, ExpValue;
    var A: int := if neg then -(a as int) else a;
    ExpValueIsPower(neg, a, e, p);
    ValueRange(neg, a, e, p);
    CongToMod(ExpValue(neg, a, e, p), Pow(A, e), p);
    ReducedOrWhole(ExpValue(neg, a, e, p), p);
  }

  lemma ReducedOrWhole(v: int, p: int)
    requires p > 0 && 0 <= v <= p
    ensures v % p == if v == p then 0 else v
  {
    if v == p { DivUnique(v, p, 1, 0); } else { ModSmall(v, p); }
  }

  lemma ValueRange(neg: bool, a: nat, e: nat, p: int)
    requires p > 0
    ensures 0 <= ExpValue(neg, a, e, p) <= p
  {
    hide Pow;
    CongMod(Pow(a, e), p);
  }

  /** The R^2 of one modulus is not that of another: 1 for 5, and 4 for 7. */
  lemma StaleCache()
    ensures BPow(2) % 5 == 1 && BPow(2) % 7 == 4
  {
    assert BPow(2) == BASE * (BASE * BPow(0)) && BPow(0) == 1;
  }

  // ----- runs of calls -----

  /** Calls a user of a context makes, in any order. */
  datatype Call = Public(xSize: nat, olen: nat) | Peer(bytes: seq<Byte>) | Secret(blind: bool)

  /** What comes of a call for a secret: the secret, with the peer's value and the private key it
      was computed from; a refusal of the peer's value; no private key to compute it with; or a
      failure to draw blinding values. Other calls report their code. */
  datatype Outcome = Agreed(gy: int, x: int, secret: int) | Refused(gy: int) | NoKey | Stuck | Returned(code: int)

  /** What outcomes depend on: the private key, the peer's value, the exponent that blinding is set
      up for, Vi, whether Vi has lost its Vf, and the position in the random source. */
  datatype State = State(key: int, peer: int, px: int, vi: int, stale: bool, pos: nat)

  datatype Group = Group(p: nat, g: int, len: nat)

  /** make_public. */
  function PublicStep(u: Group, draw: nat -> Byte, st: State, xSize: nat, olen: nat): (Outcome, State)
    requires u.p > 0
  {
    if !(1 <= olen <= u.len) then (Returned(ERR_DHM_BAD_INPUT_DATA), st)
    else
      var x := Sample(draw, xSize, u.p, u.p - 2, st.pos, TRIES);
      var gx := Pow(u.g, x.v) % u.p;
      var code := if !x.ok then ERR_DHM_MAKE_PUBLIC_FAILED
                  else if !(2 <= gx <= u.p - 2) then ERR_DHM_BAD_INPUT_DATA
                  else if gx >= Pow(256, olen) then ERR_DHM_MAKE_PUBLIC_FAILED + ERR_BUFFER_TOO_SMALL else 0;
      (Returned(code), st.(key := x.v, pos := x.pos))
  }

  /** read_public. */
  function PeerStep(u: Group, st: State, bytes: seq<Byte>): (Outcome, State) {
    if 1 <= |bytes| <= u.len then (Returned(0), st.(peer := BigEndian(bytes))) else (Returned(ERR_DHM_BAD_INPUT_DATA), st)
  }

  /** calc_secret. A failure to draw leaves Vi without its Vf, until another exponent is set up or the
      drawing succeeds. */
  function SecretStep(u: Group, draw: nat -> Byte, st: State, blind: bool): (Outcome, State)
    requires u.p > 0
  {
    if st.key <= 0 then (NoKey, st)
    else if !(2 <= st.peer <= u.p - 2) then (Refused(st.peer), st)
    else if !blind then (Agreed(st.peer, st.key, Pow(st.peer, st.key) % u.p), st)
    else
      var b := Refresh(u.p, u.len, draw, st.key, st.px, st.vi, st.pos);
      var squared := st.px == st.key && st.vi != 1;
      var next := st.(px := st.key, vi := b.vi, pos := b.pos, stale := !b.ok || (squared && st.stale));
      if !b.ok then (Stuck, next)
      else (Agreed(st.peer, st.key, Pow(if next.stale then st.peer * b.vi else st.peer, st.key) % u.p), next)
  }

  function Step(u: Group, draw: nat -> Byte, st: State, call: Call): (Outcome, State)
    requires u.p > 0
  {
    match call
    case Public(xSize, olen) => PublicStep(u, draw, st, xSize, olen)
    case Peer(bytes) => PeerStep(u, st, bytes)
    case Secret(blind) => SecretStep(u, draw, st, blind)
  }

  /** The outcomes of a run. */
  function Outcomes(u: Group, draw: nat -> Byte, st: State, calls: seq<Call>): (out: seq<Outcome>)
    requires u.p > 0
    ensures |out| == |calls|
    decreases |calls|
  {
    if calls == [] then []
    else
      var (o, next) := Step(u, draw, st, calls[0]);
      [o] + Outcomes(u, draw, next, calls[1..])
  }

  /** The state of a context. */
  ghost predicate Tracks(ctx: DhmContext, u: Group, st: State)
    reads ctx, ctx.P, ctx.G, ctx.X, ctx.GY, ctx.RP, ctx.Vi, ctx.Vf, ctx.pX
  {
    ctx.Sound() && ctx.G.p != [] && u == Group(ctx.P.V(), ctx.G.V(), ctx.len)
    && ctx.X.V() == st.key && ctx.GY.V() == st.peer && ctx.pX.V() == st.px && ctx.Vi.V() == st.vi
    && (st.px > 0 ==> if st.stale then Cong(ctx.Vf.V(), 1, ctx.P.V()) else Blinding(st.vi, ctx.Vf.V(), st.px, ctx.P.V()))
  }

  /** Any run of calls, failing ones included, has exactly those outcomes. */
  method Session(ctx: DhmContext, calls: seq<Call>, draw: nat -> Byte) returns (out: seq<Outcome>)
    requires ctx.Valid() && ctx.G.p != []
    modifies ctx.X, ctx.GX, ctx.GY, ctx.K, ctx.RP, ctx.Vi, ctx.Vf, ctx.pX
    ensures ctx.Sound() && old(ctx.P.V()) > 0
    ensures out == Outcomes(old(Group(ctx.P.V(), ctx.G.V(), ctx.len)), draw,
                            old(State(ctx.X.V(), ctx.GY.V(), ctx.pX.V(), ctx.Vi.V(), false, 0)), calls)
  {
    hide Pow, Nat, Blinding, Cong, Step, Mpi.V;
    ghost var u := Group(ctx.P.V(), ctx.G.V(), ctx.len);
    ghost var st := State(ctx.X.V(), ctx.GY.V(), ctx.pX.V(), ctx.Vi.V(), false, 0);
    ghost var all := Outcomes(u, draw, st, calls);
    out := [];
    var pos: nat, i := 0, 0;
    assert calls[0..] == calls;
    while i < |calls|
      invariant i <= |calls| && Tracks(ctx, u, st) && st.pos == pos && u.p > 0
      invariant out + Outcomes(u, draw, st, calls[i..]) == all
    {
      var o;
      assert calls[i..][1..] == calls[i + 1..];
      o, pos, st := OneCall(ctx, calls[i], draw, pos, u, st);
      out := out + [o];
      i := i + 1;
    }
  }

  method OneCall(ctx: DhmContext, call: Call, draw: nat -> Byte, pos0: nat, ghost u: Group, ghost st: State)
    returns (o: Outcome, pos: nat, ghost next: State)
    requires Tracks(ctx, u, st) && st.pos == pos0
    modifies ctx.X, ctx.GX, ctx.GY, ctx.K, ctx.RP, ctx.Vi, ctx.Vf, ctx.pX
    ensures u.p > 0 && Tracks(ctx, u, next) && next.pos == pos
    ensures (o, next) == Step(u, draw, st, call)
  {
    hide Pow, Nat, Blinding, Cong, BigEndian, ToBytes, Sample, PublicStep, SecretStep, Mpi.V;
    match call {
      case Public(xSize, olen) =>
        o, pos, next := PublicCall(ctx, xSize, olen, draw, pos0, u, st);
      case Peer(bytes) =>
        var ret := ctx.ReadPublic(bytes);
        o, pos := Returned(ret), pos0;
        next := PeerStep(u, st, bytes).1;
      case Secret(blind) =>
        o, pos, next := SecretCall(ctx, blind, draw, pos0, u, st);
    }
  }

  method PublicCall(ctx: DhmContext, xSize: nat, olen: nat, draw: nat -> Byte, pos0: nat, ghost u: Group, ghost st: State)
    returns (o: Outcome, pos: nat, ghost next: State)
    requires Tracks(ctx, u, st) && st.pos == pos0
    modifies ctx.X, ctx.GX, ctx.RP
    ensures u.p > 0 && Tracks(ctx, u, next) && next.pos == pos
    ensures (o, next) == PublicStep(u, draw, st, xSize, olen)
  {
    hide Pow, Nat, Blinding, Cong, BigEndian, ToBytes, Sample;
    var buf := new Byte[olen](_ => 0);
    var ret;
    ret, pos := ctx.MakePublic(xSize, buf, olen, draw, pos0);
    o := Returned(ret);
    next := PublicStep(u, draw, st, xSize, olen).1;
  }

  lemma RefreshFails(p: nat, len: nat, draw: nat -> Byte, x: int, px: int, vi: int, pos: nat)
    requires p > 0
    ensures !Refresh(p, len, draw, x, px, vi, pos).ok ==> px == x && vi == 1
  {}

  method SecretCall(ctx: DhmContext, blind: bool, draw: nat -> Byte, pos0: nat, ghost u: Group, ghost st: State)
    returns (o: Outcome, pos: nat, ghost next: State)
    requires Tracks(ctx, u, st) && st.pos == pos0
    modifies ctx.K, ctx.RP, ctx.Vi, ctx.Vf, ctx.pX
    ensures u.p > 0 && Tracks(ctx, u, next) && next.pos == pos
    ensures (o, next) == SecretStep(u, draw, st, blind)
  {
    hide Pow, Nat, Blinding, Cong, Sample, Gcd, IsExport, Refresh;
    next := SecretStep(u, draw, st, blind).1;
    var key := CmpInt(ctx.X, 0);
    if key <= 0 { return NoKey, pos0, st; }
    var buf := new Byte[ctx.len](_ => 0);
    ghost var vf, p := ctx.Vf.V(), ctx.P.V();
    var ret, olen;
    ret, olen, pos := ctx.CalcSecret(buf, blind, draw, pos0);
    o := if ret == 0 then Agreed(ctx.GY.V(), ctx.X.V(), ctx.K.V())
         else if ret == ERR_DHM_BAD_INPUT_DATA then Refused(ctx.GY.V()) else Stuck;
    if blind && ret != ERR_DHM_BAD_INPUT_DATA {
      RefreshFails(u.p, u.len, draw, st.key, st.px, st.vi, st.pos);
      if st.px > 0 { LostFactor(st, vf, p); }
      StaleProduct(ctx.GY.V() * ctx.Vi.V(), ctx.X.V(), ctx.Vf.V(), p);
    }
  }

  /** What remains of the relation without the right Vi: Vf is 1 mod P. */
  lemma LostFactor(st: State, vf: int, p: int)
    requires p > 1 && st.px > 0 && if st.stale then Cong(vf, 1, p) else Blinding(st.vi, vf, st.px, p)
    ensures st.stale ==> Cong(vf * vf % p, 1, p)
    ensures st.vi == 1 ==> Cong(vf, 1, p)
  {
    hide Cong, Pow;
    if st.stale {
      CongMul(vf, 1, vf, 1, p);
      CongMod(vf * vf, p);
      CongTrans(vf * vf % p, vf * vf, 1, p);
    } else if st.vi == 1 {
      PowOfOne(st.px);
    }
  }

  lemma StaleProduct(b: int, x: nat, vf: int, p: int)
    requires p > 0
    ensures Cong(vf, 1, p) ==> Pow(b, x) * vf % p == Pow(b, x) % p
  {
    hide Cong, Pow;
    if Cong(vf, 1, p) {
      CongScale(vf, 1, Pow(b, x), p);
      CongToMod(Pow(b, x) * vf, Pow(b, x), p);
    }
  }

  /** The state after the first i calls. */
  function StateAt(u: Group, draw: nat -> Byte, st: State, calls: seq<Call>, i: nat): State
    requires u.p > 0 && i <= |calls|
  {
    if i == 0 then st else Step(u, draw, StateAt(u, draw, st, calls, i - 1), calls[i - 1]).1
  }

  lemma {:induction false} OutcomeAt(u: Group, draw: nat -> Byte, st: State, calls: seq<Call>, i: nat)
    requires u.p > 0 && i < |calls|
    ensures Outcomes(u, draw, st, calls)[i] == Step(u, draw, StateAt(u, draw, st, calls, i), calls[i]).0
    decreases i
  {
    hide Step;
    if i > 0 {
      OutcomeAt(u, draw, Step(u, draw, st, calls[0]).1, calls[1..], i - 1);
      StateShift(u, draw, st, calls, i - 1);
    }
  }

  lemma {:induction false} StateShift(u: Group, draw: nat -> Byte, st: State, calls: seq<Call>, i: nat)
    requires u.p > 0 && i < |calls|
    ensures StateAt(u, draw, st, calls, i + 1) == StateAt(u, draw, Step(u, draw, st, calls[0]).1, calls[1..], i)
  {
    hide Step;
    if i > 0 { StateShift(u, draw, st, calls, i - 1); }
  }

  /** In a run in which the drawing never fails every secret is the plain power of the last value
      read, under the key drawn last; a call for one is refused exactly if that value is out of
      range, and has no key exactly if none has been drawn. */
  lemma RunRight(u: Group, draw: nat -> Byte, st: State, calls: seq<Call>, i: nat)
    requires u.p > 0 && !st.stale && i < |calls| && calls[i].Secret?
    requires forall k :: 0 <= k < i ==> Outcomes(u, draw, st, calls)[k] != Stuck
    ensures var o, now := Outcomes(u, draw, st, calls)[i], StateAt(u, draw, st, calls, i);
            now.peer == PeerValue(calls, i, st.peer, u.len)
            && (o == NoKey <==> now.key <= 0)
            && (o.Refused? <==> now.key > 0 && !(2 <= now.peer <= u.p - 2))
            && (o == Stuck <==> (now.key > 0 && 2 <= now.peer <= u.p - 2 && calls[i].blind && !Refreshable(u, draw, now)))
            && (o.Agreed? ==> now.key > 0 && o == Agreed(now.peer, now.key, Pow(now.peer, now.key) % u.p))
  {
    hide Pow, Refresh, Sample, Outcomes, StateAt, PeerValue;
    OutcomeAt(u, draw, st, calls, i);
    NotStale(u, draw, st, calls, i);
    PeerTracked(u, draw, st, calls, i);
  }

  /** Blinding values can be had. */
  predicate Refreshable(u: Group, draw: nat -> Byte, st: State)
    requires u.p > 0
  {
    Refresh(u.p, u.len, draw, st.key, st.px, st.vi, st.pos).ok
  }

  lemma {:induction false} NotStale(u: Group, draw: nat -> Byte, st: State, calls: seq<Call>, i: nat)
    requires u.p > 0 && !st.stale && i <= |calls|
    requires forall k :: 0 <= k < i ==> Outcomes(u, draw, st, calls)[k] != Stuck
    ensures !StateAt(u, draw, st, calls, i).stale
  {
    hide Pow, Refresh, Sample, Outcomes;
    if i > 0 {
      NotStale(u, draw, st, calls, i - 1);
      OutcomeAt(u, draw, st, calls, i - 1);
    }
  }

  lemma {:induction false} PeerTracked(u: Group, draw: nat -> Byte, st: State, calls: seq<Call>, i: nat)
    requires u.p > 0 && i <= |calls|
    ensures StateAt(u, draw, st, calls, i).peer == PeerValue(calls, i, st.peer, u.len)
  {
    hide Pow, Refresh, Sample, BigEndian;
    if i > 0 { PeerTracked(u, draw, st, calls, i - 1); }
  }

  /** The peer's value after the first i calls. */
  function PeerValue(calls: seq<Call>, i: nat, start: int, len: nat): int
    requires i <= |calls|
  {
    if i == 0 then start
    else if calls[i - 1].Peer? && 1 <= |calls[i - 1].bytes| <= len then BigEndian(calls[i - 1].bytes)
    else PeerValue(calls, i - 1, start, len)
  }

  /** In any state, for a peer's value prime to P: a secret is right exactly if no failure has left Vi
      without its Vf, or Vi^X is 1 mod P all the same. */
  lemma SecretExact(u: Group, draw: nat -> Byte, st: State, blind: bool)
    requires u.p > 0 && SecretStep(u, draw, st, blind).0.Agreed? && Gcd(st.peer, u.p) == 1
    ensures var (o, next) := SecretStep(u, draw, st, blind);
            o.x == st.key > 0 && o.gy == st.peer
            && (o.secret == Pow(o.gy, o.x) % u.p <==> !blind || !next.stale || Cong(Pow(next.vi, o.x), 1, u.p))
  {
    hide Pow, Refresh, Cong, Gcd;
    var (o, next) := SecretStep(u, draw, st, blind);
    UnblindExact(st.peer, next.vi, 1, st.key, u.p);
    assert Pow(st.peer * next.vi, st.key) * 1 == Pow(st.peer * next.vi, st.key);
    BlindingOne(next.vi, st.key, u.p);
  }

  lemma BlindingOne(vi: int, x: nat, p: int)
    requires p > 0
    ensures Blinding(vi, 1, x, p) <==> Cong(Pow(vi, x), 1, p)
  {
    assert Pow(vi, x) * 1 == Pow(vi, x);
  }

  /** The unblinded product is the plain power exactly if the blinding relation holds. */
  lemma UnblindExact(gy: nat, vi: int, vf: int, x: nat, p: nat)
    requires p > 0 && Gcd(gy, p) == 1
    ensures Pow(gy * vi, x) * vf % p == Pow(gy, x) % p <==> Blinding(vi, vf, x, p)
  {
    hide Pow, Cong, Gcd;
    var t := Pow(vi, x) * vf;
    PowMul(gy, vi, x);
    Assoc(Pow(gy, x), Pow(vi, x), vf);
    if Cong(t, 1, p) {
      CongScale(t, 1, Pow(gy, x), p);
      CongToMod(Pow(gy, x) * t, Pow(gy, x), p);
    }
    if Pow(gy, x) * t % p == Pow(gy, x) % p {
      CongByMod(Pow(gy, x) * t, Pow(gy, x), p);
      CancelPower(gy, x, t, p);
    }
  }

  /** A power of a number prime to p can be cancelled. */
  lemma CancelPower(g: nat, x: nat, t: int, p: nat)
    requires p > 0 && Gcd(g, p) == 1 && Cong(Pow(g, x) * t, Pow(g, x), p)
    ensures Cong(t, 1, p)
  {
    hide Pow, Cong, Gcd;
    var a, b := BezoutExists(g, p);
    CongIntro(a * g, 1, p, -b);
    PowCong(a * g, 1, x, p);
    PowOfOne(x);
    PowMul(a, g, x);
    var i, y := Pow(a, x), Pow(g, x);
    CongScale(y * t, y, i, p);
    Assoc(i, y, t);
    CongScale(i * y, 1, t, p);
    CongSym(i * y * t, t, p);
    CongTrans(t, i * y * t, i * y, p);
    CongTrans(t, i * y, 1, p);
  }

  /** After a failure secrets can be wrong: with a source of zeros the first secret for a private key
      is right, the second call fails to draw blinding values, and the third hands out zero. */
  method StaleBlinding(ctx: DhmContext, output: array<Byte>, draw: nat -> Byte) returns (k1: int, ret2: int, ret3: int, k3: int)
    requires ctx.Valid() && ctx.X.V() > 0 && ctx.pX.V() != ctx.X.V() && 2 <= ctx.GY.V() <= ctx.P.V() - 2
    requires output.Length >= ctx.len && forall i: nat :: draw(i) == 0
    modifies ctx.K, ctx.RP, ctx.Vi, ctx.Vf, ctx.pX, output
    ensures ctx.P.V() > 0 && k1 == Pow(ctx.GY.V(), ctx.X.V()) % ctx.P.V()
    ensures ret2 == ERR_DHM_CALC_SECRET_FAILED + ERR_NOT_ACCEPTABLE && ret3 == 0 && k3 == 0
    ensures IsPrime(ctx.P.V()) ==> k1 != 0
  {
    hide Pow, Nat, Blinding, BigEndian, IsExport, Sample, Gcd, IsPrime, Mpi.V;
    var ret1, olen, pos := ctx.CalcSecret(output, true, draw, 0);
    k1 := ctx.K.V();
    ZerosFail(draw, ctx.len, ctx.P.V(), ctx.P.V() - 1, pos, TRIES);
    ret2, olen, pos := ctx.CalcSecret(output, true, draw, pos);
    assert ctx.Vi.V() == 0;
    ModSmall(0, ctx.P.V());
    ret3, olen, pos := ctx.CalcSecret(output, true, draw, pos);
    k3 := ctx.K.V();
    StaleValue(ctx.GY.V(), ctx.X.V(), ctx.Vf.V(), ctx.P.V());
    if IsPrime(ctx.P.V()) {
      PowerNotZero(ctx.GY.V(), ctx.X.V(), ctx.P.V());
    }
  }

  lemma StaleValue(gy: int, x: nat, vf: int, p: int)
    requires x > 0 && p > 0
    ensures Pow(gy * 0, x) * vf % p == 0
  {
    assert gy * 0 == 0;
    assert Pow(0, x) == 0 * Pow(0, x - 1) == 0;
    ModSmall(0, p);
  }

  lemma PowerNotZero(a: nat, e: nat, p: int)
    requires IsPrime(p) && 0 < a < p && e > 0
    ensures Pow(a, e) % p != 0
  {
    hide Pow, IsPrime;
    NotDivisor(p, a);
    PowerDivides(p, a, e);
  }

  /** Both parties arrive at the same secret. */
  lemma Agreement(g: int, x: nat, y: nat, p: int)
    requires p > 0
    ensures Pow(Pow(g, y) % p, x) % p == Pow(Pow(g, x) % p, y) % p
  {
    hide Cong;
    CongMod(Pow(g, y), p);
    PowCong(Pow(g, y) % p, Pow(g, y), x, p);
    CongMod(Pow(g, x), p);
    PowCong(Pow(g, x) % p, Pow(g, x), y, p);
    PowPow(g, y, x);
    PowPow(g, x, y);
    CongToMod(Pow(Pow(g, y) % p, x), Pow(Pow(g, y), x), p);
    CongToMod(Pow(Pow(g, x) % p, y), Pow(Pow(g, x), y), p);
  }

  /** The exchange between two parties that have not used their contexts yet: each makes a public
      value, reads the other's and derives the secret, blinded or not. It succeeds exactly if both
      private keys can be drawn and both public values are in range, and then both hold the same
      octets. */
  method Exchange(a: DhmContext, b: DhmContext, xa: nat, xb: nat, blindA: bool, blindB: bool, drawA: nat -> Byte, drawB: nat -> Byte,
    sa: array<Byte>, sb: array<Byte>) returns (ok: bool, la: nat, lb: nat)
    requires a.Valid() && b.Valid() && a.pX.V() == 0 && b.pX.V() == 0 && Separate(a, b)
    requires a.P.V() == b.P.V() && a.G.V() == b.G.V() && a.G.p != [] && b.G.p != []
    requires sa != sb && sa.Length >= a.len && sb.Length >= b.len
    modifies a.X, a.GX, a.GY, a.K, a.RP, a.Vi, a.Vf, a.pX, b.X, b.GX, b.GY, b.K, b.RP, b.Vi, b.Vf, b.pX, sa, sb
    ensures a.P.V() > 0
    ensures Kept(old(a.P.V()), old(a.G.V()), a.pX.V(), a) && Kept(old(b.P.V()), old(b.G.V()), b.pX.V(), b) && b.P.V() > 0
    ensures ok <==> old(PublicOk(a.G.V(), a.P.V(), a.Private(xa, drawA, 0)) && PublicOk(b.G.V(), b.P.V(), b.Private(xb, drawB, 0)))
    ensures ok ==> la <= sa.Length && lb <= sb.Length && sa[..la] == sb[..lb]
    ensures ok ==> BigEndian(sa[..la]) == old(Pow(Pow(a.G.V(), b.Private(xb, drawB, 0).v) % a.P.V(), a.Private(xa, drawA, 0).v) % a.P.V())
  {
    hide Pow, Nat, Blinding, BigEndian, IsExport, Sample, ToBytes, Mpi.V, DhmContext.Distinct, DhmContext.Sound, DhmContext.Valid;
    hide DhmContext.Private, IsRR, PublicOk;
    la, lb := 0, 0;
    SameModulus(a, b);
    ghost var x, y, g, p := a.Private(xa, drawA, 0).v, b.Private(xb, drawB, 0).v, a.G.V(), a.P.V();
    var pa, pb, posA, posB;
    ok, pa, pb, posA, posB := PublishBoth(a, b, xa, xb, drawA, drawB);
    if !ok { return; }
    la, lb := DeriveBoth(a, b, pa, pb, blindA, blindB, drawA, drawB, posA, posB, sa, sb);
    Agreement(g, x, y, p);
    ExportUnique(Pow(Pow(g, y) % p, x) % p, sa, la, sb, lb);
  }

  method PublishBoth(a: DhmContext, b: DhmContext, xa: nat, xb: nat, drawA: nat -> Byte, drawB: nat -> Byte)
    returns (ok: bool, pa: seq<Byte>, pb: seq<Byte>, posA: nat, posB: nat)
    requires a.Valid() && b.Valid() && Separate(a, b) && a.G.p != [] && b.G.p != []
    modifies a.X, a.GX, a.RP, b.X, b.GX, b.RP
    ensures a.Valid() && b.Valid() && a.P.V() > 0 && b.P.V() > 0
    ensures Kept(old(a.P.V()), old(a.G.V()), old(a.pX.V()), a) && Kept(old(b.P.V()), old(b.G.V()), old(b.pX.V()), b)
    ensures ok <==> old(PublicOk(a.G.V(), a.P.V(), a.Private(xa, drawA, 0)) && PublicOk(b.G.V(), b.P.V(), b.Private(xb, drawB, 0)))
    ensures ok ==> Published(old(a.G.V()), old(a.P.V()), old(a.Private(xa, drawA, 0).v), a, pa)
    ensures ok ==> Published(old(b.G.V()), old(b.P.V()), old(b.Private(xb, drawB, 0).v), b, pb)
  {
    hide Pow, Nat, Blinding, BigEndian, Sample, Mpi.V, DhmContext.Distinct, DhmContext.Sound, DhmContext.Valid;
    SameModulus(a, a);
    SameModulus(b, b);
    var okA, okB;
    okA, pa, posA := Publish(a, xa, drawA);
    okB, pb, posB := Publish(b, xb, drawB);
    ok := okA && okB;
  }

  method DeriveBoth(a: DhmContext, b: DhmContext, pa: seq<Byte>, pb: seq<Byte>, blindA: bool, blindB: bool,
    drawA: nat -> Byte, drawB: nat -> Byte, posA: nat, posB: nat, sa: array<Byte>, sb: array<Byte>) returns (la: nat, lb: nat)
    requires a.Valid() && b.Valid() && Separate(a, b) && a.X.V() > 0 && b.X.V() > 0 && a.pX.V() != a.X.V() && b.pX.V() != b.X.V()
    requires |pb| == a.len && |pa| == b.len && 2 <= BigEndian(pb) <= a.P.V() - 2 && 2 <= BigEndian(pa) <= b.P.V() - 2
    requires sa != sb && sa.Length >= a.len && sb.Length >= b.len
    modifies a.GY, a.K, a.RP, a.Vi, a.Vf, a.pX, b.GY, b.K, b.RP, b.Vi, b.Vf, b.pX, sa, sb
    ensures Kept(old(a.P.V()), old(a.G.V()), a.pX.V(), a) && Kept(old(b.P.V()), old(b.G.V()), b.pX.V(), b)
    ensures a.P.V() > 0 && IsExport(Pow(BigEndian(pb), old(a.X.V())) % a.P.V(), sa, la)
    ensures b.P.V() > 0 && IsExport(Pow(BigEndian(pa), old(b.X.V())) % b.P.V(), sb, lb)
  {
    hide Pow, Nat, Blinding, BigEndian, IsExport, Mpi.V, DhmContext.Distinct, DhmContext.Sound, DhmContext.Valid;
    la := Derive(a, pb, blindA, drawA, posA, sa);
    lb := Derive(b, pa, blindB, drawB, posB, sb);
  }

  lemma SameModulus(a: DhmContext, b: DhmContext)
    requires a.Valid() && b.Valid() && a.P.V() == b.P.V()
    ensures a.len == b.len && 0 < a.P.V() < Pow(256, a.len)
  {
    hide Pow, Nat;
    SignedNumber(a.P);
    SignedNumber(b.P);
    SizeUnique(Nat(a.P.p), a.len, b.len);
  }

  lemma ExportUnique(k: int, s: array<Byte>, m: nat, t: array<Byte>, n: nat)
    requires IsExport(k, s, m) && IsExport(k, t, n)
    ensures m == n && m <= s.Length && n <= t.Length && s[..m] == t[..n] && BigEndian(s[..m]) == k
  {
    hide Pow, BigEndian, ToBytes;
    SizeUnique(k, m, n);
    NumberRoundTrip(k, m);
  }

  /** Modulus, generator and remembered exponent are those given. */
  ghost predicate Kept(p: int, g: int, px: int, c: DhmContext)
    reads c.P, c.G, c.pX
  {
    c.P.V() == p && c.G.V() == g && c.pX.V() == px
  }

  /** The private key is x, and the octets are those of its public value, which is in range. */
  ghost predicate Published(g: int, p: int, x: nat, c: DhmContext, bytes: seq<Byte>)
    reads c, c.X
  {
    c.X.V() == x >= 2 && |bytes| == c.len && p > 0 && BigEndian(bytes) == Pow(g, x) % p && 2 <= Pow(g, x) % p <= p - 2
  }

  /** A party's public value. */
  method Publish(c: DhmContext, xSize: nat, draw: nat -> Byte) returns (ok: bool, bytes: seq<Byte>, pos: nat)
    requires c.Valid() && c.G.p != []
    modifies c.X, c.GX, c.RP
    ensures c.Valid() && c.P.V() > 0 && Kept(old(c.P.V()), old(c.G.V()), old(c.pX.V()), c)
    ensures ok <==> old(PublicOk(c.G.V(), c.P.V(), c.Private(xSize, draw, 0)))
    ensures ok ==> Published(old(c.G.V()), old(c.P.V()), old(c.Private(xSize, draw, 0).v), c, bytes)
  {
    hide Pow, Nat, Blinding, BigEndian, Sample, ToBytes;
    SameModulus(c, c);
    var buf := new Byte[c.len](_ => 0);
    var ret;
    ret, pos := c.MakePublic(xSize, buf, c.len, draw, 0);
    ok := ret == 0;
    bytes := buf[..c.len];
  }

  /** A party's secret from the other's public value, the first for its private key. */
  method Derive(c: DhmContext, peer: seq<Byte>, blind: bool, draw: nat -> Byte, pos: nat, output: array<Byte>) returns (olen: nat)
    requires c.Valid() && c.X.V() > 0 && c.pX.V() != c.X.V() && output.Length >= c.len
    requires |peer| == c.len && 2 <= BigEndian(peer) <= c.P.V() - 2
    modifies c.GY, c.K, c.RP, c.Vi, c.Vf, c.pX, output
    ensures c.P.V() > 0 && Kept(old(c.P.V()), old(c.G.V()), c.pX.V(), c)
    ensures IsExport(Pow(BigEndian(peer), old(c.X.V())) % c.P.V(), output, olen)
  {
    hide Pow, Nat, Blinding, BigEndian, IsExport, Sample, Gcd;
    var ret := c.ReadPublic(peer);
    var p;
    ret, olen, p := c.CalcSecret(output, blind, draw, pos);
  }

  /** The private key could be drawn, and the public value is in range. */
  predicate PublicOk(g: int, p: int, x: Sampled)
    requires p > 0
  {
    x.ok && 2 <= Pow(g, x.v) % p <= p - 2
  }

  /** The numbers of the two contexts are different objects. */
  ghost predicate Separate(a: DhmContext, b: DhmContext) {
    Numbers(a) !! Numbers(b)
  }

  ghost function Numbers(c: DhmContext): set<Mpi> {
    {c.P, c.G, c.X, c.GX, c.GY, c.K, c.RP, c.Vi, c.Vf, c.pX}
  }

  lemma {:induction false} PowPow(g: int, a: nat, b: nat)
    ensures a * b >= 0 && Pow(Pow(g, a), b) == Pow(g, a * b)
  {
    MulMono(0, a, b);
    if b > 0 {
      PowPow(g, a, b - 1);
      MulMono(0, a, b - 1);
      PowAdd(g, a, a * (b - 1));
      assert a * b == a + a * (b - 1);
    }
  }
}
