/** The Miller-Rabin test and the primality check in front of it. */
module MillerRabin {
  import opened Arith
  import opened Limbs
  import opened MpiCore
  import opened MpiBits
  import opened MpiShift
  import opened MpiAddSub
  import opened MpiMul
  import opened MpiMod
  import opened ModExp
  import opened ByteStrings
  import opened MpiBinary
  import opened Divisibility
  import opened PrimeNumbers

  /** b^(r * 2^j) mod n, by repeated squaring. */
  function Trace(n: int, b: int, r: nat, j: nat): (t: int)
    requires n > 0
    ensures 0 <= t < n
  {
    if j == 0 then CongMod(Pow(b, r), n); Pow(b, r) % n
    else var t := Trace(n, b, r, j - 1); CongMod(t * t, n); t * t % n
  }

  /** n = 2^s * r + 1 is a strong probable prime to base b. */
  ghost predicate StrongProbablePrime(n: int, b: int, s: nat, r: nat)
    requires n > 0
  {
    Trace(n, b, r, 0) == 1 || exists j :: 0 <= j < s && Trace(n, b, r, j) == n - 1
  }

  lemma {:induction false} TraceIsPower(n: int, b: int, r: nat, j: nat)
    requires n > 0
    ensures r * Pow(2, j) >= 0 && Trace(n, b, r, j) == Pow(b, r * Pow(2, j)) % n
  {
    PowPos(2, j);
    MulMono(0, r, Pow(2, j));
    if j == 0 {
    } else {
      TraceIsPower(n, b, r, j - 1);
      PowPos(2, j - 1);
      MulMono(0, r, Pow(2, j - 1));
      var e := r * Pow(2, j - 1);
      assert r * Pow(2, j) == e + e by { PowTwice(r, j - 1); }
      PowAdd(b, e, e);
      CongMod(Pow(b, e), n);
      var t := Trace(n, b, r, j - 1);
      CongMul(t, Pow(b, e), t, Pow(b, e), n);
    }
  }

  /** Every prime is a strong probable prime to every base it does not divide. */
  lemma PrimeIsStrong(p: int, b: int, s: nat, r: nat)
    requires IsPrime(p) && p > 2 && !Divides(p, b) && p - 1 == Pow(2, s) * r
    ensures StrongProbablePrime(p, b, s, r)
  {
    Fermat(p, b);
    TraceIsPower(p, b, r, s);
    assert r * Pow(2, s) == p - 1;
    ModSmall(1, p);
    RootsDown(p, b, r, s);
  }

  /** Walking back from a trace value 1 meets -1 unless the walk starts at 1. */
  lemma {:induction false} RootsDown(p: int, b: int, r: nat, j: nat)
    requires IsPrime(p) && p > 2 && Trace(p, b, r, j) == 1
    ensures Trace(p, b, r, 0) == 1 || exists i :: 0 <= i < j && Trace(p, b, r, i) == p - 1
  {
    hide IsPrime;
    if j > 0 {
      var t := Trace(p, b, r, j - 1);
      SquareIsOne(p, t);
      if t == 1 {
        RootsDown(p, b, r, j - 1);
      } else {
        assert Trace(p, b, r, j - 1) == p - 1;
      }
    }
  }

  lemma SquareIsOne(p: int, t: int)
    requires IsPrime(p) && p > 2 && 0 <= t < p && t * t % p == 1
    ensures t == 1 || t == p - 1
  {
    hide IsPrime;
    ModSmall(1, p);
    SquareRootOfOne(p, t);
    ModSmall(t, p);
    CongIntro(p - 1, -1, p, 1);
    ModSmall(p - 1, p);
  }

  /** The top limb of a random number of n limbs, cut so that the number has fewer than k bits. The
      shift count of the mask is below zero if X has leading zero limbs; C does not define the
      result then, and the limb becomes `stray`. */
  function MaskTop(top: Limb, k: nat, n: nat, stray: Limb): Limb {
    var count := k - (n - 1) * 64 - 1;
    if count < 0 then stray
    else
      PowPos(2, count);
      CongMod(top, Pow(2, count));
      DivShrinks(top, Pow(2, count));
      top % Pow(2, count)
  }

  /** The number of bits. */
  function BitCount(x: nat): nat {
    if x == 0 then 0 else 1 + BitCount(x / 2)
  }

  lemma {:induction false} BitCountIs(x: nat, n: nat)
    requires x < Pow(2, n) && (n > 0 ==> Pow(2, n - 1) <= x)
    ensures n == BitCount(x)
  {
    if n > 1 {
      BitCountIs(x / 2, n - 1);
    }
  }

  /** What becomes of a random number v of n limbs when k bits are wanted. */
  function Masked(v: nat, n: nat, k: nat, stray: Limb): nat {
    if n == 0 || v < Pow(2, k) then v
    else
      BPowPos(n - 1);
      v % BPow(n - 1) + BPow(n - 1) * MaskTop(v / BPow(n - 1) % BASE, k, n, stray)
  }

  /** A base drawn for x, the position behind it, and whether it is in range. */
  datatype Draw = Draw(v: nat, pos: nat, ok: bool)

  const CANDIDATES := 31

  /** The first of `left` candidates, of n limbs each, that is between 1 and x - 1; if all miss, one
      more is drawn and discarded. `stray` is what undefined shifts leave. */
  function DrawBase(x: nat, n: nat, draw: nat -> Byte, stray: nat -> Limb, pos: nat, left: nat): (s: Draw)
    requires x > 0
    ensures s.ok ==> 1 < s.v < x - 1
    decreases left
  {
    var next := pos + 8 * n;
    var v := Masked(RandomNumber(draw, 8 * n, pos), n, BitCount(x - 1), stray(next));
    if left == 0 then Draw(v, next, false)
    else if 1 < v < x - 1 then Draw(v, next, true)
    else DrawBase(x, n, draw, stray, next, left - 1)
  }

  lemma DrawStep(x: nat, n: nat, draw: nat -> Byte, stray: nat -> Limb, pos: nat, left: nat)
    requires x > 0
    ensures var next := pos + 8 * n;
            var v := Masked(RandomNumber(draw, 8 * n, pos), n, BitCount(x - 1), stray(next));
            DrawBase(x, n, draw, stray, pos, left) ==
              if left == 0 then Draw(v, next, false)
              else if 1 < v < x - 1 then Draw(v, next, true)
              else DrawBase(x, n, draw, stray, next, left - 1)
  {
    hide Masked, RandomNumber, BitCount;
  }

  /** Draw a base, giving up after 31 failures. */
  method SampleBase(A: Mpi, X: Mpi, W: Mpi, draw: nat -> Byte, pos0: nat, stray: nat -> Limb) returns (pos: nat, ok: bool)
    requires A != X && A != W && X.p != [] && X.s == 1
    requires X.V() % 2 == 1 && X.V() > 2 && W.V() == X.V() - 1
    modifies A
    ensures var s := DrawBase(X.V(), |X.p|, draw, stray, pos0, CANDIDATES); A.V() == s.v && pos == s.pos && ok == s.ok
    ensures A.s == 1 && A.p != []
  {
    hide Pow, Nat, Masked, RandomNumber, BitCount, DrawBase, Mpi.V;
    var count := 0;
    pos := pos0;
    ghost var x, n := X.V(), |X.p|;
    while true
      invariant count <= 31
      invariant DrawBase(x, n, draw, stray, pos0, CANDIDATES) == DrawBase(x, n, draw, stray, pos, CANDIDATES - count)
      decreases 31 - count
    {
      DrawStep(x, n, draw, stray, pos, CANDIDATES - count);
      pos := DrawCandidate(A, X, W, draw, pos, stray);
      count := count + 1;
      if count > 31 { return pos, false; }
      var c1 := CmpMpi(A, W);
      var c2 := CmpInt(A, 1);
      if !(c1 >= 0 || c2 <= 0) { return pos, true; }
    }
  }

  /** One candidate. */
  method DrawCandidate(A: Mpi, X: Mpi, W: Mpi, draw: nat -> Byte, pos0: nat, stray: nat -> Limb) returns (pos: nat)
    requires A != X && A != W && X.p != [] && W.V() == X.V() - 1 && X.V() > 2
    modifies A
    ensures A.s == 1 && A.p != [] && pos == pos0 + 8 * |X.p|
    ensures A.V() == Masked(RandomNumber(draw, 8 * |X.p|, pos0), |X.p|, BitCount(X.V() - 1), stray(pos))
  {
    hide Pow, Nat, Masked, RandomNumber, BitCount;
    pos := FillRandom(A, |X.p| * 8, draw, pos0);
    ghost var p := A.p;
    var j := BitLen(A);
    var k := BitLen(W);
    BitCountIs(Nat(W.p), k);
    if j > k {
      A.p := A.p[|A.p| - 1 := MaskTop(A.p[|A.p| - 1], k, |A.p|, stray(pos))];
    }
    MaskedIs(p, j, k, stray(pos));
  }

  /** Cutting the top limb, seen on the number. */
  lemma MaskedIs(p: seq<Limb>, j: nat, k: nat, stray: Limb)
    requires p != [] && Nat(p) < Pow(2, j) && (j > 0 ==> Pow(2, j - 1) <= Nat(p))
    ensures var n := |p| - 1;
            Masked(Nat(p), |p|, k, stray) == Nat(if j > k then p[n := MaskTop(p[n], k, |p|, stray)] else p)
  {
    hide Pow, Nat, MaskTop;
    var n := |p| - 1;
    if j > k {
      Pow2Mono(k, j - 1);
      BPowPos(n);
      TopOf(p);
      TopOf(p[n := MaskTop(p[n], k, |p|, stray)]);
      assert p[n := MaskTop(p[n], k, |p|, stray)][..n] == p[..n];
      ModSmall(p[n], BASE);
    } else {
      Pow2Mono(j, k);
    }
  }

  /** A number and its top limb. */
  lemma TopOf(p: seq<Limb>)
    requires p != []
    ensures var n := |p| - 1;
            BPow(n) > 0 && Nat(p) == Nat(p[..n]) + BPow(n) * p[n] && Nat(p) / BPow(n) == p[n] && Nat(p) % BPow(n) == Nat(p[..n])
  {
    hide Pow, Nat, BPow;
    var n := |p| - 1;
    BPowPos(n);
    NatSplit(p, n);
    NatBound(p[..n]);
    OneLimb(p[n]);
    assert p[n..] == [p[n]];
    Arith.DivUnique(Nat(p), BPow(n), p[n], Nat(p[..n]));
  }

  lemma OneLimb(x: Limb)
    ensures Nat([x]) == x
  {
    assert [x][1..] == [];
  }

  /** Without a leading zero limb the shift count is one of a limb. */
  lemma MaskShift(p: seq<Limb>, w: nat, k: nat)
    requires p != [] && |p| == Used(p) && Nat(p) % 2 == 1 && Nat(p) > 2 && w == Nat(p) - 1
    requires w < Pow(2, k) && (k > 0 ==> Pow(2, k - 1) <= w)
    ensures 0 <= k - (|p| - 1) * 64 - 1 < 64
  {
    hide Pow, Nat;
    var n := |p| - 1;
    UsedPos(p);
    BPowBits(n);
    BPowBits(n + 1);
    if n > 0 {
      BPowNext(n - 1);
      assert BPow(n) <= w;
    } else {
      PowZero(2);
    }
    if k <= 64 * n { Pow2Mono(k, 64 * n); }
    if k > 64 * (n + 1) { Pow2Mono(64 * (n + 1), k - 1); }
  }

  /** With one, and a number that fills no further limb, it is below zero. */
  lemma MaskShiftUndefined(p: seq<Limb>, w: nat, k: nat)
    requires p != [] && Used(p) < |p| && w < Nat(p)
    requires w < Pow(2, k) && (k > 0 ==> Pow(2, k - 1) <= w)
    ensures k - (|p| - 1) * 64 - 1 < 0
  {
    hide Pow, Nat, Used;
    var n := |p| - 1;
    UsedSuffix(p, n);
    NatBound(p[..n]);
    BPowBits(n);
    if k > 64 * n { Pow2Mono(64 * n, k - 1); }
  }

  /** The shift is defined exactly if X has no leading zero limb. */
  lemma ShiftDefined(p: seq<Limb>, k: nat)
    requires p != [] && Nat(p) % 2 == 1 && Nat(p) > 2
    requires Nat(p) - 1 < Pow(2, k) && (k > 0 ==> Pow(2, k - 1) <= Nat(p) - 1)
    ensures 0 <= k - (|p| - 1) * 64 - 1 < 64 <==> |p| == Used(p)
  {
    hide Pow, Nat, Used;
    if |p| == Used(p) {
      MaskShift(p, Nat(p) - 1, k);
    } else {
      MaskShiftUndefined(p, Nat(p) - 1, k);
    }
  }

  /** Squarings before j have met neither the start value 1 nor -1. */
  ghost predicate NoHit(n: int, b: int, r: nat, j: nat)
    requires n > 0
  {
    Trace(n, b, r, 0) != 1 && forall i :: 0 <= i < j ==> Trace(n, b, r, i) != n - 1
  }

  /** One round: A holds the base on entry; the answer is whether X passes it. */
  method Round(A: Mpi, X: Mpi, W: Mpi, R: Mpi, s: nat, RR: Mpi) returns (pass: bool)
    requires A != X && A != W && A != R && RR != A && RR != X && RR != R && RR != W && A.p != []
    requires X.V() > 2 && X.V() % 2 == 1 && W.V() == X.V() - 1 && R.V() >= 0 && A.s == 1 && s > 0
    requires RR.p != [] ==> IsRR(RR, X)
    modifies A, RR
    ensures IsRR(RR, X)
    ensures pass <==> StrongProbablePrime(X.V(), old(A.V()), s, Nat(R.p))
  {
    hide Pow, Nat, Trace, NoHit, StrongProbablePrime, ExpValue;
    ghost var n, b, r := X.V(), A.V(), Nat(R.p);
    var _ := ExpMod(A, A, R, X, RR);
    TraceStart(n, b, r);
    var cw := CmpMpi(A, W);
    var c1 := CmpInt(A, 1);
    if cw == 0 || c1 == 0 {
      HitAt(n, b, s, r, 0);
      return true;
    }
    var T := new Mpi();
    var j := 1;
    NoHitStart(n, b, r);
    while j < s && cw != 0
      invariant 1 <= j <= s && A.V() == Trace(n, b, r, j - 1) && NoHit(n, b, r, j - 1)
      invariant cw == Sgn(A.V() - (n - 1)) && A.V() != 1 && RR != T && IsRR(RR, X)
      decreases s - j
    {
      MulMpi(T, A, A);
      var _ := ModMpi(A, T, X);
      TraceNext(n, b, r, j);
      NoHitNext(n, b, r, j);
      cw := CmpMpi(A, W);
      c1 := CmpInt(A, 1);
      if c1 == 0 {
        OnesNeverHit(n, b, s, r, j);
        break;
      }
      j := j + 1;
    }
    c1 := CmpInt(A, 1);
    if cw == 0 && c1 != 0 { HitAt(n, b, s, r, j - 1); }
    if cw != 0 && c1 != 0 { NoHitNext(n, b, r, s); NeverHit(n, b, s, r); }
    pass := !(cw != 0 || c1 == 0);
  }

  lemma TraceStart(n: int, b: int, r: nat)
    requires n > 0 && b >= 0
    ensures ExpValue(false, b, r, n) == Trace(n, b, r, 0)
  {
  }

  lemma TraceNext(n: int, b: int, r: nat, j: nat)
    requires n > 0 && j > 0
    ensures Trace(n, b, r, j) == Trace(n, b, r, j - 1) * Trace(n, b, r, j - 1) % n
  {
  }

  lemma NoHitStart(n: int, b: int, r: nat)
    requires n > 0 && Trace(n, b, r, 0) != 1
    ensures NoHit(n, b, r, 0)
  {
  }

  lemma NoHitNext(n: int, b: int, r: nat, j: nat)
    requires n > 0 && j > 0 && NoHit(n, b, r, j - 1) && Trace(n, b, r, j - 1) != n - 1
    ensures NoHit(n, b, r, j)
  {
  }

  lemma HitAt(n: int, b: int, s: nat, r: nat, j: nat)
    requires n > 0 && j < s && (Trace(n, b, r, j) == n - 1 || (j == 0 && Trace(n, b, r, 0) == 1))
    ensures StrongProbablePrime(n, b, s, r)
  {
  }

  lemma NeverHit(n: int, b: int, s: nat, r: nat)
    requires n > 0 && NoHit(n, b, r, s)
    ensures !StrongProbablePrime(n, b, s, r)
  {
  }

  /** Once the trace is 1 it stays 1. */
  lemma OnesNeverHit(n: int, b: int, s: nat, r: nat, j: nat)
    requires n > 2 && NoHit(n, b, r, j) && Trace(n, b, r, j) == 1
    ensures !StrongProbablePrime(n, b, s, r)
  {
    forall i | 0 <= i < s
      ensures Trace(n, b, r, i) != n - 1
    {
      if i >= j { OnesStay(n, b, r, j, i); }
    }
  }

  lemma {:induction false} OnesStay(n: int, b: int, r: nat, j: nat, i: nat)
    requires n > 1 && j <= i && Trace(n, b, r, j) == 1
    ensures Trace(n, b, r, i) == 1
  {
    if j < i {
      OnesStay(n, b, r, j, i - 1);
      ModSmall(1, n);
    }
  }

  datatype Verdict = Passed | Rejected | GaveUp

  /** The bases of successive rounds, up to one that cannot be drawn. */
  function DrawnBases(x: nat, n: nat, draw: nat -> Byte, stray: nat -> Limb, pos: nat, rounds: nat): (bases: seq<nat>)
    requires x > 0
    ensures |bases| <= rounds && forall b :: b in bases ==> 1 < b < x - 1
    decreases rounds
  {
    if rounds == 0 then []
    else
      var s := DrawBase(x, n, draw, stray, pos, CANDIDATES);
      if s.ok then [s.v] + DrawnBases(x, n, draw, stray, s.pos, rounds - 1) else []
  }

  ghost predicate AllStrong(x: int, bases: seq<nat>)
    requires x > 0
  {
    forall b :: b in bases ==> Strong(x, b)
  }

  /** All rounds: rejected if X is not strong to some base that is drawn, given up if it is strong to
      all of them but a base cannot be drawn. */
  method RunMillerRabin(X: Mpi, rounds: nat, draw: nat -> Byte, stray: nat -> Limb) returns (ret: int, v: Verdict)
    requires X.p != [] && X.s == 1 && X.V() > 2 && X.V() % 2 == 1
    ensures ret == if v.Passed? then 0 else ERR_NOT_ACCEPTABLE
    ensures var bases := DrawnBases(X.V(), |X.p|, draw, stray, 0, rounds);
            v == if !AllStrong(X.V(), bases) then Rejected else if |bases| < rounds then GaveUp else Passed
  {
    hide Pow, Nat, Strong, IsRR, DrawBase, DrawnBases, AllStrong;
    var W := new Mpi();
    var R := new Mpi();
    var A := new Mpi();
    var RR := new Mpi();
    SubInt(W, X, 1);
    var s := Lsb(W);
    Copy(R, W);
    ShiftR(R, s);
    SplitMinusOne(X.V(), s, Nat(R.p));
    ret, v := RoundLoop(A, X, W, R, s, RR, rounds, draw, stray);
  }

  /** The loop over the rounds. */
  method RoundLoop(A: Mpi, X: Mpi, W: Mpi, R: Mpi, s: nat, RR: Mpi, rounds: nat, draw: nat -> Byte, stray: nat -> Limb)
    returns (ret: int, v: Verdict)
    requires A != X && A != W && A != R && RR != A && RR != X && RR != R && RR != W && X.p != [] && X.s == 1
    requires X.V() > 2 && X.V() % 2 == 1 && W.V() == X.V() - 1 && R.V() >= 0 && s > 0 && IsSplit(X.V(), s, Nat(R.p))
    requires RR.p != [] ==> IsRR(RR, X)
    modifies A, RR
    ensures ret == if v.Passed? then 0 else ERR_NOT_ACCEPTABLE
    ensures var bases := DrawnBases(X.V(), |X.p|, draw, stray, 0, rounds);
            v == if !AllStrong(X.V(), bases) then Rejected else if |bases| < rounds then GaveUp else Passed
  {
    hide Pow, Nat, Strong, IsRR, DrawBase, DrawnBases, AllStrong, IsSplit, Mpi.V;
    ghost var x, n := X.V(), |X.p|;
    var i, pos := 0, 0;
    ghost var done: seq<nat> := [];
    NoneDrawn(x, DrawnBases(x, n, draw, stray, 0, rounds));
    while i < rounds
      invariant i <= rounds && |done| == i && (RR.p != [] ==> IsRR(RR, X))
      invariant DrawnBases(x, n, draw, stray, 0, rounds) == done + DrawnBases(x, n, draw, stray, pos, rounds - i)
      invariant AllStrong(x, done)
    {
      RoundStep(x, n, draw, stray, pos, rounds - i, done);
      ghost var b := DrawBase(x, n, draw, stray, pos, CANDIDATES).v;
      var ok, pass;
      pos, ok, pass := SampleAndTest(A, X, W, R, s, RR, draw, pos, stray);
      if !ok { return ERR_NOT_ACCEPTABLE, GaveUp; }
      if !pass { return ERR_NOT_ACCEPTABLE, Rejected; }
      done := done + [b];
      i := i + 1;
    }
    NoMoreBases(x, n, draw, stray, pos);
    assert done + [] == done;
    return 0, Passed;
  }

  lemma NoMoreBases(x: nat, n: nat, draw: nat -> Byte, stray: nat -> Limb, pos: nat)
    requires x > 0
    ensures DrawnBases(x, n, draw, stray, pos, 0) == []
  {}

  /** One turn of the loop over the rounds. */
  method SampleAndTest(A: Mpi, X: Mpi, W: Mpi, R: Mpi, s: nat, RR: Mpi, draw: nat -> Byte, pos0: nat, stray: nat -> Limb)
    returns (pos: nat, ok: bool, pass: bool)
    requires A != X && A != W && A != R && RR != A && RR != X && RR != R && RR != W && X.p != [] && X.s == 1
    requires X.V() > 2 && X.V() % 2 == 1 && W.V() == X.V() - 1 && R.V() >= 0 && s > 0 && IsSplit(X.V(), s, Nat(R.p))
    requires RR.p != [] ==> IsRR(RR, X)
    modifies A, RR
    ensures RR.p != [] ==> IsRR(RR, X)
    ensures var d := DrawBase(X.V(), |X.p|, draw, stray, pos0, CANDIDATES);
            pos == d.pos && ok == d.ok && (ok ==> (pass <==> Strong(X.V(), d.v)))
  {
    hide Pow, Nat, Strong, StrongProbablePrime, IsRR, DrawBase;
    pass := false;
    pos, ok := SampleBase(A, X, W, draw, pos0, stray);
    if ok {
      ghost var b := A.V();
      pass := Round(A, X, W, R, s, RR);
      StrongBySplit(X.V(), b, s, Nat(R.p));
    }
  }

  lemma NoneDrawn(x: int, bases: seq<nat>)
    requires x > 0
    ensures AllStrong(x, []) && [] + bases == bases
  {}

  /** What one round adds to the bases, and what follows from its outcome. */
  lemma RoundStep(x: nat, n: nat, draw: nat -> Byte, stray: nat -> Limb, pos: nat, left: nat, done: seq<nat>)
    requires x > 0 && left > 0 && AllStrong(x, done)
    ensures var d := DrawBase(x, n, draw, stray, pos, CANDIDATES);
            var bases := done + DrawnBases(x, n, draw, stray, pos, left);
            if !d.ok then bases == done
            else if !Strong(x, d.v) then !AllStrong(x, bases)
            else bases == (done + [d.v]) + DrawnBases(x, n, draw, stray, d.pos, left - 1) && AllStrong(x, done + [d.v])
  {
    hide Strong, DrawBase;
    var d := DrawBase(x, n, draw, stray, pos, CANDIDATES);
    var rest := DrawnBases(x, n, draw, stray, pos, left);
    if d.ok {
      assert rest[0] == d.v && rest[0] in done + rest;
      assert done + ([d.v] + DrawnBases(x, n, draw, stray, d.pos, left - 1)) == (done + [d.v]) + DrawnBases(x, n, draw, stray, d.pos, left - 1);
    }
  }

  /** n - 1 == 2^s * r with r odd. */
  ghost predicate IsSplit(n: int, s: nat, r: nat) {
    n - 1 == Pow(2, s) * r && r % 2 == 1
  }

  /** The strong probable prime property with the split of n - 1 that the definition uses. */
  ghost predicate Strong(n: int, b: int)
    requires n > 0
  {
    exists s: nat, r: nat :: IsSplit(n, s, r) && StrongProbablePrime(n, b, s, r)
  }

  lemma StrongBySplit(n: int, b: int, s: nat, r: nat)
    requires n > 0 && IsSplit(n, s, r)
    ensures Strong(n, b) <==> StrongProbablePrime(n, b, s, r)
  {
    hide StrongProbablePrime;
    if Strong(n, b) {
      var s': nat, r': nat :| IsSplit(n, s', r') && StrongProbablePrime(n, b, s', r');
      SplitUnique(n, s, r, s', r');
    }
  }

  lemma {:induction false} SplitUnique(n: int, s: nat, r: nat, s': nat, r': nat)
    requires IsSplit(n, s, r) && IsSplit(n, s', r')
    ensures s == s' && r == r'
  {
    OddTimesPower(s, r, s', r');
  }

  lemma {:induction false} OddTimesPower(s: nat, r: nat, s': nat, r': nat)
    requires Pow(2, s) * r == Pow(2, s') * r' && r % 2 == 1 && r' % 2 == 1
    ensures s == s' && r == r'
  {
    hide Pow;
    PowZero(2);
    if s > 0 { EvenPart(s, r); }
    if s' > 0 { EvenPart(s', r'); }
    if s > 0 && s' > 0 { OddTimesPower(s - 1, r, s' - 1, r'); }
  }

  lemma EvenPart(s: nat, r: nat)
    requires s > 0
    ensures Pow(2, s) * r % 2 == 0 && Pow(2, s) * r / 2 == Pow(2, s - 1) * r
  {
    assert Pow(2, s) * r == 2 * (Pow(2, s - 1) * r);
  }

  lemma SplitMinusOne(n: int, s: nat, r: nat)
    requires n > 2 && n % 2 == 1 && Pow(2, s) > 0 && (n - 1) % Pow(2, s) == 0
    requires r == (n - 1) / Pow(2, s) && r % 2 == 1
    ensures s > 0 && IsSplit(n, s, r)
  {
    if s == 0 { PowZero(2); DivUnique(n - 1, 1, n - 1, 0); }
  }

  /** A prime is strong to every base strictly between 0 and itself. */
  lemma PrimeIsStrongProbablePrime(p: int, b: int, s: nat, r: nat)
    requires IsPrime(p) && p > 2 && 0 < b < p && IsSplit(p, s, r)
    ensures Strong(p, b)
  {
    if Divides(p, b) { DividesLe(p, b); }
    PrimeIsStrong(p, b, s, r);
  }
}

/** Trial division by the table of small primes, and the complete primality check. */
module PrimalityCheck {
  import opened Arith
  import opened Limbs
  import opened MpiCore
  import opened MpiMod
  import opened Divisibility
  import opened PrimeNumbers
  import opened ByteStrings
  import opened MillerRabin
  import opened PrimeTable

  /** 0: no small factor; 1: certain prime; NOT_ACCEPTABLE: certain non-prime. */
  method CheckSmallFactors(X: Mpi) returns (ret: int)
    requires X.p != [] && X.s == 1 && X.V() > 2
    ensures ret == 0 || ret == 1 || ret == ERR_NOT_ACCEPTABLE
    ensures ret == ERR_NOT_ACCEPTABLE ==> !IsPrime(X.V())
    ensures ret == 1 ==> IsPrime(X.V())
    ensures ret == 0 <==> X.V() > 997 && NoSmallDivisor(X.V())
    ensures ret == 0 ==> X.V() % 2 == 1
    ensures ret == 1 ==> X.V() <= 997
  {
    hide Nat, IsPrime, NoFactor, NoSmallDivisor, SMALL_PRIMES;
    ghost var x := X.V();
    NatParity(X.p);
    if x > 997 { TableComplete(x); }
    if X.p[0] % 2 == 0 {
      NotPrime(x, 2);
      return ERR_NOT_ACCEPTABLE;
    }
    TableFacts();
    var i := 0;
    NoFactorStart(x);
    while SMALL_PRIMES[i] > 0
      invariant 0 <= i <= 167
      invariant NoFactor(x, i)
      decreases 167 - i
    {
      var cmp := CmpInt(X, SMALL_PRIMES[i]);
      if cmp <= 0 {
        SmallPrime(x, i);
        return 1;
      }
      var _, r := ModInt(X, SMALL_PRIMES[i]);
      if r == 0 {
        NotPrime(x, SMALL_PRIMES[i]);
        FactorFound(x, i);
        return ERR_NOT_ACCEPTABLE;
      }
      NoFactorNext(x, i);
      i := i + 1;
    }
    NoFactorLast(x);
    ret := 0;
  }

  lemma NotPrime(x: int, d: int)
    requires 1 < d < x && x % d == 0
    ensures !IsPrime(x)
  {
    assert Divides(d, x);
  }

  /** An odd number not above table entry i and free of the entries before it is prime. */
  lemma SmallPrime(x: int, i: nat)
    requires |SMALL_PRIMES| == 168 && i < 167 && 2 < x <= SMALL_PRIMES[i] && x % 2 == 1
    requires NoFactor(x, i)
    ensures IsPrime(x)
  {
    hide SMALL_PRIMES;
    TableFacts();
    forall d: int | 1 < d < x
      ensures !Divides(d, x)
    {
      if Divides(d, x) {
        var k := DividesElim(d, x);
        var q := if d <= k then d else k;
        SmallFactor(d, k, x);
        DividesIntro(d, x, k);
        DividesIntro(k, x, d);
        FactorInTable(x, q, i);
      }
    }
  }

  lemma SmallFactor(d: int, k: int, x: int)
    requires 1 < d < x && x == k * d
    ensures 1 < k < x
    ensures var q := if d <= k then d else k; q * q <= x
  {
    if k <= 0 { MulMono(k, 0, d); }
    if k >= x { MulMono(x, k, d); MulMono(2, d, x); }
    if d <= k { MulMono(d, k, d); } else { MulMono(k, d, k); }
  }

  /** The smaller factor of such a number would have to be above its square root. */
  lemma FactorInTable(x: int, q: int, i: nat)
    requires |SMALL_PRIMES| == 168 && i < 167 && 0 < x <= SMALL_PRIMES[i] <= 997 && x % 2 == 1
    requires SMALL_PRIMES[..10] == ROW_0 && NoFactor(x, i) && 1 < q && Divides(q, x)
    ensures q * q > x
  {
    hide SMALL_PRIMES;
    if q >= 32 {
      MulMono(32, q, 32);
      MulMono(32, q, q);
    } else {
      DividesOdd(q, x);
      var m := TableIndex(q);
      var p := ROW_0[m];
      assert SMALL_PRIMES[m] == SMALL_PRIMES[..10][m] == p;
      DividesTrans(p, q, x);
      MulMono(3, q, q);
      if i <= m { TableRise(i, m); }
    }
  }

  /** Every odd number from 3 to 31 has a divisor among the first ten table entries. */
  lemma TableIndex(q: int) returns (m: nat)
    requires 1 < q < 32 && q % 2 == 1
    ensures m < 10 && var p := ROW_0[m]; p <= q && p > 0 && Divides(p, q)
  {
    m := if q % 3 == 0 then 0 else if q % 5 == 0 then 1 else if q == 7 then 2 else if q == 11 then 3
         else if q == 13 then 4 else if q == 17 then 5 else if q == 19 then 6 else if q == 23 then 7
         else if q == 29 then 8 else 9;
  }

  lemma TableRise(i: nat, m: nat)
    requires i <= m < 10 && |SMALL_PRIMES| == 168
    requires SMALL_PRIMES[..10] == ROW_0
    ensures SMALL_PRIMES[i] <= SMALL_PRIMES[m]
  {
    hide SMALL_PRIMES;
    assert SMALL_PRIMES[i] == SMALL_PRIMES[..10][i] && SMALL_PRIMES[m] == SMALL_PRIMES[..10][m];
  }

  /** The test as called: |X| is 0 or 1, is 2, has a small factor, or goes through the rounds. Above
      997 it accepts exactly the numbers that have no divisor up to 997, are strong to every base
      drawn, and for which a base could be drawn in every round. */
  method IsPrimeExt(X: Mpi, rounds: nat, draw: nat -> Byte, stray: nat -> Limb) returns (ret: int, gaveUp: bool)
    ensures ret == 0 || ret == ERR_NOT_ACCEPTABLE
    ensures gaveUp ==> ret == ERR_NOT_ACCEPTABLE && Abs(X.V()) > 997
    ensures IsPrime(Abs(X.V())) ==> ret == 0 || gaveUp
    ensures Abs(X.V()) <= 997 ==> (ret == 0 <==> IsPrime(Abs(X.V())))
    ensures Abs(X.V()) > 997 ==>
      var x := Abs(X.V());
      var bases := DrawnBases(x, |X.p|, draw, stray, 0, rounds);
      var suspect := NoSmallDivisor(x) && AllStrong(x, bases);
      (ret == 0 <==> suspect && |bases| == rounds) && (gaveUp <==> suspect && |bases| < rounds)
      && (IsPrime(x) ==> suspect)
  {
    hide Nat, IsPrime, Strong, NoSmallDivisor, DrawnBases;
    var XX := new Mpi();
    XX.p := X.p;
    ghost var x := Abs(X.V());
    assert XX.V() == x;
    gaveUp := false;
    var c0 := CmpInt(XX, 0);
    var c1 := CmpInt(XX, 1);
    if c0 == 0 || c1 == 0 {
      TinyNumbers();
      return ERR_NOT_ACCEPTABLE, false;
    }
    var c2 := CmpInt(XX, 2);
    if c2 == 0 {
      TinyNumbers();
      return 0, false;
    }
    OneLimbAtLeast(XX.p);
    var sf := CheckSmallFactors(XX);
    if sf != 0 {
      return if sf == 1 then 0 else sf, false;
    }
    var v;
    ret, v := RunMillerRabin(XX, rounds, draw, stray);
    gaveUp := v.GaveUp?;
    if x > 997 { TableComplete(x); }
    PrimePassesAll(x, DrawnBases(x, |X.p|, draw, stray, 0, rounds));
  }

  lemma PrimePassesAll(x: int, bases: seq<nat>)
    requires x > 2 && x % 2 == 1 && forall b :: b in bases ==> 1 < b < x - 1
    ensures IsPrime(x) ==> AllStrong(x, bases)
  {
    hide IsPrime, Strong;
    forall b | b in bases ensures IsPrime(x) ==> Strong(x, b) {
      AnyPrimeIsStrong(x, b);
    }
  }

  lemma OneLimbAtLeast(p: seq<Limb>)
    requires Nat(p) > 0
    ensures p != []
  {
  }

  lemma TinyNumbers()
    ensures !IsPrime(0) && !IsPrime(1) && IsPrime(2)
  {
  }

  lemma AnyPrimeIsStrong(p: int, b: int)
    requires p > 2 && p % 2 == 1 && 0 < b < p
    ensures IsPrime(p) ==> Strong(p, b)
  {
    if IsPrime(p) {
      var s, r := SplitOf(p - 1);
      PrimeIsStrongProbablePrime(p, b, s, r);
    }
  }

  lemma {:induction false} SplitOf(m: nat) returns (s: nat, r: nat)
    requires m > 0
    ensures m == Pow(2, s) * r && r % 2 == 1
  {
    if m % 2 == 1 {
      s, r := 0, m;
    } else {
      s, r := SplitOf(m / 2);
      assert m == 2 * (Pow(2, s) * r) == Pow(2, s + 1) * r;
      s := s + 1;
    }
  }
}
