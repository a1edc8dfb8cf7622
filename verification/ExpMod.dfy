/** Sliding-window modular exponentiation. */
module ModExp {
  import opened Arith
  import opened Limbs
  import opened MpiCore
  import opened MpiBits
  import opened MpiShift
  import opened MpiAddSub
  import opened MpiMod
  import opened Montgomery
  import opened Divisibility
  import opened PrimeNumbers

  /** x is the Montgomery form of a^k: x == a^k * BASE^len mod n. */
  ghost predicate MontForm(x: int, a: int, k: nat, len: nat, n: int) {
    n > 0 && 0 <= x < n && Cong(x, Pow(a, k) * BPow(len), n)
  }

  /** The state every Montgomery call shares. */
  ghost predicate Ready(N: Mpi, mm: Limb, T: Mpi)
    reads N, T
  {
    N.p != [] && N.p[0] % 2 == 1 && NegInverse(mm, N.p[0]) && |T.p| == 2 * |N.p| + 2
  }

  lemma OddNat(p: seq<Limb>)
    requires p != [] && p[0] % 2 == 1
    ensures Nat(p) % 2 == 1 && Nat(p) > 0
  {
    NatParity(p);
  }

  /** An odd modulus lets a factor of two be cancelled. */
  lemma CancelTwo(x: int, y: int, n: int)
    requires n > 0 && n % 2 == 1 && Cong(2 * x, 2 * y, n)
    ensures Cong(x, y, n)
  {
    hide Cong;
    var k := CongElim(2 * x, 2 * y, n);
    var h := n / 2;
    assert n == 2 * h + 1;
    var j, e := k / 2, k % 2;
    assert k * n == 2 * (k * h + j) + e;
    assert e == 0;
    assert k * n == 2 * (j * n);
    CongIntro(x, y, n, k / 2);
  }

  lemma {:induction false} CancelPow2(x: int, y: int, e: nat, n: int)
    requires n > 0 && n % 2 == 1 && Cong(x * Pow(2, e), y * Pow(2, e), n)
    ensures Cong(x, y, n)
  {
    if e > 0 {
      var P := Pow(2, e - 1);
      assert x * Pow(2, e) == 2 * (x * P) && y * Pow(2, e) == 2 * (y * P);
      CancelTwo(x * P, y * P, n);
      CancelPow2(x, y, e - 1, n);
    }
  }

  lemma CancelBase(x: int, y: int, len: nat, n: int)
    requires n > 0 && n % 2 == 1 && Cong(x * BPow(len), y * BPow(len), n)
    ensures Cong(x, y, n)
  {
    BPowBits(len);
    CancelPow2(x, y, len * 64, n);
  }

  lemma MontFormMul(z: int, x: int, y: int, a: int, k: nat, l: nat, len: nat, n: int)
    requires n % 2 == 1 && MontForm(x, a, k, len, n) && MontForm(y, a, l, len, n)
    requires 0 <= z < n && Cong(z * BPow(len), x * y, n)
    ensures MontForm(z, a, k + l, len, n)
  {
    hide Pow, Cong;
    var R := BPow(len);
    CongMul(x, Pow(a, k) * R, y, Pow(a, l) * R, n);
    PowAdd(a, k, l);
    FormArith(Pow(a, k), Pow(a, l), R);
    CongTrans(z * R, x * y, Pow(a, k + l) * R * R, n);
    CancelBase(z, Pow(a, k + l) * R, len, n);
  }

  lemma FormArith(p: int, q: int, R: int)
    ensures p * R * (q * R) == p * q * R * R
  {
  }

  /** mpi_montmul seen on Montgomery forms: exponents add. */
  method FormMul(X: Mpi, Y: Mpi, N: Mpi, mm: Limb, T: Mpi, ghost a: int, ghost k: nat, ghost l: nat)
    requires T != X && T != Y && T != N && X != N && Ready(N, mm, T)
    requires |X.p| >= |N.p| + 1 && Y.p != []
    requires MontForm(Nat(X.p), a, k, |N.p|, Nat(N.p)) && MontForm(Nat(Y.p), a, l, |N.p|, Nat(N.p))
    modifies X, T
    ensures Ready(N, mm, T) && |X.p| == old(|X.p|) && X.s == old(X.s)
    ensures MontForm(Nat(X.p), a, k + l, |N.p|, Nat(N.p))
  {
    hide Pow, Nat, NegInverse;
    ghost var x, y := Nat(X.p), Nat(Y.p);
    OddNat(N.p);
    NatBound(N.p);
    var ret := MontMul(X, Y, N, mm, T);
    assert ret == 0;
    MontFormMul(Nat(X.p), x, y, a, k, l, |N.p|, Nat(N.p));
  }

  /** Square X `times` times. */
  method Squares(X: Mpi, times: nat, N: Mpi, mm: Limb, T: Mpi, ghost a: int, ghost k: nat)
    requires T != X && T != N && X != N && Ready(N, mm, T) && |X.p| >= |N.p| + 1
    requires MontForm(Nat(X.p), a, k, |N.p|, Nat(N.p))
    modifies X, T
    ensures Ready(N, mm, T) && |X.p| == old(|X.p|) && X.s == old(X.s)
    ensures k * Pow(2, times) >= 0 && MontForm(Nat(X.p), a, k * Pow(2, times), |N.p|, Nat(N.p))
  {
    hide Pow, Nat, MontForm;
    var i := 0;
    ghost var e := k;
    PowZero(2);
    while i < times
      invariant i <= times && e == k * Pow(2, i)
      invariant Ready(N, mm, T) && |X.p| == old(|X.p|) && X.s == old(X.s)
      invariant MontForm(Nat(X.p), a, e, |N.p|, Nat(N.p))
    {
      FormMul(X, X, N, mm, T, a, e, e);
      PowTwice(k, i);
      e := e + e;
      i := i + 1;
    }
  }

  lemma PowTwice(k: int, i: nat)
    ensures k * Pow(2, i) + k * Pow(2, i) == k * Pow(2, i + 1)
  {
  }

  /** The window table: entry i holds A^i in Montgomery form from half its size up. */
  ghost predicate TableOk(W: seq<Mpi>, half: nat, a: int, len: nat, n: int)
    reads W
  {
    half <= |W| && forall i :: half <= i < |W| ==> W[i].p != [] && MontForm(Nat(W[i].p), a, i, len, n)
  }

  /** W[2^(wsize-1)] by repeated squaring of W[1], then W[i] = W[i - 1] * W[1]. */
  method BuildTable(W1: Mpi, wsize: nat, N: Mpi, mm: Limb, T: Mpi, ghost a: int) returns (W: seq<Mpi>)
    requires 0 < wsize && W1 != T && W1 != N && T != N && Ready(N, mm, T)
    requires |W1.p| >= |N.p| + 1 && MontForm(Nat(W1.p), a, 1, |N.p|, Nat(N.p))
    modifies T
    ensures Ready(N, mm, T) && |W| == Pow(2, wsize) > 1 && Pow(2, wsize - 1) > 0 && W[1] == W1
    ensures forall w :: w in W ==> w == W1 || fresh(w)
    ensures TableOk(W, Pow(2, wsize - 1), a, |N.p|, Nat(N.p))
  {
    hide Pow, Nat, MontForm, TableOk;
    var j := Pow(2, wsize - 1);
    PowPos(2, wsize - 1);
    PowNext(2, wsize - 1);
    if wsize == 1 {
      PowZero(2);
      TableExtend([W1], W1, 1, a, |N.p|, Nat(N.p));
      return [W1] + [W1];
    }
    PowNext(2, wsize - 2);
    PowPos(2, wsize - 2);
    var w := new Mpi();
    Grow(w, |N.p| + 1);
    Copy(w, W1);
    Squares(w, wsize - 1, N, mm, T, a, 1);
    W := seq(j, i => W1);
    TableExtend(W, w, j, a, |N.p|, Nat(N.p));
    W := W + [w];
    var i := j + 1;
    while i < 2 * j
      modifies T
      invariant j < i <= 2 * j && |W| == i && W[1] == W1 && Ready(N, mm, T)
      invariant T !in W && forall w :: w in W ==> w == W1 || fresh(w)
      invariant TableOk(W, j, a, |N.p|, Nat(N.p))
    {
      var v := new Mpi();
      Grow(v, |N.p| + 1);
      TableAt(W, i - 1, j, a, |N.p|, Nat(N.p));
      Copy(v, W[i - 1]);
      FormMul(v, W1, N, mm, T, a, i - 1, 1);
      TableExtend(W, v, j, a, |N.p|, Nat(N.p));
      W := W + [v];
      i := i + 1;
    }
  }

  lemma TableExtend(W: seq<Mpi>, v: Mpi, half: nat, a: int, len: nat, n: int)
    requires |W| == half || TableOk(W, half, a, len, n)
    requires v.p != [] && MontForm(Nat(v.p), a, |W|, len, n)
    ensures TableOk(W + [v], half, a, len, n)
  {
  }

  lemma TableAt(W: seq<Mpi>, i: nat, half: nat, a: int, len: nat, n: int)
    requires TableOk(W, half, a, len, n) && half <= i < |W|
    ensures W[i].p != [] && MontForm(Nat(W[i].p), a, i, len, n)
  {
  }

  lemma PowNext(b: int, e: nat)
    ensures Pow(b, e + 1) == b * Pow(b, e)
  {
  }

  /**
   * The scan after e has been read from the exponent: X stands for A^k, and the nbits pending
   * window bits pv, kept left-aligned in wbits, complete k to e.
   */
  ghost predicate Scan(e: nat, k: nat, state: nat, nbits: nat, wbits: nat, pv: nat, wsize: nat) {
    wsize > 0 && nbits < wsize && (state == 0 ==> e == 0)
    && if state == 2 then
         nbits > 0 && Pow(2, nbits - 1) <= pv < Pow(2, nbits)
         && wbits == pv * Pow(2, wsize - nbits) && e == k * Pow(2, nbits) + pv
       else
         state <= 1 && nbits == 0 && wbits == 0 && pv == 0 && e == k
  }

  /** The loop body once the bit ei has been extracted. */
  method ScanBit(X: Mpi, W: seq<Mpi>, N: Mpi, mm: Limb, T: Mpi, wsize: nat, ei: nat,
                 state0: nat, nbits0: nat, wbits0: nat, ghost a: int, ghost e: nat, ghost k0: nat, ghost pv0: nat)
      returns (state: nat, nbits: nat, wbits: nat, ghost k: nat, ghost pv: nat)
    requires T != X && T != N && X != N && X !in W && T !in W && Ready(N, mm, T)
    requires |X.p| >= |N.p| + 1 && ei <= 1 && Scan(e, k0, state0, nbits0, wbits0, pv0, wsize)
    requires Pow(2, wsize - 1) >= 0 && |W| == Pow(2, wsize)
    requires TableOk(W, Pow(2, wsize - 1), a, |N.p|, Nat(N.p))
    requires MontForm(Nat(X.p), a, k0, |N.p|, Nat(N.p))
    modifies X, T
    ensures Ready(N, mm, T) && |X.p| == old(|X.p|) && X.s == old(X.s)
    ensures MontForm(Nat(X.p), a, k, |N.p|, Nat(N.p))
    ensures Scan(2 * e + ei, k, state, nbits, wbits, pv, wsize)
  {
    hide Pow, Nat, MontForm, TableOk, Scan;
    state, nbits, wbits, k, pv := state0, nbits0, wbits0, k0, pv0;
    if ei == 0 && state == 0 {
      ScanIdle(e, k, state, nbits, wbits, pv, wsize);
      return;
    }
    if ei == 0 && state == 1 {
      ScanIdle(e, k, state, nbits, wbits, pv, wsize);
      FormMul(X, X, N, mm, T, a, k, k);
      k := k + k;
      return;
    }
    ScanShape(e, k, state, nbits, wbits, pv, wsize);
    ScanPush(e, k, state, nbits, wbits, pv, wsize, ei);
    state := 2;
    nbits := nbits + 1;
    wbits := wbits + ei * Pow(2, wsize - nbits);
    pv := 2 * pv + ei;
    if nbits == wsize {
      Squares(X, wsize, N, mm, T, a, k);
      TableAt(W, wbits, Pow(2, wsize - 1), a, |N.p|, Nat(N.p));
      FormMul(X, W[wbits], N, mm, T, a, k * Pow(2, wsize), wbits);
      k := k * Pow(2, wsize) + wbits;
      state, nbits, wbits, pv := state - 1, 0, 0, 0;
      ScanFlushed(2 * e + ei, wsize);
    }
  }

  lemma ScanIdle(e: nat, k: nat, state: nat, nbits: nat, wbits: nat, pv: nat, wsize: nat)
    requires Scan(e, k, state, nbits, wbits, pv, wsize) && state <= 1
    ensures state == 0 ==> Scan(2 * e, k, state, nbits, wbits, pv, wsize)
    ensures state == 1 ==> Scan(2 * e, k + k, state, nbits, wbits, pv, wsize)
  {
  }

  lemma ScanShape(e: nat, k: nat, state: nat, nbits: nat, wbits: nat, pv: nat, wsize: nat)
    requires Scan(e, k, state, nbits, wbits, pv, wsize)
    ensures 0 < wsize && nbits < wsize && state <= 2
  {
  }

  lemma ScanFlushed(e: nat, wsize: nat)
    requires wsize > 0
    ensures Scan(e, e, 1, 0, 0, 0, wsize)
  {
  }

  /** Appending a bit to the pending window; a full window is a table index. */
  lemma ScanPush(e: nat, k: nat, state: nat, nbits: nat, wbits: nat, pv: nat, wsize: nat, ei: nat)
    requires Scan(e, k, state, nbits, wbits, pv, wsize) && ei <= 1 && (ei == 0 ==> state == 2)
    ensures Pow(2, wsize - nbits - 1) >= 0 && k * Pow(2, wsize) >= 0
    ensures var w := wbits + ei * Pow(2, wsize - nbits - 1);
            if nbits + 1 < wsize then Scan(2 * e + ei, k, 2, nbits + 1, w, 2 * pv + ei, wsize)
            else Pow(2, wsize - 1) <= w < Pow(2, wsize) && 2 * e + ei == k * Pow(2, wsize) + w
  {
    var r := wsize - nbits - 1;
    PowPos(2, r);
    PowPos(2, wsize);
    PowZero(2);
    PowNext(2, nbits);
    if state == 2 { PowNext(2, nbits - 1); }
    PowNext(2, r);
    MulMono(0, k, Pow(2, wsize));
    PushArith(pv, ei, Pow(2, r), k, Pow(2, nbits));
    assert wbits == pv * (2 * Pow(2, r));
  }

  lemma PushArith(pv: int, ei: int, P: int, k: int, Q: int)
    ensures pv * (2 * P) + ei * P == (2 * pv + ei) * P
    ensures 2 * (k * Q + pv) + ei == k * (2 * Q) + (2 * pv + ei)
  {
  }

  /** Read the exponent from its top bit down, then process the bits left in the window. */
  method ScanExponent(X: Mpi, W: seq<Mpi>, E: Mpi, N: Mpi, mm: Limb, T: Mpi, wsize: nat, ghost a: int)
    requires T != X && T != N && X != N && X !in W && T !in W && Ready(N, mm, T) && E != X && E != T
    requires |X.p| >= |N.p| + 1 && wsize > 0
    requires Pow(2, wsize - 1) >= 0 && |W| == Pow(2, wsize) && |W| > 1
    requires TableOk(W, Pow(2, wsize - 1), a, |N.p|, Nat(N.p))
    requires W[1].p != [] && MontForm(Nat(W[1].p), a, 1, |N.p|, Nat(N.p))
    requires MontForm(Nat(X.p), a, 0, |N.p|, Nat(N.p))
    modifies X, T
    ensures Ready(N, mm, T) && |X.p| == old(|X.p|) && X.s == old(X.s)
    ensures MontForm(Nat(X.p), a, Nat(E.p), |N.p|, Nat(N.p))
  {
    hide Pow, Nat, MontForm, TableOk, Scan;
    var nblimbs: nat, bufsize: nat := |E.p|, 0;
    var nbits, wbits, state := 0, 0, 0;
    ghost var e, k, pv := 0, 0, 0;
    ScanStart(wsize);
    AllBitsRead(E.p);
    while !(bufsize == 0 && nblimbs == 0)
      modifies X, T
      invariant nblimbs <= |E.p| && bufsize < 64 && (bufsize > 0 ==> nblimbs < |E.p|)
      invariant Pow(2, 64 * nblimbs + bufsize) > 0 && e == Nat(E.p) / Pow(2, 64 * nblimbs + bufsize)
      invariant Scan(e, k, state, nbits, wbits, pv, wsize)
      invariant Ready(N, mm, T) && |X.p| == old(|X.p|) && X.s == old(X.s)
      invariant MontForm(Nat(X.p), a, k, |N.p|, Nat(N.p))
      decreases 64 * nblimbs + bufsize
    {
      if bufsize == 0 {
        nblimbs := nblimbs - 1;
        bufsize := 64;
      }
      bufsize := bufsize - 1;
      var ei := if BitSet(E.p[nblimbs], bufsize) then 1 else 0;
      NextBit(E.p, nblimbs, bufsize);
      state, nbits, wbits, k, pv :=
        ScanBit(X, W, N, mm, T, wsize, ei, state, nbits, wbits, a, e, k, pv);
      e := 2 * e + ei;
    }
    PowZero(2);
    DivUnique(Nat(E.p), 1, Nat(E.p), 0);
    DrainWindow(X, W[1], N, mm, T, wsize, state, nbits, wbits, a, e, k, pv);
  }

  lemma ScanStart(wsize: nat)
    requires wsize > 0
    ensures Scan(0, 0, 0, 0, 0, 0, wsize)
  {
  }

  lemma AllBitsRead(p: seq<Limb>)
    ensures Pow(2, 64 * |p|) > 0 && Nat(p) / Pow(2, 64 * |p|) == 0
  {
    NatBound(p);
    BPowBits(|p|);
    BPowPos(|p|);
    DivUnique(Nat(p), BPow(|p|), 0, Nat(p));
  }

  /** Bit j of limb i is bit 64 * i + j of the number. */
  lemma NextBit(p: seq<Limb>, i: nat, j: nat)
    requires i < |p| && j < 64
    ensures Pow(2, 64 * i + j) > 0 && Pow(2, 64 * i + j + 1) > 0
    ensures Nat(p) / Pow(2, 64 * i + j)
         == 2 * (Nat(p) / Pow(2, 64 * i + j + 1)) + if BitSet(p[i], j) then 1 else 0
  {
    hide Pow, Nat, BitSet;
    var q := BitsFrom(p, i, j);
    PowPos(2, 64 * i + j + 1);
    PowNext(2, 64 * i + j);
    DivDiv(Nat(p), Pow(2, 64 * i + j), 2, q / 2, q % 2);
  }

  lemma BitsFrom(p: seq<Limb>, i: nat, j: nat) returns (q: int)
    requires i < |p| && j < 64
    ensures Pow(2, 64 * i + j) > 0 && Nat(p) / Pow(2, 64 * i + j) == q
    ensures q % 2 == if BitSet(p[i], j) then 1 else 0
  {
    hide Pow, Nat, BitSet;
    NatDrop(p, i);
    LowDigit(p[i..]);
    var m := Nat(p[i..]);
    q := HighBits(p[i], m / BASE, m, j);
    BPowBits(i);
    PowAdd(2, 64 * i, j);
    DivDiv(Nat(p), BPow(i), Pow(2, j), q, m % Pow(2, j));
  }

  lemma HighBits(x: Limb, h: nat, m: nat, j: nat) returns (q: int)
    requires j < 64 && m % BASE == x && m / BASE == h
    ensures Pow(2, j) > 0 && m == Pow(2, j) * q + m % Pow(2, j)
    ensures q % 2 == if BitSet(x, j) then 1 else 0
  {
    hide Pow;
    PowPos(2, j);
    var P, M := Pow(2, j), Pow(2, 63 - j);
    assert BASE == 2 * (M * P) by { Pow64(); PowNext(2, 63); PowAdd(2, 63 - j, j); }
    q := x / P + 2 * (M * h);
    OddFactor(x / P, P, M, h);
    DivUnique(m, P, q, x % P);
  }

  /** Process the remaining bits of an unfinished window. */
  method DrainWindow(X: Mpi, W1: Mpi, N: Mpi, mm: Limb, T: Mpi, wsize: nat, ghost state: nat, nbits: nat, wbits0: nat,
                     ghost a: int, ghost e: nat, ghost k0: nat, ghost pv: nat)
    requires T != X && T != N && X != N && X != W1 && T != W1 && Ready(N, mm, T)
    requires |X.p| >= |N.p| + 1 && Scan(e, k0, state, nbits, wbits0, pv, wsize)
    requires W1.p != [] && MontForm(Nat(W1.p), a, 1, |N.p|, Nat(N.p))
    requires MontForm(Nat(X.p), a, k0, |N.p|, Nat(N.p))
    modifies X, T
    ensures Ready(N, mm, T) && |X.p| == old(|X.p|) && X.s == old(X.s)
    ensures MontForm(Nat(X.p), a, e, |N.p|, Nat(N.p))
  {
    hide Pow, Nat, MontForm, Drain;
    var i, wbits := 0, wbits0;
    ghost var k := k0;
    DrainStart(e, k, state, nbits, wbits, pv, wsize);
    while i < nbits
      modifies X, T
      invariant i <= nbits && Drain(e, k, i, nbits, wbits, wsize)
      invariant Ready(N, mm, T) && |X.p| == old(|X.p|) && X.s == old(X.s)
      invariant MontForm(Nat(X.p), a, k, |N.p|, Nat(N.p))
    {
      FormMul(X, X, N, mm, T, a, k, k);
      DrainStep(e, k, i, nbits, wbits, wsize);
      wbits := 2 * wbits;
      k := k + k;
      if BitSet(wbits, wsize) {
        FormMul(X, W1, N, mm, T, a, k, 1);
        k := k + 1;
      }
      i := i + 1;
    }
    DrainDone(e, k, nbits, wbits, wsize);
  }

  /**
   * i of the nbits pending bits are in k; the others, `rest`, are the bits of wbits just below
   * position wsize, and what has been shifted beyond it is `out`.
   */
  ghost predicate Drain(e: nat, k: nat, i: nat, nbits: nat, wbits: nat, wsize: nat) {
    i <= nbits <= wsize && exists rest: nat, out: nat :: DrainParts(e, k, i, nbits, wbits, wsize, rest, out)
  }

  ghost predicate DrainParts(e: nat, k: nat, i: nat, nbits: nat, wbits: nat, wsize: nat, rest: nat, out: nat)
    requires i <= nbits <= wsize
  {
    rest < Pow(2, nbits - i) && e == k * Pow(2, nbits - i) + rest
    && wbits == out * Pow(2, wsize) + rest * Pow(2, wsize - (nbits - i))
  }

  lemma DrainStart(e: nat, k: nat, state: nat, nbits: nat, wbits: nat, pv: nat, wsize: nat)
    requires Scan(e, k, state, nbits, wbits, pv, wsize)
    ensures Drain(e, k, 0, nbits, wbits, wsize)
  {
    PowZero(2);
    assert DrainParts(e, k, 0, nbits, wbits, wsize, pv, 0);
  }

  lemma DrainStep(e: nat, k: nat, i: nat, nbits: nat, wbits: nat, wsize: nat)
    requires Drain(e, k, i, nbits, wbits, wsize) && i < nbits
    ensures Drain(e, if BitSet(2 * wbits, wsize) then k + k + 1 else k + k, i + 1, nbits, 2 * wbits, wsize)
  {
    hide DrainParts, BitSet;
    var rest: nat, out: nat :| DrainParts(e, k, i, nbits, wbits, wsize, rest, out);
    var b, rest' := DrainOnce(e, k, i, nbits, wbits, wsize, rest, out);
  }

  lemma DrainOnce(e: nat, k: nat, i: nat, nbits: nat, wbits: nat, wsize: nat, rest: nat, out: nat)
      returns (b: nat, rest': nat)
    requires i < nbits <= wsize && DrainParts(e, k, i, nbits, wbits, wsize, rest, out)
    ensures b == if BitSet(2 * wbits, wsize) then 1 else 0
    ensures DrainParts(e, k + k + b, i + 1, nbits, 2 * wbits, wsize, rest', 2 * out + b)
  {
    hide Pow, BitSet;
    var r := nbits - i - 1;
    var P := Pow(2, r);
    PowPos(2, r);
    PowNext(2, r);
    var c, d := rest / P, rest % P;
    assert rest == c * P + d && 0 <= d < P;
    BitIsOne(c, d, P);
    b, rest' := c, d;
    DrainExponent(k, b, d, P);
    DrainWord(wbits, wsize, out, rest, b, d, r);
  }

  /** Doubling the window word moves its top pending bit to position wsize. */
  lemma DrainWord(wbits: nat, wsize: nat, out: nat, rest: nat, b: nat, d: nat, r: nat)
    requires r < wsize && rest == b * Pow(2, r) + d && d < Pow(2, r) && b <= 1
    requires wbits == out * Pow(2, wsize) + rest * Pow(2, wsize - (r + 1))
    ensures 2 * wbits == (2 * out + b) * Pow(2, wsize) + d * Pow(2, wsize - r)
    ensures b == if BitSet(2 * wbits, wsize) then 1 else 0
  {
    hide Pow, BitSet;
    var P, S := Pow(2, r), Pow(2, wsize - (r + 1));
    PowPos(2, wsize - (r + 1));
    PowNext(2, wsize - (r + 1));
    assert Pow(2, wsize) == P * (2 * S) by { PowAdd(2, r, wsize - r); }
    DrainArith(out, b, d, P, S);
    DrainBit(2 * wbits, wsize, 2 * out + b, d * (2 * S), d, P, 2 * S);
  }

  lemma BitIsOne(b: int, r: int, P: int)
    requires 0 <= b * P + r < 2 * P && 0 <= r < P
    ensures b == 0 || b == 1
  {
    if b >= 2 {
      MulMono(2, b, P);
    } else if b < 0 {
      MulMono(b, -1, P);
    }
  }

  lemma DrainArith(out: int, b: int, r: int, P: int, S: int)
    ensures 2 * (out * (P * (2 * S)) + (b * P + r) * S) == (2 * out + b) * (P * (2 * S)) + r * (2 * S)
  {
    assert out * (P * (2 * S)) * 2 == 2 * out * (P * (2 * S));
    assert (b * P + r) * S * 2 == b * (P * (2 * S)) + r * (2 * S);
  }

  lemma DrainBit(w: nat, wsize: nat, h: nat, low: int, r: int, P: int, Q: int)
    requires Pow(2, wsize) == P * Q && 0 <= r < P && Q > 0 && low == r * Q && w == h * Pow(2, wsize) + low
    ensures BitSet(w, wsize) <==> h % 2 == 1
  {
    hide Pow;
    PowPos(2, wsize);
    TopDigit(P, r, Q, 0);
    MulMono(0, r, Q);
    DivUnique(w, Pow(2, wsize), h, low);
  }

  lemma DrainExponent(k: int, b: int, r: int, P: int)
    ensures k * (2 * P) + (b * P + r) == (k + k + b) * P + r
  {
  }

  lemma DrainDone(e: nat, k: nat, nbits: nat, wbits: nat, wsize: nat)
    requires Drain(e, k, nbits, nbits, wbits, wsize)
    ensures e == k
  {
    PowZero(2);
  }

  /** The window size chosen from the exponent's bit length. */
  function WindowSize(bits: nat): nat {
    if bits > 671 then 6 else if bits > 239 then 5 else if bits > 79 then 4 else if bits > 23 then 3 else 1
  }

  /** What a cached helper value must be: R^2 mod N for this N. */
  ghost predicate IsRR(RR: Mpi, N: Mpi)
    reads RR, N
  {
    N.V() > 0 && RR.p != [] && RR.V() == BPow(2 * |N.p|) % N.V()
  }

  method PrepareRR(cache: Mpi?, N: Mpi) returns (RR: Mpi)
    requires cache != N && N.V() > 0 && (cache != null && cache.p != [] ==> IsRR(cache, N))
    modifies if cache == null then {} else {cache}
    ensures IsRR(RR, N) && (cache == null ==> fresh(RR)) && (cache != null ==> RR == cache)
  {
    hide Pow, Nat;
    if cache == null || cache.p == [] {
      if cache == null { RR := new Mpi(); } else { RR := cache; }
      Lset(RR, 1);
      ShiftL(RR, |N.p| * 2 * 64);
      var _ := ModMpi(RR, RR, N);
      BPowBits(2 * |N.p|);
    } else {
      RR := cache;
    }
  }

  /** W[1] = A * R^2 * R^-1 = A * R mod N. */
  method FirstForm(W1: Mpi, A: Mpi, RR: Mpi, N: Mpi, mm: Limb, T: Mpi)
    requires W1 != A && W1 != RR && W1 != N && T != W1 && T != A && T != RR && T != N
    requires Ready(N, mm, T) && N.s == 1 && IsRR(RR, N) && A.s == 1 && A.p != [] && |W1.p| >= |N.p| + 1
    modifies W1, T
    ensures Ready(N, mm, T) && |W1.p| >= |N.p| + 1
    ensures MontForm(Nat(W1.p), Nat(A.p), 1, |N.p|, Nat(N.p))
  {
    hide Pow, Nat, NegInverse;
    OddNat(N.p);
    ghost var n, a := Nat(N.p), Nat(A.p);
    LoadReduced(W1, A, N);
    ghost var w := Nat(W1.p);
    NatBound(N.p);
    RRForm(RR, N);
    var _ := MontMul(W1, RR, N, mm, T);
    CongMod(a, n);
    PowOne(a);
    InitialForm(Nat(W1.p), w, Nat(RR.p), a, 1, |N.p|, n);
  }

  method LoadReduced(W1: Mpi, A: Mpi, N: Mpi)
    requires W1 != A && W1 != N && A.s == 1 && A.p != [] && N.V() > 0
    modifies W1
    ensures Nat(W1.p) == Nat(A.p) % N.V() && |W1.p| >= old(|W1.p|)
  {
    hide Pow, Nat;
    var cmp := CmpMpi(A, N);
    if cmp >= 0 {
      var _ := ModMpi(W1, A, N);
      CongMod(A.V(), N.V());
    } else {
      Copy(W1, A);
      ModSmall(A.V(), N.V());
    }
  }

  lemma PowOne(a: int)
    ensures Pow(a, 1) == a
  {
    assert Pow(a, 1) == a * Pow(a, 0);
  }

  lemma RRForm(RR: Mpi, N: Mpi)
    requires IsRR(RR, N) && N.s == 1
    ensures Nat(N.p) > 0 && Nat(RR.p) < Nat(N.p)
    ensures Cong(Nat(RR.p), BPow(|N.p|) * BPow(|N.p|), Nat(N.p))
  {
    BPowAdd(|N.p|, |N.p|);
    CongMod(BPow(2 * |N.p|), Nat(N.p));
  }

  /** A reduced product with R^2 is a Montgomery form. */
  lemma InitialForm(z: int, w: int, rr: int, a: int, k: nat, len: nat, n: int)
    requires n > 0 && n % 2 == 1 && 0 <= z < n && Cong(w, Pow(a, k), n)
    requires Cong(rr, BPow(len) * BPow(len), n) && Cong(z * BPow(len), w * rr, n)
    ensures MontForm(z, a, k, len, n)
  {
    hide Pow, Cong;
    var R := BPow(len);
    CongMul(w, Pow(a, k), rr, R * R, n);
    Assoc(Pow(a, k), R, R);
    CongTrans(z * R, w * rr, Pow(a, k) * R * R, n);
    CancelBase(z, Pow(a, k) * R, len, n);
  }

  /** X = R^2 * R^-1 = R mod N. */
  method UnitForm(X: Mpi, RR: Mpi, N: Mpi, mm: Limb, T: Mpi, ghost a: int)
    requires X != RR && X != N && T != X && T != RR && T != N && |X.p| >= |N.p| + 1
    requires Ready(N, mm, T) && N.s == 1 && IsRR(RR, N)
    modifies X, T
    ensures Ready(N, mm, T) && |X.p| >= |N.p| + 1 && X.s == RR.s
    ensures MontForm(Nat(X.p), a, 0, |N.p|, Nat(N.p))
  {
    hide Pow, Nat, NegInverse;
    OddNat(N.p);
    NatBound(N.p);
    RRForm(RR, N);
    Copy(X, RR);
    var _ := MontRed(X, N, mm, T);
    PowZero(a);
    InitialForm(Nat(X.p), 1, Nat(RR.p), a, 0, |N.p|, Nat(N.p));
  }

  /** The value left in X: for an odd power of a negative base the complement to N. */
  function ExpValue(neg: bool, a: nat, e: nat, n: int): int
    requires n > 0
  {
    if neg && e % 2 == 1 then n - Pow(a, e) % n else Pow(a, e) % n
  }

  /** Both paths to the main loop: errors first, then the scan, then the sign correction. */
  method ExpMod(X: Mpi, A: Mpi, E: Mpi, N: Mpi, cache: Mpi?) returns (ret: int)
    requires X != E && X != N && A.p != []
    requires cache != X && cache != A && cache != E && cache != N
    requires N.V() > 0 && cache != null && cache.p != [] ==> IsRR(cache, N)
    modifies X, if cache == null then {} else {cache}
    ensures ret == if old(N.V() <= 0 || N.V() % 2 == 0 || E.V() < 0) then ERR_BAD_INPUT_DATA else 0
    ensures ret == 0 ==>
      X.V() == old(ExpValue(A.s == -1, Nat(A.p), Nat(E.p), if N.V() > 0 then N.V() else 1))
    ensures ret == 0 && cache != null ==> IsRR(cache, N)
    ensures ret != 0 ==> unchanged(X) && (cache != null ==> unchanged(cache))
  {
    hide Pow, Nat, NegInverse;
    var cmp := CmpInt(N, 0);
    if cmp > 0 { OneLimb(N.p); NatParity(N.p); }
    if cmp <= 0 || N.p[0] % 2 == 0 { return ERR_BAD_INPUT_DATA; }
    cmp := CmpInt(E, 0);
    if cmp < 0 { return ERR_BAD_INPUT_DATA; }
    var mm := MontgInit(N);
    var j := |N.p| + 1;
    Grow(X, j);
    var T := new Mpi();
    Grow(T, j * 2);
    var neg := A.s == -1;
    var Apos := Magnitude(A);
    ExpCore(X, Apos, E, N, cache, mm, T, neg);
    ret := 0;
  }

  /** A itself, or a positive copy of a negative A. */
  method Magnitude(A: Mpi) returns (Apos: Mpi)
    requires A.p != []
    ensures Apos == A || fresh(Apos)
    ensures Apos.p != [] && Apos.s == 1 && Nat(Apos.p) == Nat(A.p)
  {
    Apos := A;
    if A.s == -1 {
      Apos := new Mpi();
      Copy(Apos, A);
      Apos.s := 1;
    }
  }

  /** The computation proper, for a non-negative base in A. */
  method ExpCore(X: Mpi, A: Mpi, E: Mpi, N: Mpi, cache: Mpi?, mm: Limb, T: Mpi, neg: bool)
    requires X != E && X != N && A.p != [] && A.s == 1
    requires cache != X && cache != A && cache != E && cache != N
    requires T != X && T != A && T != E && T != N && T != cache
    requires Ready(N, mm, T) && N.V() > 0 && |X.p| >= |N.p| + 1
    requires cache != null && cache.p != [] ==> IsRR(cache, N)
    modifies X, T, if cache == null then {} else {cache}
    ensures X.V() == ExpValue(neg, old(Nat(A.p)), Nat(E.p), N.V())
    ensures cache != null ==> IsRR(cache, N)
  {
    hide Pow, Nat, NegInverse, IsRR, MontForm, Ready, ExpValue;
    ghost var a := Nat(A.p);
    var RR := PrepareRR(cache, N);
    var W1 := new Mpi();
    Grow(W1, |N.p| + 1);
    FirstForm(W1, A, RR, N, mm, T);
    ReadyOdd(N, mm, T);
    RRSign(RR, N);
    UnitForm(X, RR, N, mm, T, a);
    ScanWithTable(X, W1, E, N, mm, T, a);
    FinishExp(X, E, N, mm, T, neg, a);
  }

  lemma ReadyOdd(N: Mpi, mm: Limb, T: Mpi)
    requires Ready(N, mm, T)
    ensures N.V() % 2 == 1
  {
    NatParity(N.p);
    if N.s != 1 { NegMod(Nat(N.p), 2); }
  }

  method ScanWithTable(X: Mpi, W1: Mpi, E: Mpi, N: Mpi, mm: Limb, T: Mpi, ghost a: int)
    requires X != N && X != E && X != W1 && T != X && T != N && T != E && T != W1 && W1 != N
    requires Ready(N, mm, T) && |X.p| >= |N.p| + 1 && |W1.p| >= |N.p| + 1
    requires MontForm(Nat(W1.p), a, 1, |N.p|, Nat(N.p)) && MontForm(Nat(X.p), a, 0, |N.p|, Nat(N.p))
    modifies X, T
    ensures Ready(N, mm, T) && |X.p| == old(|X.p|) && X.s == old(X.s)
    ensures MontForm(Nat(X.p), a, Nat(E.p), |N.p|, Nat(N.p))
  {
    hide Pow, Nat, MontForm, TableOk, Ready;
    var bits := BitLen(E);
    var wsize := WindowSize(bits);
    var W := BuildTable(W1, wsize, N, mm, T, a);
    ScanExponent(X, W, E, N, mm, T, wsize, a);
  }

  /** X = A^E * R * R^-1, then N - X when an odd power of a negative base was taken. */
  method FinishExp(X: Mpi, E: Mpi, N: Mpi, mm: Limb, T: Mpi, neg: bool, ghost a: int)
    requires X != E && X != N && T != X && T != E && T != N && |X.p| >= |N.p| + 1
    requires Ready(N, mm, T) && N.s == 1 && (X.s == 1 || N.V() == 1)
    requires MontForm(Nat(X.p), a, Nat(E.p), |N.p|, Nat(N.p)) && a >= 0
    modifies X, T
    ensures N.V() > 0 && X.V() == ExpValue(neg, a, Nat(E.p), N.V())
  {
    hide Pow, Nat, NegInverse;
    OddNat(N.p);
    NatBound(N.p);
    ghost var x := Nat(X.p);
    var _ := MontRed(X, N, mm, T);
    PlainForm(Nat(X.p), x, a, Nat(E.p), |N.p|, N.V());
    if |E.p| > 0 { NatParity(E.p); } else { NatEmpty(E.p); assert E.p == E.p[..0]; }
    if neg && |E.p| != 0 && E.p[0] % 2 != 0 {
      X.s := 0 - 1;
      AddMpi(X, N, X);
    }
  }

  lemma PlainForm(z: int, x: int, a: int, e: nat, len: nat, n: int)
    requires n > 0 && n % 2 == 1 && MontForm(x, a, e, len, n) && 0 <= z < n
    requires Cong(z * BPow(len), x, n)
    ensures z == Pow(a, e) % n
  {
    CongTrans(z * BPow(len), x, Pow(a, e) * BPow(len), n);
    CancelBase(z, Pow(a, e), len, n);
    CongSmall(z, Pow(a, e), n);
  }

  /** R^2 is 0 only modulo 1. */
  lemma RRSign(RR: Mpi, N: Mpi)
    requires IsRR(RR, N) && N.V() % 2 == 1
    ensures RR.s == 1 || N.V() == 1
  {
    var n := N.V();
    if RR.V() == 0 {
      var R := BPow(2 * |N.p|);
      CongMod(R, n);
      ModSmall(0, n);
      assert Cong(1 * R, 0 * R, n);
      CancelBase(1, 0, 2 * |N.p|, n);
      if n > 1 { ModSmall(1, n); }
    }
  }

  /** ExpValue is congruent to A^E; it is the residue itself except where an odd power of a negative
      base is a multiple of N, which comes out as N in place of 0. */
  lemma ExpValueIsPower(neg: bool, a: int, e: nat, n: int)
    requires n > 0 && a >= 0
    ensures var A: int := if neg then -a else a;
            Cong(ExpValue(neg, a, e, n), Pow(A, e), n)
            && (ExpValue(neg, a, e, n) == Pow(A, e) % n <==> !(neg && e % 2 == 1 && Pow(a, e) % n == 0))
  {
    var A: int := if neg then -a else a;
    var r := Pow(a, e) % n;
    CongMod(Pow(a, e), n);
    if neg {
      PowNegBase(a, e);
      if e % 2 == 1 {
        CongScale(r, Pow(a, e), -1, n);
        CongIntro(n - r, -r, n, 1);
        CongTrans(n - r, -r, Pow(A, e), n);
      }
    }
    var v := ExpValue(neg, a, e, n);
    CongMod(Pow(A, e), n);
    if 0 <= v < n { CongSmall(v, Pow(A, e), n); }
  }

  /** For a prime modulus the exception is told from the arguments: A negative, E odd, N | A. */
  lemma ExpValuePrime(neg: bool, a: int, e: nat, n: int)
    requires IsPrime(n) && a >= 0
    ensures var A: int := if neg then -a else a;
            ExpValue(neg, a, e, n) == Pow(A, e) % n <==> !(neg && e % 2 == 1 && Divides(n, a))
  {
    hide Pow, IsPrime, ExpValue;
    PrimePositive(n);
    ExpValueIsPower(neg, a, e, n);
    if e % 2 == 1 {
      PowerDivides(n, a, e);
    }
  }

  lemma PrimePositive(n: int)
    requires IsPrime(n)
    ensures n > 1
  {}

  /** A prime divides a power exactly if it divides the base. */
  lemma {:induction false} PowerDivides(n: int, a: int, e: nat)
    requires IsPrime(n) && e > 0
    ensures n > 0 && (Pow(a, e) % n == 0 <==> Divides(n, a))
  {
    hide IsPrime;
    PrimePositive(n);
    if e == 1 {
      PowZero(a);
      assert Pow(a, 1) == a;
    } else {
      PowerDivides(n, a, e - 1);
      if Divides(n, a) {
        DividesMul(n, a, Pow(a, e - 1));
      } else if Divides(n, a * Pow(a, e - 1)) {
        EuclidLemma(n, a, Pow(a, e - 1));
      }
    }
  }

  /** The exception occurs: (-N)^1 mod N is 0, and N is returned. */
  lemma ExpValueWitness(n: int)
    requires n > 0
    ensures ExpValue(true, n, 1, n) == n && Pow(-n, 1) % n == 0
  {
    PowZero(n);
    PowZero(-n);
    assert Pow(n, 1) == n && Pow(-n, 1) == -n;
    DivUnique(n, n, 1, 0);
    DivUnique(-n, n, -1, 0);
  }

  lemma {:induction false} PowNegBase(a: int, e: nat)
    ensures Pow(-a, e) == if e % 2 == 1 then -Pow(a, e) else Pow(a, e)
  {
    if e > 0 {
      PowNegBase(a, e - 1);
      assert -a * Pow(a, e - 1) == -(a * Pow(a, e - 1));
      assert -a * -Pow(a, e - 1) == a * Pow(a, e - 1);
    }
  }

  lemma OneLimb(p: seq<Limb>)
    requires Nat(p) > 0
    ensures p != []
  {
  }
}
