/** Division of a double limb by a limb, in the double-width and the half-limb form. */
module LimbDivision {
  import opened Arith
  import opened Limbs
  import opened MpiBits
  import opened MpiShift
  import opened MpiMul

  /** What both forms return: all ones on overflow, else quotient and remainder. */
  ghost predicate DivResult(u1: Limb, u0: Limb, d: Limb, q: Limb, r: Limb) {
    if d == 0 || u1 >= d then q == BASE - 1 && r == BASE - 1
    else u1 * BASE + u0 == q * d + r && r < d
  }

  method IntDivIntWide(u1: Limb, u0: Limb, d: Limb) returns (q: Limb, r: Limb)
    ensures DivResult(u1, u0, d, q, r)
  {
    if d == 0 || u1 >= d { return BASE - 1, BASE - 1; }
    var dividend := u1 * BASE + u0;
    var quotient := dividend / d;
    QuotientFits(dividend, d, quotient, dividend % d);
    if quotient > BASE - 1 { quotient := BASE - 1; }
    q := quotient;
    r := dividend - quotient * d;
  }

  lemma QuotientFits(x: int, d: int, q: int, r: int)
    requires 0 <= x < d * BASE && d > 0 && q == x / d && r == x % d
    ensures x == q * d + r && 0 <= r < d && 0 <= q < BASE
  {
    assert x == d * q + r;
    if q >= BASE {
      MulMono(BASE, q, d);
    } else if q < 0 {
      MulMono(q, -1, d);
    }
  }

  /** q with its partial remainder r0, not below the true digit of (u * HALF + w) / d. */
  ghost predicate Guess(u: nat, w: nat, d: nat, d1: nat, q: int, r0: int) {
    q >= 0 && r0 >= 0 && q * d1 + r0 == u && u * HALF + w < (q + 1) * d
  }

  /**
   * One half-limb quotient digit of Knuth's algorithm D: divide u * HALF + w by the normalised
   * divisor d = d1 * HALF + d0, given u < d.  The remainder is computed with wrap-around.
   */
  method HalfDigit(u: Limb, w: nat, d: Limb, d1: nat, d0: nat) returns (q: nat, rem: Limb)
    requires d == d1 * HALF + d0 && 0 <= d0 < HALF && HALF / 2 <= d1 < HALF
    requires u < d && w < HALF
    ensures u * HALF + w == q * d + rem && rem < d && q < HALF
  {
    hide Guess;
    DivShrinks(u, d1);
    q := u / d1;
    var r0 := u - d1 * q;
    FirstGuess(u, w, d, d1, d0, q, r0);
    while q >= HALF || q * d0 > HALF * r0 + w
      invariant Guess(u, w, d, d1, q, r0) && 0 <= q && 0 <= r0 < HALF
      decreases q
    {
      GuessTooBig(u, w, d, d1, d0, q, r0);
      q := q - 1;
      r0 := r0 + d1;
      if r0 >= HALF {
        GuessSmall(u, w, d, d1, d0, q, r0);
        break;
      }
    }
    GuessFits(u, w, d, d1, d0, q, r0);
    rem := (u * HALF + w - q * d) % BASE;
  }

  lemma FirstGuess(u: nat, w: nat, d: nat, d1: nat, d0: nat, q: int, r0: int)
    requires d == d1 * HALF + d0 && 0 < d1 < HALF && q == u / d1 && r0 == u - d1 * q && w < HALF
    ensures Guess(u, w, d, d1, q, r0) && r0 < d1
  {
    assert u == d1 * q + u % d1;
    if q < 0 { MulMono(q, -1, d1); }
    assert u + 1 <= (q + 1) * d1;
    assert (q + 1) * d == (q + 1) * d1 * HALF + (q + 1) * d0;
    MulMono(0, q + 1, d0);
  }

  /** A guess that fails the test is above the true digit. */
  lemma GuessTooBig(u: nat, w: nat, d: nat, d1: nat, d0: nat, q: nat, r0: nat)
    requires d == d1 * HALF + d0 && Guess(u, w, d, d1, q, r0) && u < d && w < HALF
    requires q >= HALF || q * d0 > HALF * r0 + w
    ensures q > 0 && Guess(u, w, d, d1, q - 1, r0 + d1)
  {
    if q >= HALF {
      MulMono(HALF, q, d);
    } else {
      GuessValue(q, d, d1, d0);
      MulMono(0, q, d0);
      assert q != 0;
    }
  }

  lemma GuessValue(q: int, d: int, d1: int, d0: int)
    requires d == d1 * HALF + d0
    ensures q * d == q * d1 * HALF + q * d0
  {
  }

  /** Once the partial remainder reaches a half limb the guess is certain to fit. */
  lemma GuessSmall(u: nat, w: nat, d: nat, d1: nat, d0: nat, q: int, r0: nat)
    requires d == d1 * HALF + d0 && d1 > 0 && d0 < HALF && Guess(u, w, d, d1, q, r0) && u < d
    requires r0 >= HALF
    ensures q < HALF && q * d0 <= HALF * r0 + w
  {
    if q >= HALF { MulMono(HALF, q, d1); }
    MulMono(q, HALF, d0);
  }

  /** A guess that passes the test is the true digit. */
  lemma GuessFits(u: nat, w: nat, d: nat, d1: nat, d0: nat, q: nat, r0: nat)
    requires d == d1 * HALF + d0 && Guess(u, w, d, d1, q, r0) && q * d0 <= HALF * r0 + w
    ensures 0 <= u * HALF + w - q * d < d
  {
    GuessValue(q, d, d1, d0);
  }

  method IntDivInt(u1: Limb, u0: Limb, d: Limb) returns (q: Limb, r: Limb)
    ensures DivResult(u1, u0, d, q, r)
  {
    if d == 0 || u1 >= d { return BASE - 1, BASE - 1; }
    var s := Clz(d);
    Normalise(u1, u0, d, s);
    var dn: Limb := Shl(d, s);
    var hi: Limb := Shl(u1, s) + if s == 0 then 0 else Shr(u0, 64 - s);
    var lo: Limb := Shl(u0, s);
    var d1, d0 := dn / HALF, dn % HALF;
    var q1, rem := HalfDigit(hi, lo / HALF, dn, d1, d0);
    var q0;
    ghost var rem1 := rem;
    q0, rem := HalfDigit(rem, lo % HALF, dn, d1, d0);
    TwoDigits(hi, lo, dn, q1, q0, rem1, rem);
    q := q1 * HALF + q0;
    Denormalise(u1 * BASE + u0, d, q, rem, Pow(2, s));
    r := Shr(rem, s);
  }

  /** The shifted operands keep the quotient; the divisor's top bit becomes set. */
  lemma Normalise(u1: Limb, u0: Limb, d: Limb, s: nat)
    requires 0 <= u1 < d && s < 64 && Pow(2, 63 - s) <= d < Pow(2, 64 - s)
    ensures Pow(2, s) > 0 && Shl(d, s) == d * Pow(2, s) && BASE / 2 <= Shl(d, s)
    ensures var hi := Shl(u1, s) + if s == 0 then 0 else Shr(u0, 64 - s);
            0 <= hi < Shl(d, s) && hi * BASE + Shl(u0, s) == (u1 * BASE + u0) * Pow(2, s)
  {
    hide Pow, Shl, Shr;
    ShlExact(d, s);
    ShlExact(u1, s);
    TopBitSet(d, s);
    PowPos(2, s);
    SplitLow(u0, s);
    var T, c: int := Pow(2, s), if s == 0 then 0 else Shr(u0, 64 - s);
    assert u1 * T + c < d * T by { TopDigit(d, u1, T, c); }
    assert u1 * T * BASE + u0 * T == (u1 * BASE + u0) * T by { NormaliseArith(u1, u0, T); }
  }

  /** A limb with s leading zero bits loses nothing when shifted by s. */
  lemma ShlExact(x: Limb, s: nat)
    requires s < 64 && x < Pow(2, 64 - s)
    ensures Shl(x, s) == x * Pow(2, s)
  {
    hide Pow;
    PowPos(2, s);
    PowAdd(2, 64 - s, s);
    Pow64();
    TopDigit(Pow(2, 64 - s), x, Pow(2, s), 0);
    MulMono(0, x, Pow(2, s));
    ModSmall(x * Pow(2, s), BASE);
  }

  lemma TopBitSet(d: Limb, s: nat)
    requires s < 64 && Pow(2, 63 - s) <= d
    ensures BASE / 2 <= d * Pow(2, s)
  {
    hide Pow;
    PowPos(2, s);
    PowAdd(2, 63 - s, s);
    Pow63();
    MulMono(Pow(2, 63 - s), d, Pow(2, s));
  }

  lemma SplitLow(u0: Limb, s: nat)
    requires s < 64
    ensures var c: int := if s == 0 then 0 else Shr(u0, 64 - s);
            0 <= c < Pow(2, s) && c * BASE + Shl(u0, s) == u0 * Pow(2, s)
  {
    PowPos(2, s);
    if s == 0 {
      ModSmall(u0, BASE);
    } else {
      ShlSplit(u0, s, 0);
    }
  }

  lemma NormaliseArith(u1: int, u0: int, T: int)
    ensures u1 * T * BASE + u0 * T == (u1 * BASE + u0) * T
  {
  }

  lemma Pow63()
    ensures Pow(2, 63) == BASE / 2
  {
    Pow64();
    assert Pow(2, 64) == 2 * Pow(2, 63);
  }

  lemma TwoDigits(hi: int, lo: int, d: int, q1: int, q0: int, rem1: int, rem: int)
    requires 0 <= lo < BASE && hi * HALF + lo / HALF == q1 * d + rem1
    requires rem1 * HALF + lo % HALF == q0 * d + rem
    ensures hi * BASE + lo == (q1 * HALF + q0) * d + rem
  {
    assert (q1 * HALF + q0) * d == q1 * d * HALF + q0 * d;
  }

  lemma Denormalise(x: int, d: int, q: int, rem: int, T: int)
    requires T > 0 && 0 <= rem < d * T && x * T == q * (d * T) + rem
    ensures x == q * d + rem / T && 0 <= rem / T < d
  {
    var y := x - q * d;
    assert rem == y * T by { assert q * (d * T) == q * d * T; }
    DivUnique(rem, T, y, 0);
    if y < 0 {
      MulMono(y, -1, T);
    } else if y >= d {
      MulMono(d, y, T);
    }
  }
}
