/** Bit counts and shifts of multi-precision integers. */
module MpiBits {
  import opened Arith
  import opened Limbs
  import opened MpiCore

  /** Bit j of a limb, the test (x >> j) & 1. */
  predicate BitSet(x: int, j: nat) {
    PowPos(2, j);
    x / Pow(2, j) % 2 == 1
  }

  method Clz(x: Limb) returns (j: nat)
    ensures j <= 64
    ensures if x == 0 then j == 64 else j < 64 && Pow(2, 63 - j) <= x < Pow(2, 64 - j)
  {
    j := 0;
    Pow64();
    while j < 64
      invariant j <= 64 && x < Pow(2, 64 - j)
    {
      BitTop(x, 63 - j);
      if BitSet(x, 63 - j) { break; }
      j := j + 1;
    }
  }

  method BitLen(X: Mpi) returns (n: nat)
    ensures Nat(X.p) < Pow(2, n) && (n > 0 ==> Pow(2, n - 1) <= Nat(X.p))
    ensures n <= 64 * |X.p|
  {
    if |X.p| == 0 { return 0; }
    var i := UsedLimbs(X.p);
    i := if i == 0 then 0 else i - 1;
    var j := Clz(X.p[i]);
    UsedSuffix(X.p, i + 1);
    NatSnoc(X.p, i);
    NatBound(X.p[..i]);
    assert j == 64 ==> Pow(2, 0) == 1;
    BitLenValue(Nat(X.p[..i]), X.p[i], i, 64 - j);
    n := i * 64 + (64 - j);
  }

  lemma BitLenValue(low: nat, x: Limb, i: nat, m: nat)
    requires low < BPow(i) && m <= 64
    requires x < Pow(2, m) && (m > 0 ==> Pow(2, m - 1) <= x)
    requires m == 0 ==> i == 0
    ensures low + x * BPow(i) < Pow(2, i * 64 + m)
    ensures i * 64 + m > 0 ==> Pow(2, i * 64 + m - 1) <= low + x * BPow(i)
  {
    BPowBits(i);
    PowAdd(2, i * 64, m);
    TopDigit(Pow(2, m), x, BPow(i), low);
    if m > 0 {
      PowAdd(2, i * 64, m - 1);
      MulMono(Pow(2, m - 1), x, BPow(i));
    }
  }

  lemma Pow64()
    ensures Pow(2, 64) == BASE
  {
    PowAdd(2, 8, 8);
    PowAdd(2, 16, 16);
    PowAdd(2, 32, 32);
  }

  lemma {:induction false} BPowBits(i: nat)
    ensures BPow(i) == Pow(2, i * 64)
  {
    if i > 0 {
      BPowBits(i - 1);
      Pow64();
      PowAdd(2, 64, (i - 1) * 64);
    }
  }

  lemma BitTop(x: nat, k: nat)
    requires x < Pow(2, k + 1)
    ensures Pow(2, k) > 0
    ensures BitSet(x, k) <==> Pow(2, k) <= x
  {
    PowPos(2, k);
    var P := Pow(2, k);
    assert Pow(2, k + 1) == 2 * P;
    if x < P {
      DivUnique(x, P, 0, x);
    } else {
      DivUnique(x, P, 1, x - P);
    }
  }

  /** Trailing zero bits, 0 for the number zero. */
  method Lsb(X: Mpi) returns (count: nat)
    ensures Nat(X.p) == 0 ==> count == 0
    ensures Nat(X.p) != 0 ==> Pow(2, count) > 0 && Nat(X.p) % Pow(2, count) == 0
                              && Nat(X.p) / Pow(2, count) % 2 == 1
  {
    var i := 0;
    count := 0;
    while i < |X.p|
      invariant i <= |X.p| && count == 64 * i
      invariant X.p[..i] == Zeros(i)
    {
      var j := 0;
      while j < 64
        invariant j <= 64 && count == 64 * i + j
        invariant Pow(2, j) > 0 && X.p[i] % Pow(2, j) == 0
      {
        if BitSet(X.p[i], j) {
          LsbAt(X.p, i, j);
          return;
        }
        LowBitsStep(X.p[i], j);
        j, count := j + 1, count + 1;
      }
      Pow64();
      assert X.p[i] == 0;
      i := i + 1;
    }
    assert X.p == X.p[..i];
    NatZeros(i);
    count := 0;
  }

  lemma LowBitsStep(x: nat, j: nat)
    requires Pow(2, j) > 0 && x % Pow(2, j) == 0 && !BitSet(x, j)
    ensures Pow(2, j + 1) > 0 && x % Pow(2, j + 1) == 0
  {
    var P := Pow(2, j);
    var q := x / P;
    assert x == q * P && q % 2 == 0;
    Assoc(q / 2, 2, P);
    DivUnique(x, 2 * P, q / 2, 0);
  }

  lemma LsbAt(s: seq<Limb>, i: nat, j: nat)
    requires i < |s| && s[..i] == Zeros(i) && j < 64
    requires Pow(2, j) > 0 && s[i] % Pow(2, j) == 0 && BitSet(s[i], j)
    ensures Pow(2, 64 * i + j) > 0 && Nat(s) != 0
    ensures Nat(s) % Pow(2, 64 * i + j) == 0
    ensures Nat(s) / Pow(2, 64 * i + j) % 2 == 1
  {
    var h := Nat(s[i + 1..]);
    assert Nat(s) == BPow(i) * (s[i] + BASE * h) by {
      NatSplit(s, i);
      NatZeros(i);
      assert s[i..][1..] == s[i + 1..];
    }
    var k := OddPart(s[i], j, h);
    var Q := Pow(2, 64 * i + j);
    assert Q == BPow(i) * Pow(2, j) by { BPowBits(i); PowAdd(2, 64 * i, j); }
    PowPos(2, 64 * i + j);
    Assoc(BPow(i), Pow(2, j), k);
    DivUnique(Nat(s), Q, k, 0);
  }

  lemma OddPart(x: nat, j: nat, h: int) returns (k: int)
    requires j < 64 && Pow(2, j) > 0 && x % Pow(2, j) == 0 && BitSet(x, j)
    ensures x + BASE * h == Pow(2, j) * k && k % 2 == 1
  {
    var P, M := Pow(2, j), Pow(2, 63 - j);
    k := x / P + 2 * (M * h);
    assert BASE == 2 * (M * P) by { Pow64(); PowAdd(2, 63 - j, j); }
    OddFactor(x / P, P, M, h);
  }

  lemma OddFactor(q: int, P: int, M: int, h: int)
    ensures q * P + (2 * (M * P)) * h == P * (q + 2 * (M * h))
  {
    assert (2 * (M * P)) * h == P * (2 * (M * h));
  }
}
