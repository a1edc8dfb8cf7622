/** Little-endian limb buffers and the number they denote. */
module Limbs {
  import opened Arith

  const BASE: int := 0x1_0000_0000_0000_0000

  type Limb = x: int | 0 <= x < BASE

  function BPow(n: nat): int { Pow(BASE, n) }

  function Nat(s: seq<Limb>): nat {
    if s == [] then 0 else s[0] + BASE * Nat(s[1..])
  }

  lemma BPowNext(n: nat)
    ensures BPow(n + 1) == BASE * BPow(n)
  {
  }

  lemma BPowAdd(a: nat, b: nat)
    ensures BPow(a + b) == BPow(a) * BPow(b)
  {
    PowAdd(BASE, a, b);
  }

  lemma {:induction false} BPowPos(n: nat)
    ensures BPow(n) > 0
  {
    PowPos(BASE, n);
  }

  lemma {:induction false} NatBound(s: seq<Limb>)
    ensures 0 <= Nat(s) < BPow(|s|)
  {
    if s != [] { NatBound(s[1..]); }
  }

  lemma {:induction false} NatConcat(a: seq<Limb>, b: seq<Limb>)
    ensures Nat(a + b) == Nat(a) + BPow(|a|) * Nat(b)
  {
    if a == [] {
      assert a + b == b;
    } else {
      assert (a + b)[1..] == a[1..] + b;
      NatConcat(a[1..], b);
      Assoc(BASE, BPow(|a| - 1), Nat(b));
    }
  }

  lemma {:induction false} NatSplit(s: seq<Limb>, i: nat)
    requires i <= |s|
    ensures Nat(s) == Nat(s[..i]) + BPow(i) * Nat(s[i..])
  {
    assert s == s[..i] + s[i..];
    NatConcat(s[..i], s[i..]);
  }

  lemma {:induction false} NatUpdate(s: seq<Limb>, i: nat, v: Limb)
    requires i < |s|
    ensures Nat(s[i := v]) == Nat(s) + (v - s[i]) * BPow(i)
  {
    if i == 0 {
      assert s[i := v][1..] == s[1..];
    } else {
      assert s[i := v][1..] == s[1..][i - 1 := v];
      NatUpdate(s[1..], i - 1, v);
      Assoc(v - s[i], BASE, BPow(i - 1));
    }
  }

  lemma NatEmpty(s: seq<Limb>)
    ensures Nat(s[..0]) == 0 && BPow(0) == 1
  {
  }

  lemma {:induction false} NatSnoc(s: seq<Limb>, i: nat)
    requires i < |s|
    ensures Nat(s[..i + 1]) == Nat(s[..i]) + s[i] * BPow(i)
  {
    assert s[..i + 1] == s[..i] + [s[i]];
    NatConcat(s[..i], [s[i]]);
    assert Nat([s[i]]) == s[i];
  }

  function Zeros(n: nat): (z: seq<Limb>)
    ensures |z| == n && forall i :: 0 <= i < n ==> z[i] == 0
  {
    seq(n, i => 0)
  }

  lemma {:induction false} NatZeros(n: nat)
    ensures Nat(Zeros(n)) == 0
  {
    if n > 0 {
      assert Zeros(n)[1..] == Zeros(n - 1);
      NatZeros(n - 1);
    }
  }

  lemma NatPad(a: seq<Limb>, n: nat)
    ensures Nat(a + Zeros(n)) == Nat(a)
  {
    hide Pow, Nat;
    NatZeros(n);
    NatConcat(a, Zeros(n));
    MulZero(BPow(|a|), Nat(Zeros(n)));
  }

  lemma MulZero(a: int, b: int)
    requires b == 0
    ensures a * b == 0
  {
  }

  /** Number of limbs up to the most significant non-zero one. */
  function Used(s: seq<Limb>): (n: nat)
    ensures n <= |s|
  {
    if s == [] then 0
    else if s[|s| - 1] != 0 then |s|
    else Used(s[..|s| - 1])
  }

  lemma {:induction false} UsedSuffix(s: seq<Limb>, n: nat)
    requires Used(s) <= n <= |s|
    ensures s == s[..n] + Zeros(|s| - n)
    ensures Nat(s) == Nat(s[..n])
    ensures Used(s) > 0 ==> s[Used(s) - 1] != 0
  {
    hide Nat;
    if s != [] && s[|s| - 1] == 0 {
      var t := s[..|s| - 1];
      if n == |s| {
        UsedSuffix(t, |t|);
        assert s[..n] == s;
      } else {
        UsedSuffix(t, n);
        assert t[..n] == s[..n];
        assert s == t + [0];
        assert Zeros(|s| - n) == Zeros(|t| - n) + [0];
      }
    } else {
      assert s[..n] == s;
    }
    NatConcat(s[..n], Zeros(|s| - n));
    NatZeros(|s| - n);
  }

  lemma UsedZero(s: seq<Limb>)
    requires Used(s) == 0
    ensures Nat(s) == 0
  {
    UsedSuffix(s, 0);
  }

  lemma UsedPos(s: seq<Limb>)
    requires Used(s) > 0
    ensures BPow(Used(s) - 1) <= Nat(s) < BPow(Used(s))
  {
    var n := Used(s);
    UsedSuffix(s, n);
    NatSnoc(s, n - 1);
    NatBound(s[..n - 1]);
    NatBound(s[..n]);
    BPowPos(n - 1);
    MulMono(1, s[n - 1], BPow(n - 1));
  }

  lemma {:induction false} BPowMono(a: nat, b: nat)
    requires a <= b
    ensures BPow(a) <= BPow(b)
  {
    if a < b {
      BPowMono(a, b - 1);
      BPowPos(b - 1);
    }
  }

  lemma UsedLess(x: seq<Limb>, y: seq<Limb>)
    requires Used(x) < Used(y)
    ensures Nat(x) < Nat(y)
  {
    UsedPos(y);
    if Used(x) == 0 {
      UsedZero(x);
      BPowPos(Used(y) - 1);
    } else {
      UsedPos(x);
      BPowMono(Used(x), Used(y) - 1);
    }
  }

  /** The most significant differing limb decides the order. */
  lemma DiffAt(x: seq<Limb>, y: seq<Limb>, i: nat)
    requires i < |x| == |y| && x[i + 1..] == y[i + 1..] && x[i] != y[i]
    ensures x[i] > y[i] ==> Nat(x) > Nat(y)
    ensures x[i] < y[i] ==> Nat(x) < Nat(y)
  {
    if x[i] > y[i] { LargerAt(x, y, i); } else { LargerAt(y, x, i); }
  }

  lemma LargerAt(x: seq<Limb>, y: seq<Limb>, i: nat)
    requires i < |x| == |y| && x[i + 1..] == y[i + 1..] && x[i] > y[i]
    ensures Nat(x) > Nat(y)
  {
    var H := BPow(i + 1) * Nat(x[i + 1..]);
    assert Nat(x) == Nat(x[..i]) + x[i] * BPow(i) + H by { NatSplit(x, i + 1); NatSnoc(x, i); }
    assert Nat(y) == Nat(y[..i]) + y[i] * BPow(i) + H by { NatSplit(y, i + 1); NatSnoc(y, i); }
    NatBound(x[..i]);
    NatBound(y[..i]);
    TopDigit(x[i], y[i], BPow(i), Nat(y[..i]));
  }

  lemma TopDigit(a: int, b: int, P: int, low: int)
    requires a > b && 0 <= low < P
    ensures a * P > b * P + low
  {
    MulMono(b + 1, a, P);
  }

  /** Dropping low limbs divides by a power of the base. */
  lemma NatDrop(s: seq<Limb>, v: nat)
    requires v <= |s|
    ensures BPow(v) > 0 && Nat(s) / BPow(v) == Nat(s[v..])
    ensures Nat(s) % BPow(v) == Nat(s[..v])
  {
    hide Pow, Nat;
    BPowPos(v);
    NatSplit(s, v);
    NatBound(s[..v]);
    DivUnique(Nat(s), BPow(v), Nat(s[v..]), Nat(s[..v]));
  }
}
