/** pow2gt: rounding a buffer size up to a power of two by smearing the top bit. */
module PowerOfTwo {
  import opened Arith

  /** x >> k. */
  function Half(x: nat, k: nat): nat {
    if k == 0 then x else Half(x / 2, k - 1)
  }

  /** Bitwise or. */
  function Or(a: nat, b: nat): (r: nat)
    ensures r >= a
  {
    if a == 0 && b == 0 then 0 else 2 * Or(a / 2, b / 2) + if a % 2 + b % 2 > 0 then 1 else 0
  }

  /** x |= x >> k. */
  function Smear(x: nat, k: nat): (r: nat)
    ensures r >= x
  {
    Or(x, Half(x, k))
  }

  function Pow2gt(x: nat): (r: nat)
    requires x > 0
    ensures r >= x
  {
    Smear(Smear(Smear(Smear(Smear(x - 1, 1), 2), 4), 8), 16) + 1
  }

  /** k one bits. */
  function Ones(k: nat): nat {
    if k == 0 then 0 else 2 * Ones(k - 1) + 1
  }

  lemma {:induction false} OnesValue(k: nat)
    ensures Ones(k) + 1 == Pow(2, k)
  {
    if k > 0 { OnesValue(k - 1); }
  }

  lemma {:induction false} HalfOnes(n: nat, k: nat)
    ensures Half(Ones(n), k) == if k <= n then Ones(n - k) else 0
  {
    if k > 0 && n > 0 {
      HalfOnes(n - 1, k - 1);
    } else if k > 0 {
      HalfOnes(0, k - 1);
    }
  }

  lemma {:induction false} HalfTwice(x: nat, a: nat, b: nat)
    ensures Half(Half(x, a), b) == Half(x, a + b)
  {
    if a > 0 { HalfTwice(x / 2, a - 1, b); }
  }

  lemma {:induction false} HalfOr(x: nat, y: nat, k: nat)
    ensures Half(Or(x, y), k) == Or(Half(x, k), Half(y, k))
  {
    if k > 0 {
      assert Or(x, y) / 2 == Or(x / 2, y / 2);
      HalfOr(x / 2, y / 2, k - 1);
    }
  }

  lemma {:induction false} OrZero(x: nat)
    ensures Or(x, 0) == x
  {
    if x > 0 { OrZero(x / 2); }
  }

  /** Ones above the low q bits, or-ed with ones in them. */
  lemma {:induction false} OrOnes(h: nat, j: nat, q: nat)
    requires Half(h, q) == Ones(j)
    ensures Or(h, Ones(q)) == Ones(j + q)
  {
    if q == 0 {
      OrZero(h);
    } else {
      assert Ones(q) / 2 == Ones(q - 1) && Ones(q) % 2 == 1;
      OrOnes(h / 2, j, q - 1);
    }
  }

  function Min(a: nat, b: nat): nat {
    if a < b then a else b
  }

  /** Of the n bits of x, the top j are ones. */
  predicate TopOnes(x: nat, n: nat, j: nat) {
    Half(x, n - Min(j, n)) == Ones(Min(j, n))
  }

  lemma SmearStep(x: nat, n: nat, j: nat)
    requires j > 0 && TopOnes(x, n, j)
    ensures TopOnes(Smear(x, j), n, 2 * j)
  {
    hide Half, Or, Ones;
    if j >= n {
      assert x == Ones(n) by { HalfTwice(x, 0, 0); HalfNone(x); }
      HalfOnes(n, j);
      HalfNone(Smear(x, j));
      OnesNone();
      OrZero(x);
    } else {
      var t := Min(2 * j, n);
      var m, q := n - t, t - j;
      var h := Half(x, m);
      HalfOr(x, Half(x, j), m);
      HalfTwice(x, j, m);
      HalfTwice(x, m, j);
      HalfTwice(x, m, q);
      assert Half(h, q) == Ones(j);
      HalfTwice(h, q, j - q);
      HalfOnes(j, j - q);
      assert Half(h, j) == Ones(q);
      OrOnes(h, j, q);
    }
  }

  lemma HalfNone(x: nat)
    ensures Half(x, 0) == x
  {}

  lemma OnesNone()
    ensures Ones(0) == 0
  {}

  lemma TopOne(x: nat, n: nat)
    requires n > 0
    ensures TopOnes(x, n, 1) <==> Half(x, n - 1) == 1
  {
    hide Half;
    assert Ones(1) == 1;
  }

  /** The number of bits of x. */
  lemma {:induction false} Bits(x: nat) returns (n: nat)
    ensures x <= Ones(n) && TopOnes(x, n, 1) && (n > 0 ==> Ones(n - 1) < x)
  {
    hide TopOnes;
    if x == 0 {
      n := 0;
      assert TopOnes(x, n, 1) by { NoBits(); }
    } else if x == 1 {
      n := 1;
      assert Ones(1) == 1;
      TopOne(x, n);
    } else {
      var k := Bits(x / 2);
      if k == 0 {
        OnesNone();
        assert false;
      }
      n := k + 1;
      TopOne(x / 2, k);
      TopOne(x, n);
    }
  }

  lemma NoBits()
    ensures TopOnes(0, 0, 1)
  {}

  lemma {:induction false} OnesMono(a: nat, b: nat)
    requires a <= b
    ensures Ones(a) <= Ones(b)
  {
    if a > 0 { OnesMono(a - 1, b - 1); }
  }

  /** Up to 2^32 the result is the smallest power of two that is at least x. */
  lemma Pow2gtIsNext(x: nat) returns (n: nat)
    requires 0 < x <= 0x1_0000_0000
    ensures Pow2gt(x) == Pow(2, n) && (n > 0 ==> Pow(2, n - 1) < x <= Pow(2, n))
  {
    hide Smear, TopOnes, Half, Ones, Pow;
    n := Bits(x - 1);
    var a := Smear(x - 1, 1);
    var b := Smear(a, 2);
    var c := Smear(b, 4);
    var d := Smear(c, 8);
    SmearStep(x - 1, n, 1);
    SmearStep(a, n, 2);
    SmearStep(b, n, 4);
    SmearStep(c, n, 8);
    SmearStep(d, n, 16);
    if n > 32 {
      OnesMono(32, n - 1);
      Ones32();
      assert false;
    }
    AllOnes(Smear(d, 16), n);
    OnesValue(n);
    if n > 0 { OnesValue(n - 1); }
  }

  lemma Ones32()
    ensures Ones(32) == 0xFFFF_FFFF
  {
    assert Ones(8) == 0xFF;
    assert Ones(16) == 0xFFFF;
    assert Ones(24) == 0xFF_FFFF;
  }

  lemma AllOnes(x: nat, n: nat)
    requires n <= 32 && TopOnes(x, n, 32)
    ensures x == Ones(n)
  {}
}
