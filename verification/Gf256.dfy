/** The field GF(2^8) of AES (section 4 of FIPS 197): doubling, multiplication, the powers of the
    generator 3, inverses. */
module Gf256 {
  import opened Octets
  import opened BlockPadding
  import opened Divisibility
  import opened PrimeNumbers
  import Arith

  /** Addition in the field. */
  function Add(a: Octet, b: Octet): Octet {
    a ^ b
  }

  /** Doubling modulo x^8 + x^4 + x^3 + x + 1; the top bit selects the reduction. */
  function Xtime(x: Octet): Octet {
    (x << 1) ^ ((x >> 7) * 0x1B)
  }

  /** The source's form, with a conditional. */
  lemma XtimeIs(x: Octet)
    ensures Xtime(x) == (x << 1) ^ (if x & 0x80 != 0 then 0x1B else 0x00)
  {}

  /** Multiplication by 3. */
  function Triple(x: Octet): Octet {
    Add(x, Xtime(x))
  }

  function Bit(y: Octet, k: Octet, x: Octet): Octet
    requires k < 8
  {
    ((y >> k) & 1) * x
  }

  /** The product: the doublings of x that y selects, added up. */
  function Product(x: Octet, y: Octet): Octet {
    var x1 := Xtime(x); var x2 := Xtime(x1); var x3 := Xtime(x2); var x4 := Xtime(x3);
    var x5 := Xtime(x4); var x6 := Xtime(x5); var x7 := Xtime(x6);
    Sum8(Bit(y, 0, x), Bit(y, 1, x1), Bit(y, 2, x2), Bit(y, 3, x3),
         Bit(y, 4, x4), Bit(y, 5, x5), Bit(y, 6, x6), Bit(y, 7, x7))
  }

  lemma ProductOne(y: Octet)
    ensures Product(1, y) == y
  {}

  lemma AddComm(a: Octet, b: Octet)
    ensures Add(a, b) == Add(b, a)
  {}

  lemma AddAssoc(a: Octet, b: Octet, c: Octet)
    ensures Add(Add(a, b), c) == Add(a, Add(b, c))
  {}

  lemma AddSelf(a: Octet)
    ensures Add(a, a) == 0 && Add(a, 0) == a && Add(0, a) == a
  {}

  lemma AddFour(a: Octet, b: Octet, c: Octet, d: Octet)
    ensures Add(Add(a, b), Add(c, d)) == Add(Add(a, c), Add(b, d))
  {
    hide Add;
    AddAssoc(a, b, Add(c, d));
    AddAssoc(b, c, d);
    AddComm(b, c);
    AddAssoc(c, b, d);
    AddAssoc(a, c, Add(b, d));
  }

  lemma XtimeAdd(a: Octet, b: Octet)
    ensures Xtime(Add(a, b)) == Add(Xtime(a), Xtime(b))
  {}

  lemma BitXtime(y: Octet, k: Octet, x: Octet)
    requires k < 8
    ensures Xtime(Bit(y, k, x)) == Bit(y, k, Xtime(x))
  {
    BitCases(y, k, x);
    BitCases(y, k, Xtime(x));
    XtimeZero();
  }

  lemma BitCases(y: Octet, k: Octet, x: Octet)
    requires k < 8
    ensures Bit(y, k, x) == if (y >> k) & 1 == 0 then 0 else x
  {}

  lemma XtimeZero()
    ensures Xtime(0) == 0
  {}

  lemma BitAdd(y: Octet, k: Octet, a: Octet, b: Octet)
    requires k < 8
    ensures Bit(y, k, Add(a, b)) == Add(Bit(y, k, a), Bit(y, k, b))
  {
    hide Add, Bit;
    BitCases(y, k, Add(a, b));
    BitCases(y, k, a);
    BitCases(y, k, b);
    AddSelf(0);
  }

  function Sum8(a: Octet, b: Octet, c: Octet, d: Octet, e: Octet, f: Octet, g: Octet, h: Octet): Octet {
    Add(Add(Add(a, b), Add(c, d)), Add(Add(e, f), Add(g, h)))
  }

  lemma SumXtime(a: Octet, b: Octet, c: Octet, d: Octet, e: Octet, f: Octet, g: Octet, h: Octet)
    ensures Xtime(Sum8(a, b, c, d, e, f, g, h))
         == Sum8(Xtime(a), Xtime(b), Xtime(c), Xtime(d), Xtime(e), Xtime(f), Xtime(g), Xtime(h))
  {
    hide Xtime, Add;
    XtimeAdd(a, b);
    XtimeAdd(c, d);
    XtimeAdd(e, f);
    XtimeAdd(g, h);
    XtimeAdd(Add(a, b), Add(c, d));
    XtimeAdd(Add(e, f), Add(g, h));
    XtimeAdd(Add(Add(a, b), Add(c, d)), Add(Add(e, f), Add(g, h)));
  }

  lemma SumAdd(a: Octet, b: Octet, c: Octet, d: Octet, e: Octet, f: Octet, g: Octet, h: Octet,
               a': Octet, b': Octet, c': Octet, d': Octet, e': Octet, f': Octet, g': Octet, h': Octet)
    ensures Add(Sum8(a, b, c, d, e, f, g, h), Sum8(a', b', c', d', e', f', g', h'))
         == Sum8(Add(a, a'), Add(b, b'), Add(c, c'), Add(d, d'), Add(e, e'), Add(f, f'), Add(g, g'), Add(h, h'))
  {
    hide Add;
    AddFour(a, b, a', b');
    AddFour(c, d, c', d');
    AddFour(e, f, e', f');
    AddFour(g, h, g', h');
    AddFour(Add(a, b), Add(c, d), Add(a', b'), Add(c', d'));
    AddFour(Add(e, f), Add(g, h), Add(e', f'), Add(g', h'));
    AddFour(Add(Add(a, b), Add(c, d)), Add(Add(e, f), Add(g, h)), Add(Add(a', b'), Add(c', d')), Add(Add(e', f'), Add(g', h')));
  }

  /** The product is additive and commutes with doubling in its first argument. */
  lemma ProductXtime(x: Octet, y: Octet)
    ensures Product(Xtime(x), y) == Xtime(Product(x, y))
  {
    hide Xtime, Bit, Sum8;
    var x1 := Xtime(x); var x2 := Xtime(x1); var x3 := Xtime(x2); var x4 := Xtime(x3);
    var x5 := Xtime(x4); var x6 := Xtime(x5); var x7 := Xtime(x6);
    BitXtime(y, 0, x); BitXtime(y, 1, x1); BitXtime(y, 2, x2); BitXtime(y, 3, x3);
    BitXtime(y, 4, x4); BitXtime(y, 5, x5); BitXtime(y, 6, x6); BitXtime(y, 7, x7);
    SumXtime(Bit(y, 0, x), Bit(y, 1, x1), Bit(y, 2, x2), Bit(y, 3, x3),
             Bit(y, 4, x4), Bit(y, 5, x5), Bit(y, 6, x6), Bit(y, 7, x7));
  }

  lemma ProductAdd(x: Octet, x': Octet, y: Octet)
    ensures Product(Add(x, x'), y) == Add(Product(x, y), Product(x', y))
  {
    hide Xtime, Bit, Sum8, Add;
    var x1 := Xtime(x); var x2 := Xtime(x1); var x3 := Xtime(x2); var x4 := Xtime(x3);
    var x5 := Xtime(x4); var x6 := Xtime(x5); var x7 := Xtime(x6);
    var z1 := Xtime(x'); var z2 := Xtime(z1); var z3 := Xtime(z2); var z4 := Xtime(z3);
    var z5 := Xtime(z4); var z6 := Xtime(z5); var z7 := Xtime(z6);
    XtimeAdd(x, x'); XtimeAdd(x1, z1); XtimeAdd(x2, z2); XtimeAdd(x3, z3);
    XtimeAdd(x4, z4); XtimeAdd(x5, z5); XtimeAdd(x6, z6);
    BitAdd(y, 0, x, x'); BitAdd(y, 1, x1, z1); BitAdd(y, 2, x2, z2); BitAdd(y, 3, x3, z3);
    BitAdd(y, 4, x4, z4); BitAdd(y, 5, x5, z5); BitAdd(y, 6, x6, z6); BitAdd(y, 7, x7, z7);
    SumAdd(Bit(y, 0, x), Bit(y, 1, x1), Bit(y, 2, x2), Bit(y, 3, x3),
           Bit(y, 4, x4), Bit(y, 5, x5), Bit(y, 6, x6), Bit(y, 7, x7),
           Bit(y, 0, x'), Bit(y, 1, z1), Bit(y, 2, z2), Bit(y, 3, z3),
           Bit(y, 4, z4), Bit(y, 5, z5), Bit(y, 6, z6), Bit(y, 7, z7));
  }

  lemma ProductTriple(x: Octet, y: Octet)
    ensures Product(Triple(x), y) == Triple(Product(x, y))
  {
    hide Product, Add, Xtime;
    ProductXtime(x, y);
    ProductAdd(x, Xtime(x), y);
  }

  lemma TripleInjective(x: Octet, y: Octet)
    requires Triple(x) == Triple(y)
    ensures x == y
  {}

  lemma TripleNonZero(x: Octet)
    ensures Triple(x) == 0 <==> x == 0
  {}

  /** 3 applied n times to x. */
  function Iterate(x: Octet, n: nat): Octet {
    if n == 0 then x else Triple(Iterate(x, n - 1))
  }

  lemma {:induction false} IterateAdd(x: Octet, m: nat, n: nat)
    ensures Iterate(x, m + n) == Iterate(Iterate(x, m), n)
  {
    if n > 0 {
      IterateAdd(x, m, n - 1);
    }
  }

  function Power(n: nat): Octet {
    Iterate(1, n)
  }

  /** Multiplying by a power of 3 is multiplying by 3 that many times. */
  lemma {:induction false} ProductPower(n: nat, y: Octet)
    ensures Product(Power(n), y) == Iterate(y, n)
  {
    hide Product, Triple;
    if n == 0 {
      ProductOne(y);
    } else {
      ProductPower(n - 1, y);
      ProductTriple(Power(n - 1), y);
    }
  }

  lemma PowerSum(m: nat, n: nat)
    ensures Power(m + n) == Product(Power(m), Power(n))
  {
    IterateAdd(1, n, m);
    ProductPower(m, Power(n));
  }

  // ----- 3 generates the multiplicative group -----

  lemma PowersOf3()
    ensures Power(15) == 0x35 && Power(51) == 0x0C && Power(85) == 0xBD && Power(255) == 1
  {
    hide Triple, Iterate;
    FirstPower();
    PowerIs(1, 1, 3, 3, 5);
    PowerIs(2, 1, 5, 3, 0x0F);
    PowerIs(3, 2, 0x0F, 5, 0x33);
    PowerIs(5, 5, 0x33, 0x33, 0x72);
    PowerIs(10, 5, 0x72, 0x33, 0x35);
    PowerIs(15, 2, 0x35, 5, 0xE1);
    PowerIs(17, 17, 0xE1, 0xE1, 0x5C);
    PowerIs(34, 17, 0x5C, 0xE1, 0x0C);
    PowerIs(51, 34, 0x0C, 0x5C, 0xBD);
    PowerIs(85, 85, 0xBD, 0xBD, 0xBC);
    PowerIs(170, 85, 0xBC, 0xBD, 1);
  }

  lemma FirstPower()
    ensures Power(0) == 1 && Power(1) == 3
  {
    assert Power(1) == Triple(Power(0));
  }

  lemma PowerIs(m: nat, n: nat, x: Octet, y: Octet, z: Octet)
    requires Power(m) == x && Power(n) == y && Product(x, y) == z
    ensures Power(m + n) == z
  {
    PowerSum(m, n);
  }

  lemma IterateInjective(x: Octet, y: Octet, n: nat)
    requires Iterate(x, n) == Iterate(y, n)
    ensures x == y
  {
    hide Triple;
    if n > 0 {
      TripleInjective(Iterate(x, n - 1), Iterate(y, n - 1));
      IterateInjective(x, y, n - 1);
    }
  }

  lemma {:induction false} PowerMultiple(d: nat, k: nat)
    requires Power(d) == 1
    ensures Power(k * d) == 1
  {
    hide Triple, Product;
    if k == 0 {
      assert k * d == 0;
    } else {
      PowerMultiple(d, k - 1);
      assert k * d == (k - 1) * d + d;
      PowerSum((k - 1) * d, d);
      ProductOne(1);
    }
  }

  /** Periods are closed under the remainder, so under the greatest common divisor. */
  lemma {:induction false} PeriodGcd(a: nat, b: nat)
    requires Power(a) == 1 && Power(b) == 1
    ensures Power(Gcd(a, b)) == 1
    decreases b
  {
    hide Triple, Product;
    if b > 0 {
      Arith.CongMod(a, b);
      var q, r := a / b, a % b;
      assert a == q * b + r by { assert a == b * q + r; }
      QuotientNat(a, b);
      PowerMultiple(b, q);
      PowerSum(q * b, r);
      ProductOne(Power(r));
      PeriodGcd(b, r);
    }
  }

  lemma QuotientNat(a: nat, b: nat)
    requires b > 0
    ensures a / b >= 0
  {}

  lemma SmallPrimes()
    ensures IsPrime(3) && IsPrime(5) && IsPrime(17)
  {}

  /** A proper divisor of 255 = 3 * 5 * 17 divides 85, 51 or 15. */
  lemma ProperDivisor(g: nat, k: nat)
    requires g * k == 255 && k > 1
    ensures exists l: nat :: l * g == 85 || l * g == 51 || l * g == 15
  {
    SmallPrimes();
    if Divides(3, k) {
      var l := DividesElim(3, k);
      assert g * (l * 3) == 3 * (l * g);
    } else if Divides(5, k) {
      var l := DividesElim(5, k);
      assert g * (l * 5) == 5 * (l * g);
    } else if Divides(17, k) {
      var l := DividesElim(17, k);
      assert g * (l * 17) == 17 * (l * g);
    } else {
      NoFactorLeft(g, k);
    }
  }

  lemma NoFactorLeft(g: nat, k: nat)
    requires g * k == 255 && !Divides(3, k) && !Divides(5, k) && !Divides(17, k)
    ensures k == 1
  {
    SmallPrimes();
    DividesIntro(3, g * k, 85);
    EuclidLemma(3, g, k);
    var a := DividesElim(3, g);
    assert a * 3 * k == 3 * (a * k);
    DividesIntro(5, a * k, 17);
    EuclidLemma(5, a, k);
    var b := DividesElim(5, a);
    assert b * 5 * k == 5 * (b * k);
    DividesIntro(17, b * k, 1);
    EuclidLemma(17, b, k);
    var c := DividesElim(17, b);
    assert c * 17 * k == 17 * (c * k);
    assert c * k == 1;
    UnitFactor(c, k);
  }

  lemma UnitFactor(c: int, k: nat)
    requires c * k == 1
    ensures k == 1
  {
    if k > 1 {
      if c > 0 { Arith.MulMono(1, c, k); } else { Arith.MulMono(c, 0, k); }
    }
  }

  /** The order of 3 is 255. */
  lemma OrderIs255(d: nat)
    requires 0 < d < 255
    ensures Power(d) != 1
  {
    hide Iterate, Triple, Product;
    if Power(d) == 1 {
      PowersOf3();
      PeriodGcd(255, d);
      GcdIsGcd(255, d);
      var g := Gcd(255, d);
      DividesLe(g, d);
      var k := DividesElim(g, 255);
      if k <= 1 { Arith.MulMono(k, 1, g); }
      ProperDivisor(g, k);
      var l: nat :| l * g == 85 || l * g == 51 || l * g == 15;
      PowerMultiple(g, l);
    }
  }

  /** The powers of 3 up to the 254th are pairwise different, and none is zero. */
  lemma PowersDistinct(i: nat, j: nat)
    requires i < j < 255
    ensures Power(i) != Power(j)
  {
    hide Iterate, Triple;
    if Power(i) == Power(j) {
      IterateAdd(1, j - i, i);
      IterateInjective(1, Power(j - i), i);
      OrderIs255(j - i);
    }
  }

  lemma {:induction false} PowerNonZero(n: nat)
    ensures Power(n) != 0
  {
    hide Triple;
    if n > 0 {
      PowerNonZero(n - 1);
      TripleNonZero(Power(n - 1));
    }
  }

  /** The numbers of the first n powers. */
  ghost function Orbit(n: nat): set<nat> {
    if n == 0 then {} else Orbit(n - 1) + {Wide(Power(n - 1))}
  }

  lemma {:induction false} OrbitMember(n: nat, v: nat) returns (i: nat)
    requires v in Orbit(n)
    ensures i < n && Wide(Power(i)) == v
  {
    if v == Wide(Power(n - 1)) {
      i := n - 1;
    } else {
      i := OrbitMember(n - 1, v);
    }
  }

  lemma {:induction false} OrbitSize(n: nat)
    requires n <= 255
    ensures |Orbit(n)| == n && forall v :: v in Orbit(n) ==> 1 <= v <= 255
  {
    hide Power, Wide;
    if n > 0 {
      OrbitSize(n - 1);
      var v := Wide(Power(n - 1));
      WideBound(Power(n - 1));
      PowerNonZero(n - 1);
      WideZero(Power(n - 1));
      if v in Orbit(n - 1) {
        var i := OrbitMember(n - 1, v);
        WideInjective(Power(i), Power(n - 1));
        PowersDistinct(i, n - 1);
      }
    }
  }

  lemma WideZero(b: Octet)
    ensures Wide(b) == 0 <==> b == 0
  {}

  /** Every octet but zero is a power of 3. */
  lemma LogExists(x: Octet) returns (i: nat)
    requires x != 0
    ensures i < 255 && Power(i) == x
  {
    hide Power, Wide;
    OrbitSize(255);
    SubsetSameSize(Orbit(255), Range(255));
    WideBound(x);
    WideZero(x);
    i := OrbitMember(255, Wide(x));
    WideInjective(Power(i), x);
  }
}
