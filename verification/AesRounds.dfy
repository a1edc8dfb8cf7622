/** AES as FIPS 197 describes it, and its equivalent inverse cipher (section 5.3.5). */
module AesRounds {
  import opened Octets
  import opened Gf256

  // ----- the S-box -----

  function Rotl(x: Octet, n: Octet): Octet
    requires 0 < n < 8
  {
    (x << n) | (x >> (8 - n))
  }

  /** The affine transformation of section 5.1.1 and its inverse. */
  function Affine(x: Octet): Octet {
    x ^ Rotl(x, 1) ^ Rotl(x, 2) ^ Rotl(x, 3) ^ Rotl(x, 4) ^ 0x63
  }

  function AffineInverse(y: Octet): Octet {
    Rotl(y, 1) ^ Rotl(y, 3) ^ Rotl(y, 6) ^ 0x05
  }

  lemma AffineRoundTrip(x: Octet)
    ensures AffineInverse(Affine(x)) == x && Affine(AffineInverse(x)) == x
  {}

  lemma InverseExists(x: Octet)
    requires x != 0
    ensures exists y :: Product(x, y) == 1
  {
    hide Power, Product;
    var i := LogExists(x);
    PowerSum(i, 255 - i);
    PowersOf3();
    assert Product(x, Power(255 - i)) == 1;
  }

  lemma InverseUnique(x: Octet, y: Octet, z: Octet)
    requires Product(x, y) == 1 && Product(x, z) == 1
    ensures y == z && Product(y, x) == 1 && x != 0
  {
    hide Power, Product;
    ProductZero(y);
    var i := LogExists(x);
    ProductPower(i, y);
    ProductPower(i, z);
    IterateInjective(y, z, i);
    ProductZeroRight(x);
    var j := LogExists(y);
    PowerSum(i, j);
    PowerSum(j, i);
  }

  lemma ProductZero(y: Octet)
    ensures Product(0, y) == 0
  {}

  lemma ProductZeroRight(x: Octet)
    ensures Product(x, 0) == 0
  {}

  /** The multiplicative inverse, zero being its own. */
  ghost function FieldInverse(x: Octet): Octet {
    if x == 0 then 0 else InverseExists(x); var y :| Product(x, y) == 1; y
  }

  lemma InverseInverse(x: Octet)
    ensures FieldInverse(FieldInverse(x)) == x
  {
    hide Product;
    if x != 0 {
      InverseExists(x);
      var y := FieldInverse(x);
      InverseUnique(x, y, y);
      ProductZero(x);
      InverseExists(y);
      InverseUnique(y, x, FieldInverse(y));
    }
  }

  ghost function Sub(x: Octet): Octet {
    Affine(FieldInverse(x))
  }

  ghost function InvSub(y: Octet): Octet {
    FieldInverse(AffineInverse(y))
  }

  lemma SubRoundTrip(x: Octet)
    ensures InvSub(Sub(x)) == x && Sub(InvSub(x)) == x
  {
    hide Affine, AffineInverse, FieldInverse;
    AffineRoundTrip(FieldInverse(x));
    InverseInverse(x);
    InverseInverse(AffineInverse(x));
    AffineRoundTrip(x);
  }

  // ----- columns -----

  /** A word of the state: octets of rows 0 to 3. */
  datatype Col = Col(a: Octet, b: Octet, c: Octet, d: Octet)

  function AddCol(x: Col, y: Col): Col {
    Col(Add(x.a, y.a), Add(x.b, y.b), Add(x.c, y.c), Add(x.d, y.d))
  }

  function Add4(w: Octet, x: Octet, y: Octet, z: Octet): Octet {
    Add(Add(w, x), Add(y, z))
  }

  function AddCol4(w: Col, x: Col, y: Col, z: Col): Col {
    AddCol(AddCol(w, x), AddCol(y, z))
  }

  /** Doubling twice and three times. */
  function X2(x: Octet): Octet { Xtime(Xtime(x)) }
  function X3(x: Octet): Octet { Xtime(X2(x)) }

  /** Multiplication by 9, 11, 13 and 14. */
  function By9(x: Octet): Octet { Add(X3(x), x) }
  function ByB(x: Octet): Octet { Add(Add(X3(x), Xtime(x)), x) }
  function ByD(x: Octet): Octet { Add(Add(X3(x), X2(x)), x) }
  function ByE(x: Octet): Octet { Add(Add(X3(x), X2(x)), Xtime(x)) }

  lemma Multiples(x: Octet)
    ensures Product(0x02, x) == Xtime(x) && Product(0x03, x) == Triple(x)
    ensures Product(0x09, x) == By9(x) && Product(0x0B, x) == ByB(x)
    ensures Product(0x0D, x) == ByD(x) && Product(0x0E, x) == ByE(x)
  {
    hide Product, Add, Xtime;
    ProductOne(x);
    ProductXtime(1, x);
    ProductXtime(2, x);
    ProductXtime(4, x);
    SmallDoubles();
    ProductAdd(1, 2, x);
    ProductAdd(8, 1, x);
    ProductAdd(8, 2, x);
    ProductAdd(0x0A, 1, x);
    ProductAdd(8, 4, x);
    ProductAdd(0x0C, 1, x);
    ProductAdd(0x0C, 2, x);
  }

  lemma SmallDoubles()
    ensures Xtime(1) == 2 && Xtime(2) == 4 && Xtime(4) == 8
    ensures Add(1, 2) == 3 && Add(8, 1) == 9 && Add(8, 2) == 0x0A && Add(0x0A, 1) == 0x0B
    ensures Add(8, 4) == 0x0C && Add(0x0C, 1) == 0x0D && Add(0x0C, 2) == 0x0E
  {}

  /** MixColumns (section 5.1.3). */
  function Mix(x: Col): Col {
    Col(Add4(Xtime(x.a), Triple(x.b), x.c, x.d),
        Add4(x.a, Xtime(x.b), Triple(x.c), x.d),
        Add4(x.a, x.b, Xtime(x.c), Triple(x.d)),
        Add4(Triple(x.a), x.b, x.c, Xtime(x.d)))
  }

  /** InvMixColumns (section 5.3.3). */
  function InvMix(x: Col): Col {
    Col(Add4(ByE(x.a), ByB(x.b), ByD(x.c), By9(x.d)),
        Add4(By9(x.a), ByE(x.b), ByB(x.c), ByD(x.d)),
        Add4(ByD(x.a), By9(x.b), ByE(x.c), ByB(x.d)),
        Add4(ByB(x.a), ByD(x.b), By9(x.c), ByE(x.d)))
  }

  /** What one octet contributes to a mixed column. */
  function MixA(v: Octet): Col { Col(Xtime(v), v, v, Triple(v)) }
  function MixB(v: Octet): Col { Col(Triple(v), Xtime(v), v, v) }
  function MixC(v: Octet): Col { Col(v, Triple(v), Xtime(v), v) }
  function MixD(v: Octet): Col { Col(v, v, Triple(v), Xtime(v)) }

  function InvMixA(v: Octet): Col { Col(ByE(v), By9(v), ByD(v), ByB(v)) }
  function InvMixB(v: Octet): Col { Col(ByB(v), ByE(v), By9(v), ByD(v)) }
  function InvMixC(v: Octet): Col { Col(ByD(v), ByB(v), ByE(v), By9(v)) }
  function InvMixD(v: Octet): Col { Col(By9(v), ByD(v), ByB(v), ByE(v)) }

  lemma MixParts(x: Col)
    ensures Mix(x) == AddCol4(MixA(x.a), MixB(x.b), MixC(x.c), MixD(x.d))
    ensures InvMix(x) == AddCol4(InvMixA(x.a), InvMixB(x.b), InvMixC(x.c), InvMixD(x.d))
  {}

  lemma By9Add(a: Octet, b: Octet)
    ensures By9(Add(a, b)) == Add(By9(a), By9(b)) && ByB(Add(a, b)) == Add(ByB(a), ByB(b))
    ensures ByD(Add(a, b)) == Add(ByD(a), ByD(b)) && ByE(Add(a, b)) == Add(ByE(a), ByE(b))
  {
    hide Xtime, Add;
    var a1, b1 := Xtime(a), Xtime(b);
    var a2, b2 := Xtime(a1), Xtime(b1);
    var a3, b3 := Xtime(a2), Xtime(b2);
    XtimeAdd(a, b);
    XtimeAdd(a1, b1);
    XtimeAdd(a2, b2);
    AddFour(a3, a, b3, b);
    AddFour(a3, a1, b3, b1);
    AddFour(a3, a2, b3, b2);
    AddFour(Add(a3, a1), a, Add(b3, b1), b);
    AddFour(Add(a3, a2), a, Add(b3, b2), b);
    AddFour(Add(a3, a2), a1, Add(b3, b2), b1);
  }

  /** The coefficients met on and off the diagonal of the product of the two matrices, in either
      order. */
  lemma Rows(v: Octet)
    ensures InvMix(MixA(v)) == Col(v, 0, 0, 0) && Mix(InvMixA(v)) == Col(v, 0, 0, 0)
  {
    hide Xtime, Add;
    var x1 := Xtime(v);
    var x2 := Xtime(x1);
    var x3 := Xtime(x2);
    By9Add(v, x1);
    XtimeAdd(x3, v);
    XtimeAdd(Add(x3, x1), v);
    XtimeAdd(x3, x1);
    XtimeAdd(Add(x3, x2), v);
    XtimeAdd(Add(x3, x2), x1);
    XtimeAdd(x3, x2);
    RowSums(v, x1, x2, x3, Xtime(x3));
  }

  lemma Xor2(a: Octet, b: Octet, r: Octet)
    requires r == Add(a, b)
    ensures r == a ^ b
  {}

  lemma Xor3(a: Octet, b: Octet, c: Octet, r: Octet)
    requires r == Add(Add(a, b), c)
    ensures r == a ^ b ^ c
  {}

  lemma Xor5(a: Octet, b: Octet, c: Octet, d: Octet, e: Octet, r: Octet)
    requires r == Add4(a, b, c, Add(d, e))
    ensures r == a ^ b ^ c ^ d ^ e
  {}

  lemma RowSumA(v: Octet, x1: Octet, x2: Octet, x3: Octet, x4: Octet, e1: Octet, b: Octet, d: Octet, n: Octet, n1: Octet)
    requires e1 == x4 ^ x3 ^ x2 && b == x3 ^ x1 ^ v && d == x3 ^ x2 ^ v && n == x3 ^ v && n1 == x4 ^ x1
    ensures e1 ^ b ^ d ^ n ^ n1 == v
  {}

  lemma RowSumB(v: Octet, x1: Octet, x2: Octet, x3: Octet, x4: Octet, n1: Octet, e: Octet, b: Octet, d: Octet, d1: Octet)
    requires n1 == x4 ^ x1 && e == x3 ^ x2 ^ x1 && b == x3 ^ x1 ^ v && d == x3 ^ x2 ^ v && d1 == x4 ^ x3 ^ x1
    ensures n1 ^ e ^ b ^ d ^ d1 == 0
  {}

  lemma RowSumC(v: Octet, x1: Octet, x2: Octet, x3: Octet, x4: Octet, d1: Octet, n: Octet, e: Octet, b: Octet, b1: Octet)
    requires d1 == x4 ^ x3 ^ x1 && n == x3 ^ v && e == x3 ^ x2 ^ x1 && b == x3 ^ x1 ^ v && b1 == x4 ^ x2 ^ x1
    ensures d1 ^ n ^ e ^ b ^ b1 == 0
  {}

  lemma RowSumD(v: Octet, x1: Octet, x2: Octet, x3: Octet, x4: Octet, b1: Octet, d: Octet, n: Octet, e: Octet, e1: Octet)
    requires b1 == x4 ^ x2 ^ x1 && d == x3 ^ x2 ^ v && n == x3 ^ v && e == x3 ^ x2 ^ x1 && e1 == x4 ^ x3 ^ x2
    ensures b1 ^ d ^ n ^ e ^ e1 == 0
  {}

  /** Each doubling occurs an even number of times, except v itself in the first sums. */
  lemma RowSums(v: Octet, x1: Octet, x2: Octet, x3: Octet, x4: Octet)
    ensures var e, b, d, n := Add(Add(x3, x2), x1), Add(Add(x3, x1), v), Add(Add(x3, x2), v), Add(x3, v);
            var e1, b1, d1, n1 := Add(Add(x4, x3), x2), Add(Add(x4, x2), x1), Add(Add(x4, x3), x1), Add(x4, x1);
            Add4(e1, b, d, Add(n, n1)) == v && Add4(n1, e, b, Add(d, d1)) == 0
            && Add4(d1, n, e, Add(b, b1)) == 0 && Add4(b1, d, n, Add(e, e1)) == 0
            && Add4(e1, Add(n, n1), d, b) == v && Add4(e, n1, Add(d, d1), b) == 0
            && Add4(e, n, d1, Add(b, b1)) == 0 && Add4(Add(e, e1), n, d, b1) == 0
  {
    hide Add, Add4;
    var e, b, d, n := Add(Add(x3, x2), x1), Add(Add(x3, x1), v), Add(Add(x3, x2), v), Add(x3, v);
    var e1, b1, d1, n1 := Add(Add(x4, x3), x2), Add(Add(x4, x2), x1), Add(Add(x4, x3), x1), Add(x4, x1);
    Xor3(x3, x2, x1, e);
    Xor3(x3, x1, v, b);
    Xor3(x3, x2, v, d);
    Xor2(x3, v, n);
    Xor3(x4, x3, x2, e1);
    Xor3(x4, x2, x1, b1);
    Xor3(x4, x3, x1, d1);
    Xor2(x4, x1, n1);
    Xor5(e1, b, d, n, n1, Add4(e1, b, d, Add(n, n1)));
    RowSumA(v, x1, x2, x3, x4, e1, b, d, n, n1);
    Xor5(n1, e, b, d, d1, Add4(n1, e, b, Add(d, d1)));
    RowSumB(v, x1, x2, x3, x4, n1, e, b, d, d1);
    Xor5(d1, n, e, b, b1, Add4(d1, n, e, Add(b, b1)));
    RowSumC(v, x1, x2, x3, x4, d1, n, e, b, b1);
    Xor5(b1, d, n, e, e1, Add4(b1, d, n, Add(e, e1)));
    RowSumD(v, x1, x2, x3, x4, b1, d, n, e, e1);
    Add4Reorder(e1, b, d, Add(n, n1));
    Add4Reorder(n1, e, b, Add(d, d1));
    Add4Reorder(d1, n, e, Add(b, b1));
    Add4Reorder(b1, d, n, Add(e, e1));
  }

  lemma Add4Reorder(w: Octet, x: Octet, y: Octet, z: Octet)
    ensures Add4(w, x, y, z) == Add4(x, y, z, w) == Add4(w, z, y, x) == Add4(x, w, z, y) == Add4(y, x, w, z) == Add4(z, y, x, w)
  {
    hide Add;
    AddComm(w, x);
    AddComm(y, z);
    AddComm(Add(w, x), Add(y, z));
    AddFour(w, x, y, z);
    AddFour(w, x, z, y);
    AddComm(w, z);
    AddComm(x, y);
    AddComm(Add(w, z), Add(x, y));
    AddComm(Add(w, z), Add(y, x));
    AddFour(w, z, x, y);
    AddComm(Add(x, y), Add(z, w));
  }

  function Turn(x: Col): Col {
    Col(x.d, x.a, x.b, x.c)
  }

  lemma MixTurn(x: Col)
    ensures Mix(Turn(x)) == Turn(Mix(x)) && InvMix(Turn(x)) == Turn(InvMix(x))
  {
    hide Add4, Xtime, Triple, ByE, By9, ByB, ByD;
    Add4Reorder(Xtime(x.d), Triple(x.a), x.b, x.c);
    Add4Reorder(x.d, Xtime(x.a), Triple(x.b), x.c);
    Add4Reorder(x.d, x.a, Xtime(x.b), Triple(x.c));
    Add4Reorder(Triple(x.d), x.a, x.b, Xtime(x.c));
    Add4Reorder(ByE(x.d), ByB(x.a), ByD(x.b), By9(x.c));
    Add4Reorder(By9(x.d), ByE(x.a), ByB(x.b), ByD(x.c));
    Add4Reorder(ByD(x.d), By9(x.a), ByE(x.b), ByB(x.c));
    Add4Reorder(ByB(x.d), ByD(x.a), By9(x.b), ByE(x.c));
  }

  lemma Add4Sum(w: Octet, x: Octet, y: Octet, z: Octet, w': Octet, x': Octet, y': Octet, z': Octet)
    ensures Add4(Add(w, w'), Add(x, x'), Add(y, y'), Add(z, z')) == Add(Add4(w, x, y, z), Add4(w', x', y', z'))
  {
    hide Add;
    AddFour(w, x, w', x');
    AddFour(y, z, y', z');
    AddFour(Add(w, x), Add(y, z), Add(w', x'), Add(y', z'));
  }

  lemma TripleAdd(a: Octet, b: Octet)
    ensures Triple(Add(a, b)) == Add(Triple(a), Triple(b))
  {
    hide Xtime, Add;
    XtimeAdd(a, b);
    AddFour(a, b, Xtime(a), Xtime(b));
  }

  /** Both mixings are additive. */
  lemma MixAdd(x: Col, y: Col)
    ensures Mix(AddCol(x, y)) == AddCol(Mix(x), Mix(y))
  {
    hide Add, Add4, Xtime, Triple;
    XtimeAdd(x.a, y.a); XtimeAdd(x.b, y.b); XtimeAdd(x.c, y.c); XtimeAdd(x.d, y.d);
    TripleAdd(x.a, y.a); TripleAdd(x.b, y.b); TripleAdd(x.c, y.c); TripleAdd(x.d, y.d);
    Add4Sum(Xtime(x.a), Triple(x.b), x.c, x.d, Xtime(y.a), Triple(y.b), y.c, y.d);
    Add4Sum(x.a, Xtime(x.b), Triple(x.c), x.d, y.a, Xtime(y.b), Triple(y.c), y.d);
    Add4Sum(x.a, x.b, Xtime(x.c), Triple(x.d), y.a, y.b, Xtime(y.c), Triple(y.d));
    Add4Sum(Triple(x.a), x.b, x.c, Xtime(x.d), Triple(y.a), y.b, y.c, Xtime(y.d));
  }

  lemma InvMixAdd(x: Col, y: Col)
    ensures InvMix(AddCol(x, y)) == AddCol(InvMix(x), InvMix(y))
  {
    hide Add, Add4, ByE, By9, ByB, ByD;
    By9Add(x.a, y.a); By9Add(x.b, y.b); By9Add(x.c, y.c); By9Add(x.d, y.d);
    Add4Sum(ByE(x.a), ByB(x.b), ByD(x.c), By9(x.d), ByE(y.a), ByB(y.b), ByD(y.c), By9(y.d));
    Add4Sum(By9(x.a), ByE(x.b), ByB(x.c), ByD(x.d), By9(y.a), ByE(y.b), ByB(y.c), ByD(y.d));
    Add4Sum(ByD(x.a), By9(x.b), ByE(x.c), ByB(x.d), ByD(y.a), By9(y.b), ByE(y.c), ByB(y.d));
    Add4Sum(ByB(x.a), ByD(x.b), By9(x.c), ByE(x.d), ByB(y.a), ByD(y.b), By9(y.c), ByE(y.d));
  }

  lemma PartsTurn(v: Octet)
    ensures MixB(v) == Turn(MixA(v)) && MixC(v) == Turn(MixB(v)) && MixD(v) == Turn(MixC(v))
    ensures InvMixB(v) == Turn(InvMixA(v)) && InvMixC(v) == Turn(InvMixB(v)) && InvMixD(v) == Turn(InvMixC(v))
  {}

  lemma UnitParts(v: Octet)
    ensures InvMix(MixB(v)) == Col(0, v, 0, 0) && InvMix(MixC(v)) == Col(0, 0, v, 0) && InvMix(MixD(v)) == Col(0, 0, 0, v)
    ensures Mix(InvMixB(v)) == Col(0, v, 0, 0) && Mix(InvMixC(v)) == Col(0, 0, v, 0) && Mix(InvMixD(v)) == Col(0, 0, 0, v)
  {
    hide Mix, InvMix, MixA, MixB, MixC, MixD, InvMixA, InvMixB, InvMixC, InvMixD;
    Rows(v);
    PartsTurn(v);
    MixTurn(MixA(v));
    MixTurn(MixB(v));
    MixTurn(MixC(v));
    MixTurn(InvMixA(v));
    MixTurn(InvMixB(v));
    MixTurn(InvMixC(v));
  }

  lemma Units(x: Col)
    ensures AddCol4(Col(x.a, 0, 0, 0), Col(0, x.b, 0, 0), Col(0, 0, x.c, 0), Col(0, 0, 0, x.d)) == x
  {
    hide Add;
    AddSelf(x.a);
    AddSelf(x.b);
    AddSelf(x.c);
    AddSelf(x.d);
    AddSelf(0);
  }

  /** InvMixColumns undoes MixColumns, and the converse. */
  lemma MixRoundTrip(x: Col)
    ensures InvMix(Mix(x)) == x && Mix(InvMix(x)) == x
  {
    hide Mix, InvMix, AddCol, MixA, MixB, MixC, MixD, InvMixA, InvMixB, InvMixC, InvMixD;
    MixParts(x);
    var a, b, c, d := MixA(x.a), MixB(x.b), MixC(x.c), MixD(x.d);
    InvMixAdd(a, b);
    InvMixAdd(c, d);
    InvMixAdd(AddCol(a, b), AddCol(c, d));
    var a', b', c', d' := InvMixA(x.a), InvMixB(x.b), InvMixC(x.c), InvMixD(x.d);
    MixAdd(a', b');
    MixAdd(c', d');
    MixAdd(AddCol(a', b'), AddCol(c', d'));
    Rows(x.a);
    UnitParts(x.b);
    UnitParts(x.c);
    UnitParts(x.d);
    Units(x);
  }
}
