/** ECDSA (SEC1 sections 4.1.3 and 4.1.4) over an abstract group of prime order, with the
    signature carried as DER. */
module Ecdsa {
  import opened Arith
  import opened Limbs
  import opened MpiCore
  import opened MpiShift
  import opened MpiAddSub
  import opened MpiMul
  import opened MpiMod
  import opened MpiInverse
  import opened Divisibility
  import opened PrimeNumbers
  import opened ByteStrings
  import opened CurveGroup
  import MpiBinary
  import Der

  const ERR_ECP_BAD_INPUT_DATA := -0x4F80
  const ERR_ECP_VERIFY_FAILED := -0x4E00
  const ERR_ECP_RANDOM_FAILED := -0x4D00
  const ERR_ECP_INVALID_KEY := -0x4C80
  const ERR_ECP_SIG_LEN_MISMATCH := -0x4C00

  /** A curve group of prime order n. A point is given by its discrete logarithm to the base point;
      0 is the zero point, abscissa(j) the first coordinate of point j. */
  datatype Group = Group(n: int, nbits: nat, abscissa: nat -> nat, canDo: bool)

  ghost predicate Good(g: Group) {
    IsPrime(g.n) && g.nbits > 0 && Pow(2, g.nbits - 1) <= g.n < Pow(2, g.nbits)
  }

  // ----- the scheme -----

  /** (r, s) comes from the nonce k with inverse v (steps 1 to 6 of section 4.1.3). */
  ghost predicate SignedWith(g: Group, d: int, e: int, r: int, s: int, k: int, v: int) {
    g.n > 0 && 0 < k < g.n && Cong(v * k, 1, g.n) && r == g.abscissa(k) % g.n && s == v * (e + r * d) % g.n
  }

  ghost predicate Signed(g: Group, d: int, e: int, r: int, s: int) {
    0 < r < g.n && 0 < s < g.n && exists k, v :: SignedWith(g, d, e, r, s, k, v)
  }

  /** u1 G + u2 Q with u1 = e w and u2 = r w reduced (steps 4 and 5 of section 4.1.4). */
  function VerifyPoint(n: int, e: int, r: int, q: int, w: int): (p: nat)
    requires n > 0
    ensures p < n
  {
    (e * w % n + r * w % n * q) % n
  }

  ghost predicate VerifiesWith(g: Group, q: int, e: int, r: int, s: int, w: int) {
    g.n > 0 && Cong(w * s, 1, g.n)
    && var p := VerifyPoint(g.n, e, r, q, w);
       p != 0 && g.abscissa(p) % g.n == r
  }

  ghost predicate Verifies(g: Group, q: int, e: int, r: int, s: int) {
    0 < r < g.n && 0 < s < g.n && exists w :: VerifiesWith(g, q, e, r, s, w)
  }

  lemma Rearrange(e: int, r: int, q: int, w: int)
    ensures e * w + r * w * q == w * (e + r * q)
  {
    assert r * w * q == w * (r * q);
  }

  lemma VerifyPointClass(n: int, e: int, r: int, q: int, w: int)
    requires n > 0
    ensures Cong(VerifyPoint(n, e, r, q, w), w * (e + r * q), n)
  {
    hide Cong;
    var u1, u2 := e * w % n, r * w % n;
    CongMod(e * w, n);
    CongMod(r * w, n);
    CongScale(u2, r * w, q, n);
    CongAdd(u1, e * w, u2 * q, r * w * q, n);
    Rearrange(e, r, q, w);
    CongMod(u1 + u2 * q, n);
    CongTrans(VerifyPoint(n, e, r, q, w), u1 + u2 * q, w * (e + r * q), n);
  }

  lemma Regroup(v: int, k: int, w: int, z: int)
    ensures k * (w * (v * z)) == v * k * (w * z)
  {
    assert k * (w * (v * z)) == k * w * v * z;
    assert v * k * (w * z) == v * k * w * z;
  }

  /** The point a verifier computes is the signer's nonce point. */
  lemma PointIsNonce(n: int, e: int, r: int, d: int, k: int, v: int, w: int, s: int)
    requires n > 1 && 0 < k < n && Cong(v * k, 1, n) && s == v * (e + r * d) % n && Cong(w * s, 1, n)
    ensures VerifyPoint(n, e, r, d, w) == k
  {
    hide Cong, VerifyPoint;
    var z := e + r * d;
    CongMod(v * z, n);
    CongScale(s, v * z, w, n);
    CongSym(w * s, 1, n);
    CongTrans(1, w * s, w * (v * z), n);
    CongScale(1, w * (v * z), k, n);
    Regroup(v, k, w, z);
    CongScale(v * k, 1, w * z, n);
    CongTrans(k, v * k * (w * z), w * z, n);
    VerifyPointClass(n, e, r, d, w);
    CongSym(k, w * z, n);
    var p := VerifyPoint(n, e, r, d, w);
    CongTrans(p, w * z, k, n);
    CongSmall(p, k, n);
    ModSmall(k, n);
  }

  lemma InverseExists(n: int, s: int) returns (w: int)
    requires IsPrime(n) && 0 < s < n
    ensures Cong(w * s, 1, n)
  {
    NotMultiple(n, s);
    w := PrimeInverse(n, s);
  }

  lemma NotMultiple(n: int, s: int)
    requires 0 < s < n
    ensures !Divides(n, s)
  {
    if Divides(n, s) { DividesLe(n, s); }
  }

  /** Completeness: whatever is signed verifies under the matching public key. */
  lemma Completeness(g: Group, d: int, e: int, r: int, s: int)
    requires Good(g) && Signed(g, d, e, r, s)
    ensures Verifies(g, d, e, r, s)
  {
    hide Cong, IsPrime, VerifyPoint;
    var k, v :| SignedWith(g, d, e, r, s, k, v);
    var w := InverseExists(g.n, s);
    PointIsNonce(g.n, e, r, d, k, v, w, s);
    assert VerifiesWith(g, d, e, r, s, w);
  }

  // ----- what the code's verifier does -----

  /** The result for r and s in range and w the computed inverse of s; the linear combination may
      be refused. */
  function VerifyOutcome(g: Group, q: nat, e: int, r: int, w: int): int
    requires g.n > 0
  {
    match MultiplyAdd(g.n, e * w % g.n, 1, r * w % g.n, q)
    case Fail(code) => code
    case Point(p) => if p == 0 || g.abscissa(p) % g.n != r then ERR_ECP_VERIFY_FAILED else 0
  }

  /** The verdict in terms of the standard: a hash that gives e = 0 is refused, because the scalar
      e / s is zero; so is the zero point as public key, unless the other scalar is 1. */
  ghost function Verdict(g: Group, q: nat, e: int, r: int, s: int): int
  {
    if !(0 < r < g.n && 0 < s < g.n) then ERR_ECP_VERIFY_FAILED
    else if e == 0 || (q == 0 && r != s) then ERR_ECP_INVALID_KEY
    else if Verifies(g, q, e, r, s) then 0 else ERR_ECP_VERIFY_FAILED
  }

  /** Soundness: what verifies is a signature, with the point computed as the nonce. */
  lemma VerifiesSigned(g: Group, q: int, e: int, r: int, s: int)
    requires Good(g) && Verifies(g, q, e, r, s)
    ensures Signed(g, q, e, r, s)
  {
    hide Cong, IsPrime, VerifyPoint;
    var w :| VerifiesWith(g, q, e, r, s, w);
    var n, z := g.n, e + r * q;
    var p := VerifyPoint(n, e, r, q, w);
    PrimeBig(n);
    var v := InverseExists(n, p);
    VerifyPointClass(n, e, r, q, w);
    NonceOfPoint(n, p, w, s, z, v);
    assert SignedWith(g, q, e, r, s, p, v);
  }

  /** From p = w z, with w the inverse of s and v that of p: s = v z. */
  lemma NonceOfPoint(n: int, p: int, w: int, s: int, z: int, v: int)
    requires n > 1 && 0 < s < n && Cong(p, w * z, n) && Cong(w * s, 1, n) && Cong(v * p, 1, n)
    ensures s == v * z % n
  {
    hide Cong;
    CongScale(p, w * z, s, n);
    CongScale(w * s, 1, z, n);
    assert w * z * s == w * s * z;
    CongTrans(p * s, w * s * z, z, n);
    CongScale(p * s, z, v, n);
    CongScale(v * p, 1, s, n);
    assert v * (p * s) == v * p * s;
    CongSym(v * p * s, s, n);
    CongTrans(s, v * p * s, v * z, n);
    CongSmall(s, v * z, n);
  }

  /** What the code accepts as a signature: one in the sense of the standard, unless the curve code
      refuses a scalar or the public key. */
  ghost predicate Acceptable(g: Group, q: int, e: int, r: int, s: int) {
    e != 0 && (q != 0 || r == s) && Signed(g, q, e, r, s)
  }

  /** The meaning of the verdict 0. */
  lemma VerdictZero(g: Group, q: nat, e: int, r: int, s: int)
    requires Good(g)
    ensures Verdict(g, q, e, r, s) == 0 <==> Acceptable(g, q, e, r, s)
    ensures Verdict(g, q, e, r, s) != 0 ==>
      Verdict(g, q, e, r, s)
      == if 0 < r < g.n && 0 < s < g.n && (e == 0 || (q == 0 && r != s)) then ERR_ECP_INVALID_KEY else ERR_ECP_VERIFY_FAILED
  {
    hide IsPrime, Cong, VerifyPoint;
    if Verifies(g, q, e, r, s) { VerifiesSigned(g, q, e, r, s); }
    if Signed(g, q, e, r, s) { Completeness(g, q, e, r, s); }
  }

  lemma UnitScalar(n: int, r: int, s: int, w: int)
    requires IsPrime(n) && 0 < r < n && 0 < s < n && Cong(w * s, 1, n)
    ensures r * w % n == 1 <==> r == s
    ensures r * w % n != 0
  {
    hide Cong, IsPrime;
    assert w * s == s * w;
    ModSmall(1, n) by { PrimeBig(n); }
    if r == s {
      CongByMod(w * s, n);
    }
    ScalarBack(n, r, s, w);
    ModSmall(r, n);
    ModSmall(s, n);
  }

  lemma CongByMod(a: int, n: int)
    requires n > 1 && Cong(a, 1, n)
    ensures a % n == 1
  {
    ModSmall(1, n);
  }

  /** A scalar divided by s, times s again. */
  lemma ScalarBack(n: int, r: int, s: int, w: int)
    requires n > 1 && Cong(w * s, 1, n)
    ensures r * w % n * s % n == r % n
  {
    hide Cong;
    CongMod(r * w, n);
    CongScale(r * w % n, r * w, s, n);
    CongScale(w * s, 1, r, n);
    assert r * w * s == r * (w * s);
    CongTrans(r * w % n * s, r * (w * s), r, n);
    SameResidue(r * w % n * s, r, n);
  }

  lemma SameResidue(a: int, b: int, n: int)
    requires n > 0 && Cong(a, b, n)
    ensures a % n == b % n
  {}

  /** Any inverse of s decides. */
  lemma OutcomeIsVerdict(g: Group, q: nat, e: int, r: int, s: int, w: int)
    requires Good(g) && 0 <= e < g.n && 0 < r < g.n && 0 < s < g.n && q < g.n && Cong(w * s, 1, g.n)
    ensures VerifyOutcome(g, q, e, r, w) == Verdict(g, q, e, r, s)
  {
    hide Cong, IsPrime, Verifies, MultiplyAdd;
    var n := g.n;
    PrimeBig(n);
    UnitScalar(n, r, s, w);
    ScalarBack(n, e, s, w);
    ModSmall(e, n);
    ModSmall(0, n);
    var u1, u2 := e * w % n, r * w % n;
    CongMod(e * w, n);
    CongMod(r * w, n);
    if e == 0 { assert e * w == 0; }
    if u1 == 0 { assert u1 * s == 0; }
    MultiplyAddValue(n, u1, 1, u2, q);
    assert u1 * 1 == u1;
    VerifyDecided(g, q, e, r, s, w);
  }

  /** Any two inverses of s lead to the same point. */
  lemma VerifyPointUnique(n: int, e: int, r: int, q: int, s: int, w: int, x: int)
    requires n > 0 && Cong(w * s, 1, n) && Cong(x * s, 1, n)
    ensures VerifyPoint(n, e, r, q, w) == VerifyPoint(n, e, r, q, x)
  {
    hide Cong, VerifyPoint;
    var z := e + r * q;
    CongScale(x * s, 1, w, n);
    CongScale(w * s, 1, x, n);
    assert w * (x * s) == x * (w * s);
    CongSym(w * (x * s), w, n);
    CongTrans(w, x * (w * s), x, n);
    CongScale(w, x, z, n);
    VerifyPointClass(n, e, r, q, w);
    VerifyPointClass(n, e, r, q, x);
    var p, p' := VerifyPoint(n, e, r, q, w), VerifyPoint(n, e, r, q, x);
    CongSym(p', x * z, n);
    CongTrans(p, w * z, x * z, n);
    CongTrans(p, x * z, p', n);
    CongSmall(p, p', n);
    ModSmall(p', n);
  }

  // ----- the hash as a number -----

  /** The number given by the leftmost nbits bits of the hash (section 4.1.3, step 5). */
  function Leftmost(buf: seq<Byte>, nbits: nat): nat {
    PowPos(2, if 8 * |buf| > nbits then 8 * |buf| - nbits else 0);
    if 8 * |buf| <= nbits then BigEndian(buf) else Quotient(BigEndian(buf), Pow(2, 8 * |buf| - nbits))
  }

  function Quotient(x: nat, d: nat): nat
    requires d > 0
  {
    DivShrinks(x, d);
    x / d
  }

  lemma QuotientPrefix(h: nat, l: nat, P: int, Q: int)
    requires P > 0 && Q > 0 && l < P
    ensures (h * P + l) / (Q * P) == h / Q
  {
    var q, r := h / Q, h % Q;
    assert h == q * Q + r by { assert h == Q * q + r; }
    assert h * P + l == q * (Q * P) + (r * P + l);
    MulMono(r, Q - 1, P);
    DivUnique(h * P + l, Q * P, q, r * P + l);
  }

  /** Octets beyond those that hold the leftmost bits do not matter. */
  lemma LeftmostPrefix(buf: seq<Byte>, nbits: nat, n: nat)
    requires nbits <= 8 * n && n <= |buf|
    ensures Leftmost(buf[..n], nbits) == Leftmost(buf, nbits)
  {
    hide Pow, BigEndian;
    var h, l := BigEndian(buf[..n]), BigEndian(buf[n..]);
    var k := |buf| - n;
    assert buf == buf[..n] + buf[n..];
    BytesConcat(buf[..n], buf[n..]);
    BytesBound(buf[n..]);
    var Q, P := Pow(2, 8 * n - nbits), Pow(256, k);
    PowPos(2, 8 * n - nbits);
    PowPos(256, k);
    MpiBinary.Pow256Bits(k);
    PowAdd(2, 8 * n - nbits, 8 * k);
    QuotientPrefix(h, l, P, Q);
    PowZero(2);
  }

  lemma LeftmostBound(buf: seq<Byte>, nbits: nat)
    ensures Leftmost(buf, nbits) < Pow(2, nbits)
  {
    hide Pow, BigEndian;
    var b := 8 * |buf|;
    BytesBound(buf);
    MpiBinary.Pow256Bits(|buf|);
    if b <= nbits {
      Pow2Mono(b, nbits);
    } else {
      PowAdd(2, nbits, b - nbits);
      PowPos(2, b - nbits);
      QuotientBelow(BigEndian(buf), Pow(2, nbits), Pow(2, b - nbits));
    }
  }

  lemma QuotientBelow(x: nat, m: int, d: int)
    requires d > 0 && x < m * d
    ensures x / d < m
  {
    var q := x / d;
    assert x == d * q + x % d;
    if q >= m { MulMono(m, q, d); }
  }

  // ----- signing -----

  /** derive_mpi: the hash reduced into [0, N). */
  method DeriveMpi(N: Mpi, nbits: nat, x: Mpi, buf: seq<Byte>)
    requires x != N && nbits > 0 && 0 < N.V() && Pow(2, nbits - 1) <= N.V() < Pow(2, nbits)
    modifies x
    ensures x.V() == Leftmost(buf, nbits) % N.V()
  {
    hide Nat, Pow, BigEndian, Leftmost;
    var nSize := (nbits + 7) / 8;
    var useSize := if |buf| > nSize then nSize else |buf|;
    MpiBinary.ReadBinary(x, buf[..useSize]);
    NotNegative(x);
    if useSize * 8 > nbits {
      ShiftR(x, useSize * 8 - nbits);
    }
    LeftmostIs(buf[..useSize], nbits);
    assert x.V() == Leftmost(buf[..useSize], nbits);
    if useSize < |buf| {
      LeftmostPrefix(buf, nbits, useSize);
    } else {
      assert buf[..useSize] == buf;
    }
    LeftmostBound(buf, nbits);
    DoublePow(nbits);
    OneSubtraction(Leftmost(buf, nbits), N.V());
    var cmp := CmpMpi(x, N);
    if cmp >= 0 {
      SubMpi(x, x, N);
    }
  }

  lemma NotNegative(x: Mpi)
    requires x.s == 1
    ensures x.V() == Nat(x.p)
  {}

  lemma LeftmostIs(buf: seq<Byte>, nbits: nat)
    ensures Leftmost(buf, nbits) ==
      if 8 * |buf| <= nbits then BigEndian(buf)
      else (PowPos(2, 8 * |buf| - nbits); BigEndian(buf) / Pow(2, 8 * |buf| - nbits))
  {}

  lemma DoublePow(n: nat)
    requires n > 0
    ensures Pow(2, n) == 2 * Pow(2, n - 1)
  {}

  lemma OneSubtraction(z: nat, n: int)
    requires 0 < n && z < 2 * n
    ensures z % n == if z < n then z else z - n
  {
    DivUnique(z, n, if z < n then 0 else 1, if z < n then z else z - n);
  }

  /** A number delivered by the curve code into X. */
  method Deliver(X: Mpi, v: nat)
    modifies X
    ensures X.s == 1 && X.V() == v
  {
    hide BigEndian, ToBytes, Nat, Pow;
    Der.SizeOfBounds(v);
    NumberRoundTrip(v, Der.SizeOf(v));
    MpiBinary.ReadBinary(X, ToBytes(v, Der.SizeOf(v)));
  }

  /** A nonce among those drawn, the position behind it, and how many tests of retry counters have
      been made in retries. */
  datatype Drawn = Exhausted | Drawn(k: nat, pos: nat, tests: nat)

  /**
   * The first nonce drawn whose point has an abscissa that is not 0 mod n. The first test of a retry
   * counter reads the zero just stored. The tests in retries read what lies behind it, as the source
   * advances the address in place of the count: over(j) says whether the j-th of them finds more
   * than ten, as the one at `limit` does.
   */
  ghost function FirstNonce(g: Group, draw: nat -> nat, over: nat -> bool, limit: nat, pos: nat, tests: nat): (r: Drawn)
    requires g.n > 0 && tests <= limit && over(limit)
    ensures r.Drawn? ==> tests <= r.tests <= limit && g.abscissa(r.k) % g.n != 0
    decreases limit - tests
  {
    if g.abscissa(draw(pos)) % g.n != 0 then Drawn(draw(pos), pos + 1, tests)
    else if over(tests) then Exhausted
    else FirstNonce(g, draw, over, limit, pos + 1, tests + 1)
  }

  /** The nonce a signature is made with: it also has to give s != 0. */
  ghost function SigningNonce(g: Group, d: int, e: int, draw: nat -> nat, over: nat -> bool, limit: nat, pos: nat, tests: nat): Drawn
    requires g.n > 0 && tests <= limit && over(limit)
    decreases limit - tests
  {
    match FirstNonce(g, draw, over, limit, pos, tests)
    case Exhausted => Exhausted
    case Drawn(k, next, made) =>
      if Usable(g, d, e, k) then Drawn(k, next, made)
      else if over(made) then Exhausted
      else SigningNonce(g, d, e, draw, over, limit, next, made + 1)
  }

  /** e + r d is not zero. */
  predicate Usable(g: Group, d: int, e: int, k: nat)
    requires g.n > 0
  {
    (e + g.abscissa(k) % g.n * d) % g.n != 0
  }

  /** If the first nonce drawn can be used, it is, whatever lies behind the counters. */
  lemma FirstNonceUsed(g: Group, d: int, e: int, draw: nat -> nat, over: nat -> bool, limit: nat)
    requires g.n > 0 && over(limit) && g.abscissa(draw(0)) % g.n != 0 && Usable(g, d, e, draw(0))
    ensures SigningNonce(g, d, e, draw, over, limit, 0, 0) == Drawn(draw(0), 1, 0)
  {}

  /** Steps 1 to 3: a nonce whose point has an abscissa that is not 0 mod N. */
  method Nonce(g: Group, N: Mpi, k: Mpi, r: Mpi, draw: nat -> nat, over: nat -> bool, ghost limit: nat, pos0: nat, tests0: nat)
    returns (ret: int, pos: nat, tests: nat)
    requires Good(g) && N.V() == g.n && k != N && r != N && k != r && tests0 <= limit && over(limit)
    requires forall i: nat :: 0 < draw(i) < g.n
    modifies k, r
    ensures 0 < g.n
    ensures match FirstNonce(g, draw, over, limit, pos0, tests0)
            case Exhausted => ret == ERR_ECP_RANDOM_FAILED
            case Drawn(j, next, made) =>
              ret == 0 && k.V() == j && 0 < j < g.n && pos == next && tests == made
              && 0 < r.V() < g.n && r.V() == g.abscissa(j) % g.n
  {
    hide Nat, Pow, IsPrime, FirstNonce;
    GroupOrder(g);
    pos, tests := pos0, tests0;
    while true
      invariant tests <= limit
      invariant FirstNonce(g, draw, over, limit, pos0, tests0) == FirstNonce(g, draw, over, limit, pos, tests)
      decreases limit - tests
      modifies k, r
    {
      NonceStep(g, draw, over, limit, pos, tests);
      TryNonce(g, N, k, r, draw(pos));
      pos := pos + 1;
      var cmp := CmpInt(r, 0);
      if cmp != 0 { return 0, pos, tests; }
      if over(tests) { return ERR_ECP_RANDOM_FAILED, pos, tests; }
      tests := tests + 1;
    }
  }

  lemma NonceStep(g: Group, draw: nat -> nat, over: nat -> bool, limit: nat, pos: nat, tests: nat)
    requires g.n > 0 && tests <= limit && over(limit)
    ensures FirstNonce(g, draw, over, limit, pos, tests) ==
      if g.abscissa(draw(pos)) % g.n != 0 then Drawn(draw(pos), pos + 1, tests)
      else if over(tests) then Exhausted
      else FirstNonce(g, draw, over, limit, pos + 1, tests + 1)
  {}

  /** r = xR mod N for the nonce j. */
  method TryNonce(g: Group, N: Mpi, k: Mpi, r: Mpi, j: nat)
    requires g.n > 0 && N.V() == g.n && k != N && r != N && k != r
    modifies k, r
    ensures k.V() == j && r.V() == g.abscissa(j) % g.n && 0 <= r.V() < g.n
  {
    hide Nat, Pow, Mpi.V;
    var R := new Mpi();
    Deliver(k, j);
    Deliver(R, g.abscissa(k.V()));
    var _ := ModMpi(r, R, N);
    CongMod(R.V(), g.n);
  }

  lemma NonceCoprime(n: int, k: int, t: int)
    requires IsPrime(n) && 0 < k < n && 0 < t < n
    ensures k * t > 0 && Gcd(Abs(k * t), Abs(n)) == 1
  {
    MulPos(k, t);
    NotMultiple(n, k);
    NotMultiple(n, t);
    if Divides(n, k * t) { EuclidLemma(n, k, t); }
    PrimeCoprime(n, k * t);
  }

  /** Step 6: s = t (e + r d) / (k t) mod N; e and k are overwritten. */
  method Quotients(g: Group, N: Mpi, r: Mpi, s: Mpi, d: Mpi, e: Mpi, k: Mpi, t: Mpi)
    requires Good(g) && N.V() == g.n && 0 < k.V() < g.n && 0 < t.V() < g.n && r.V() == g.abscissa(k.V()) % g.n
    requires s != N && s != r && s != d && s != e && s != k && s != t && e != N && e != r && e != d && e != k && e != t
    requires k != N && k != r && k != d && k != t && t != r && t != d && t != N
    modifies s, e, k
    ensures 0 <= s.V() < g.n
    ensures exists v: int :: SignedWith(g, d.V(), old(e.V()), r.V(), s.V(), old(k.V()), v)
  {
    hide Nat, Pow, IsPrime, Cong;
    ghost var k0, t0, e0, n := k.V(), t.V(), e.V(), g.n;
    MulMpi(s, r, d);
    AddMpi(e, e, s);
    ghost var z := e.V();
    MulMpi(e, e, t);
    MulMpi(k, k, t);
    NonceCoprime(n, k0, t0);
    PrimeBig(n);
    var _ := InvMod(s, k, N);
    ghost var u := s.V();
    MulMpi(s, s, e);
    var _ := ModMpi(s, s, N);
    CongMod(u * (z * t0), n);
    Unblinded(n, u, k0, t0, z);
    assert SignedWith(g, d.V(), e0, r.V(), s.V(), k0, u * t0);
  }

  lemma PrimeBig(n: int)
    requires IsPrime(n)
    ensures n > 1
  {}

  /** The blinding factor moves from numerator and denominator into the inverse of the nonce. */
  lemma Unblinded(n: int, u: int, k: int, t: int, z: int)
    requires n > 1 && u * (k * t) % n == 1
    ensures Cong(u * t * k, 1, n) && u * (z * t) == u * t * z
  {
    assert u * (k * t) == u * t * k;
    ModSmall(1, n);
  }

  /** ecdsa_sign_restartable without a restart context; draw and blind deliver private keys, over and
      limit are those of FirstNonce. */
  method Sign(g: Group, N: Mpi, r: Mpi, s: Mpi, d: Mpi, buf: seq<Byte>, draw: nat -> nat, blind: nat -> nat, over: nat -> bool, ghost limit: nat)
    returns (ret: int)
    requires Good(g) && N.V() == g.n && r != s && r != d && s != d && r != N && s != N && over(limit)
    requires forall i: nat :: 0 < draw(i) < g.n && 0 < blind(i) < g.n
    modifies r, s
    ensures ret == 0 || ret == ERR_ECP_BAD_INPUT_DATA || ret == ERR_ECP_INVALID_KEY || ret == ERR_ECP_RANDOM_FAILED
    ensures ret == ERR_ECP_BAD_INPUT_DATA <==> !g.canDo || old(N.p) == []
    ensures ret == ERR_ECP_INVALID_KEY <==> g.canDo && old(N.p) != [] && !(0 < old(d.V()) < g.n)
    ensures ret == 0 ==> 0 < d.V() < g.n && Signed(g, d.V(), Leftmost(buf, g.nbits) % g.n, r.V(), s.V())
    ensures g.n > 0
    ensures ret == 0 <==>
      g.canDo && old(N.p) != [] && 0 < old(d.V()) < g.n
      && SigningNonce(g, old(d.V()), Leftmost(buf, g.nbits) % g.n, draw, over, limit, 0, 0).Drawn?
  {
    hide Nat, Pow, IsPrime, Signed, Leftmost, SigningNonce;
    GroupOrder(g);
    if !g.canDo || N.p == [] {
      return ERR_ECP_BAD_INPUT_DATA;
    }
    var low := CmpInt(d, 1);
    var high := CmpMpi(d, N);
    if low < 0 || high >= 0 {
      return ERR_ECP_INVALID_KEY;
    }
    ret := SignLoop(g, N, r, s, d, buf, draw, blind, over, limit);
  }

  /** The outer loop. */
  method SignLoop(g: Group, N: Mpi, r: Mpi, s: Mpi, d: Mpi, buf: seq<Byte>, draw: nat -> nat, blind: nat -> nat, over: nat -> bool, ghost limit: nat)
    returns (ret: int)
    requires Good(g) && N.V() == g.n && r != s && r != d && s != d && r != N && s != N && over(limit)
    requires forall i: nat :: 0 < draw(i) < g.n && 0 < blind(i) < g.n
    modifies r, s
    ensures g.n > 0
    ensures var e := Leftmost(buf, g.nbits) % g.n;
            if SigningNonce(g, d.V(), e, draw, over, limit, 0, 0).Drawn? then ret == 0 && Signed(g, d.V(), e, r.V(), s.V())
            else ret == ERR_ECP_RANDOM_FAILED
  {
    hide Nat, Pow, IsPrime, Signed, Leftmost, FirstNonce, Usable, SigningNonce, Mpi.V;
    GroupOrder(g);
    ghost var e0, d0 := Leftmost(buf, g.nbits) % g.n, d.V();
    var tests, pos, blinds := 0, 0, 0;
    while true
      invariant tests <= limit
      invariant SigningNonce(g, d0, e0, draw, over, limit, 0, 0) == SigningNonce(g, d0, e0, draw, over, limit, pos, tests)
      decreases limit - tests
      modifies r, s
    {
      SigningStep(g, d0, e0, draw, over, limit, pos, tests);
      ret, pos, tests := TrySign(g, N, r, s, d, buf, draw, over, limit, pos, tests, blind(blinds));
      if ret != 0 { return; }
      blinds := blinds + 1;
      var cmp := CmpInt(s, 0);
      if cmp != 0 { return 0; }
      if over(tests) { return ERR_ECP_RANDOM_FAILED; }
      tests := tests + 1;
    }
  }

  lemma SigningStep(g: Group, d: int, e: int, draw: nat -> nat, over: nat -> bool, limit: nat, pos: nat, tests: nat)
    requires g.n > 0 && tests <= limit && over(limit)
    ensures match FirstNonce(g, draw, over, limit, pos, tests)
            case Exhausted => SigningNonce(g, d, e, draw, over, limit, pos, tests) == Exhausted
            case Drawn(k, next, made) =>
              tests <= made <= limit && SigningNonce(g, d, e, draw, over, limit, pos, tests) ==
                if Usable(g, d, e, k) then Drawn(k, next, made)
                else if over(made) then Exhausted
                else SigningNonce(g, d, e, draw, over, limit, next, made + 1)
  {
    hide Usable, FirstNonce;
  }

  /** One turn of the outer loop. */
  method TrySign(g: Group, N: Mpi, r: Mpi, s: Mpi, d: Mpi, buf: seq<Byte>, draw: nat -> nat, over: nat -> bool, ghost limit: nat,
    pos0: nat, tests0: nat, blind: nat) returns (ret: int, pos: nat, tests: nat)
    requires Good(g) && N.V() == g.n && r != s && r != d && s != d && r != N && s != N && 0 < blind < g.n
    requires tests0 <= limit && over(limit) && forall i: nat :: 0 < draw(i) < g.n
    modifies r, s
    ensures g.n > 0
    ensures var e := Leftmost(buf, g.nbits) % g.n;
            match FirstNonce(g, draw, over, limit, pos0, tests0)
            case Exhausted => ret == ERR_ECP_RANDOM_FAILED
            case Drawn(k, next, made) =>
              ret == 0 && pos == next && tests == made && (s.V() != 0 <==> Usable(g, d.V(), e, k))
              && (s.V() != 0 ==> Signed(g, d.V(), e, r.V(), s.V()))
  {
    hide Nat, Pow, IsPrime, SignedWith, Leftmost, FirstNonce;
    GroupOrder(g);
    var k := new Mpi();
    var e := new Mpi();
    var t := new Mpi();
    ret, pos, tests := Nonce(g, N, k, r, draw, over, limit, pos0, tests0);
    if ret != 0 { return; }
    ghost var k0 := k.V();
    DeriveMpi(N, g.nbits, e, buf);
    ghost var e0 := e.V();
    Deliver(t, blind);
    Quotients(g, N, r, s, d, e, k, t);
    NonZeroSignature(g, d.V(), e0, r.V(), s.V(), k0);
  }

  /** s is zero exactly if e + r d is. */
  lemma NonZeroSignature(g: Group, d: int, e: int, r: int, s: int, k: int)
    requires g.n > 1 && exists v: int :: SignedWith(g, d, e, r, s, k, v)
    ensures s == 0 <==> (e + r * d) % g.n == 0
  {
    var v :| SignedWith(g, d, e, r, s, k, v);
    var z, n := e + r * d, g.n;
    hide Cong;
    if z % n == 0 {
      CongZero(z, n);
      CongScale(z, 0, v, n);
      CongValue(v * z, 0, n);
    }
    if s == 0 {
      CongZero(v * z, n);
      CongScale(v * z, 0, k, n);
      CongScale(v * k, 1, z, n);
      assert k * (v * z) == v * k * z;
      CongSym(v * k * z, z, n);
      CongTrans(z, v * k * z, 0, n);
      CongValue(z, 0, n);
    }
  }

  lemma CongZero(a: int, n: int)
    requires n > 0 && a % n == 0
    ensures Cong(a, 0, n)
  {}

  lemma CongValue(a: int, b: int, n: int)
    requires n > 0 && Cong(a, b, n)
    ensures a % n == b % n
  {}

  /** A nonce with a usable abscissa gives a signature unless e + r d is zero. */
  lemma SignatureExists(g: Group, d: int, e: int, k: int) returns (r: int, s: int)
    requires Good(g) && 0 < k < g.n && g.abscissa(k) % g.n != 0 && (e + g.abscissa(k) % g.n * d) % g.n != 0
    ensures Signed(g, d, e, r, s)
  {
    hide IsPrime, Cong;
    GroupOrder(g);
    var v := InverseExists(g.n, k);
    r := g.abscissa(k) % g.n;
    s := v * (e + r * d) % g.n;
    assert SignedWith(g, d, e, r, s, k, v);
    CongMod(v * (e + r * d), g.n);
    NonZeroSignature(g, d, e, r, s, k);
  }

  lemma GroupOrder(g: Group)
    requires Good(g)
    ensures g.n > 1 && g.nbits > 0 && Pow(2, g.nbits - 1) <= g.n < Pow(2, g.nbits)
  {}

  // ----- verification -----

  /** Step 4: u1 = e / s mod N, u2 = r / s mod N. */
  method Factors(g: Group, N: Mpi, r: Mpi, s: Mpi, e: Mpi, u1: Mpi, u2: Mpi) returns (ghost w: int)
    requires Good(g) && N.V() == g.n && 0 < s.V() < g.n
    requires u1 != u2 && u1 != N && u1 != r && u1 != s && u1 != e && u2 != N && u2 != r && u2 != s && u2 != e
    modifies u1, u2
    ensures Cong(w * s.V(), 1, g.n)
    ensures u1.V() == e.V() * w % g.n && u2.V() == r.V() * w % g.n
  {
    hide Nat, Pow, IsPrime;
    var sInv := new Mpi();
    GroupOrder(g);
    NonceCoprime(g.n, s.V(), 1);
    var _ := InvMod(sInv, s, N);
    w := sInv.V();
    ModSmall(1, g.n);
    MulMpi(u1, e, sInv);
    var _ := ModMpi(u1, u1, N);
    MulMpi(u2, r, sInv);
    var _ := ModMpi(u2, u2, N);
  }

  /** Steps 3 to 8, for r and s in range. */
  method VerifyInRange(g: Group, N: Mpi, buf: seq<Byte>, q: nat, r: Mpi, s: Mpi) returns (ret: int)
    requires Good(g) && N.V() == g.n && q < g.n && 0 < r.V() < g.n && 0 < s.V() < g.n
    ensures ret == Verdict(g, q, Leftmost(buf, g.nbits) % g.n, r.V(), s.V())
  {
    hide Nat, Pow, IsPrime, Cong, Leftmost, Verdict, Good, MultiplyAdd;
    var e := new Mpi();
    var u1 := new Mpi();
    var u2 := new Mpi();
    var R := new Mpi();
    GroupOrder(g);
    DeriveMpi(N, g.nbits, e, buf);
    ghost var w := Factors(g, N, r, s, e, u1, u2);
    CongMod(Leftmost(buf, g.nbits), g.n);
    OutcomeIsVerdict(g, q, e.V(), r.V(), s.V(), w);
    match MultiplyAdd(g.n, u1.V(), 1, u2.V(), q)
    case Fail(code) =>
      return code;
    case Point(p) =>
      if p == 0 {
        return ERR_ECP_VERIFY_FAILED;
      }
      Deliver(R, g.abscissa(p));
      var _ := ModMpi(R, R, N);
      var cmp := CmpMpi(R, r);
      ret := if cmp != 0 then ERR_ECP_VERIFY_FAILED else 0;
  }

  /** ecdsa_verify_restartable without a restart context; q is the logarithm of the public key. */
  method Verify(g: Group, N: Mpi, buf: seq<Byte>, q: nat, r: Mpi, s: Mpi) returns (ret: int)
    requires Good(g) && N.V() == g.n && N.p != [] && q < g.n
    ensures ret == if !g.canDo then ERR_ECP_BAD_INPUT_DATA else Verdict(g, q, Leftmost(buf, g.nbits) % g.n, r.V(), s.V())
    ensures ret == 0 <==> g.canDo && Acceptable(g, q, Leftmost(buf, g.nbits) % g.n, r.V(), s.V())
  {
    hide Nat, Pow, IsPrime, Leftmost, Verifies, Acceptable;
    GroupOrder(g);
    VerdictZero(g, q, Leftmost(buf, g.nbits) % g.n, r.V(), s.V());
    if !g.canDo {
      return ERR_ECP_BAD_INPUT_DATA;
    }
    var c1 := CmpInt(r, 1);
    var c2 := CmpMpi(r, N);
    var c3 := CmpInt(s, 1);
    var c4 := CmpMpi(s, N);
    if c1 < 0 || c2 >= 0 || c3 < 0 || c4 >= 0 {
      return ERR_ECP_VERIFY_FAILED;
    }
    ret := VerifyInRange(g, N, buf, q, r, s);
  }

  /** Any inverse of s decides whether the standard accepts. */
  lemma VerifyDecided(g: Group, q: int, e: int, r: int, s: int, w: int)
    requires Good(g) && 0 < r < g.n && 0 < s < g.n && Cong(w * s, 1, g.n)
    ensures Verifies(g, q, e, r, s) <==>
      var p: nat := (e * w % g.n + r * w % g.n * q) % g.n; p != 0 && g.abscissa(p) % g.n == r
  {
    hide Cong, IsPrime;
    if Verifies(g, q, e, r, s) {
      var x :| VerifiesWith(g, q, e, r, s, x);
      VerifyPointUnique(g.n, e, r, q, s, w, x);
    }
    if VerifiesWith(g, q, e, r, s, w) {}
  }

  // ----- the signature on the wire -----

  /** MBEDTLS_ECDSA_MAX_LEN, for numbers of at most MAX_BYTES octets. */
  const MAX_BYTES := 66
  const MAX_LEN := 3 + 2 * (3 + MAX_BYTES)

  predicate Encodable(r: nat, s: nat) {
    r > 0 && s > 0 && Der.SizeOf(r) <= MAX_BYTES && Der.SizeOf(s) <= MAX_BYTES
  }

  function IntegerOctets(x: nat): (r: seq<Byte>)
    requires Der.SizeOf(x) <= MAX_BYTES
    ensures |r| <= 3 + MAX_BYTES
  {
    Der.Tlv(Der.INTEGER, Der.Content(true, x, 0))
  }

  /** Ecdsa-Sig-Value: a sequence of the two integers. */
  function SignatureOctets(r: nat, s: nat): (o: seq<Byte>)
    requires Encodable(r, s)
    ensures |o| <= MAX_LEN
  {
    Der.Tlv(Der.SEQUENCE, IntegerOctets(r) + IntegerOctets(s))
  }

  datatype Parsed = Malformed(code: int) | Signature(r: nat, s: nat, left: nat)

  datatype Number = NoNumber(code: int) | Number(value: nat, rest: seq<Byte>)

  function ReadInteger(b: seq<Byte>): Number {
    match Der.ReadTag(b, Der.INTEGER)
    case Fail(code) => NoNumber(code + ERR_ECP_BAD_INPUT_DATA)
    case Length(len, used) => Number(BigEndian(b[used..used + len]), b[used + len..])
  }

  function ReadBody(b: seq<Byte>): Parsed {
    match ReadInteger(b)
    case NoNumber(code) => Malformed(code)
    case Number(r, c) =>
      match ReadInteger(c)
      case NoNumber(code) => Malformed(code)
      case Number(s, rest) => Signature(r, s, |rest|)
  }

  function ParseSignature(o: seq<Byte>): Parsed {
    match Der.ReadTag(o, Der.SEQUENCE)
    case Fail(code) => Malformed(code + ERR_ECP_BAD_INPUT_DATA)
    case Length(len, used) =>
      if used + len != |o| then Malformed(ERR_ECP_BAD_INPUT_DATA + ERR_LENGTH_MISMATCH) else ReadBody(o[used..])
  }

  lemma IntegerRoundTrip(x: nat, rest: seq<Byte>)
    requires Der.SizeOf(x) <= MAX_BYTES
    ensures ReadInteger(IntegerOctets(x) + rest) == Number(x, rest)
  {
    hide Der.ReadTag, Der.Tlv, Der.Content, BigEndian;
    var c := Der.Content(true, x, 0);
    Der.TlvRoundTrip(Der.INTEGER, c, rest);
    Der.ContentValue(true, x, 0);
  }

  /** Reading a written signature gives the two numbers back and leaves nothing over. */
  lemma SignatureRoundTrip(r: nat, s: nat)
    requires Encodable(r, s)
    ensures ParseSignature(SignatureOctets(r, s)) == Signature(r, s, 0)
  {
    hide Der.ReadTag, Der.Tlv, ReadInteger, IntegerOctets;
    var body := IntegerOctets(r) + IntegerOctets(s);
    Der.TlvRoundTrip(Der.SEQUENCE, body, []);
    var o := SignatureOctets(r, s);
    assert o + [] == o;
    IntegerRoundTrip(r, IntegerOctets(s));
    IntegerRoundTrip(s, []);
    assert IntegerOctets(s) + [] == IntegerOctets(s);
    var u := 2 + Der.LengthSize(|body|);
    assert o[u..] == o[u..u + |body|] == body;
  }

  /** The octets for 1 and 128. */
  lemma SignatureExample()
    ensures Encodable(1, 0x80) && SignatureOctets(1, 0x80) == [0x30, 0x07, 0x02, 0x01, 0x01, 0x02, 0x02, 0x00, 0x80]
  {
    hide Der.SizeOf, ToBytes;
    OneOctet(1);
    OneOctet(0x80);
    assert IntegerOctets(1) == [0x02, 0x01, 0x01];
    assert IntegerOctets(0x80) == [0x02, 0x02, 0x00, 0x80];
  }

  lemma OneOctet(x: nat)
    requires 0 < x < 0x100
    ensures Der.SizeOf(x) == 1 && ToBytes(x, 1) == [x]
  {
    assert ToBytes(x / 256, 0) == [];
  }

  /** Three headers, two contents between them, octets left over: the form of what is read. */
  ghost predicate Form(o: seq<Byte>, h: seq<Byte>, h1: seq<Byte>, c1: seq<Byte>, h2: seq<Byte>, c2: seq<Byte>, rest: seq<Byte>) {
    o == h + (h1 + (c1 + (h2 + (c2 + rest))))
    && Der.Heads(h, Der.SEQUENCE, |o| - |h|) && Der.Heads(h1, Der.INTEGER, |c1|) && Der.Heads(h2, Der.INTEGER, |c2|)
  }

  lemma IntegerRead(b: seq<Byte>, h: seq<Byte>, c: seq<Byte>, rest: seq<Byte>)
    requires b == h + (c + rest) && Der.Heads(h, Der.INTEGER, |c|)
    ensures ReadInteger(b) == Number(BigEndian(c), rest)
  {
    hide Der.Heads, Der.ReadTag, BigEndian, ReadInteger;
    HeadRead(h, Der.INTEGER, |c|, c + rest);
    ThreeParts(h, c, rest);
    IntegerIs(b, |h|, |h| + |c|, c, rest);
  }

  lemma HeadRead(h: seq<Byte>, tag: Byte, len: nat, t: seq<Byte>)
    requires Der.Heads(h, tag, len) && len <= |t|
    ensures Der.ReadTag(h + t, tag) == Der.Length(len, |h|)
  {
    hide Der.Heads, Der.ReadTag;
    Der.TagRead(h + t, tag, len, |h|);
    assert (h + t)[..|h|] == h;
  }

  lemma IntegerIs(b: seq<Byte>, n: nat, m: nat, c: seq<Byte>, rest: seq<Byte>)
    requires n <= m <= |b| && Der.ReadTag(b, Der.INTEGER) == Der.Length(m - n, n) && b[n..m] == c && b[m..] == rest
    ensures ReadInteger(b) == Number(BigEndian(c), rest)
  {
    hide Der.ReadTag, BigEndian;
  }

  lemma ThreeParts(h: seq<Byte>, c: seq<Byte>, rest: seq<Byte>)
    ensures var b, n, m := h + (c + rest), |h|, |h| + |c|;
            m <= |b| && b[..n] == h && b[n..m] == c && b[m..] == rest && b[n..] == c + rest
  {}

  lemma IntegerForm(b: seq<Byte>) returns (h: seq<Byte>, c: seq<Byte>)
    requires ReadInteger(b).Number?
    ensures var n := ReadInteger(b); b == h + (c + n.rest) && Der.Heads(h, Der.INTEGER, |c|) && n.value == BigEndian(c)
  {
    hide Der.Heads, Der.ReadTag, BigEndian;
    var l := Der.ReadTag(b, Der.INTEGER);
    Der.TagRead(b, Der.INTEGER, l.len, l.used);
    h, c := b[..l.used], b[l.used..l.used + l.len];
  }

  /** Octets of the form are read as the numbers in them, */
  lemma FormRead(o: seq<Byte>, h: seq<Byte>, h1: seq<Byte>, c1: seq<Byte>, h2: seq<Byte>, c2: seq<Byte>, rest: seq<Byte>)
    requires Form(o, h, h1, c1, h2, c2, rest)
    ensures ParseSignature(o) == Signature(BigEndian(c1), BigEndian(c2), |rest|)
  {
    hide Der.Heads, Der.ReadTag, BigEndian, ReadInteger;
    HeadRead(h, Der.SEQUENCE, |o| - |h|, o[|h|..]);
    assert o[..|h|] == h && o == h + o[|h|..] && o[|h|..] == h1 + (c1 + (h2 + (c2 + rest)));
    IntegerRead(o[|h|..], h1, c1, h2 + (c2 + rest));
    IntegerRead(h2 + (c2 + rest), h2, c2, rest);
  }

  /** and no other octets are. */
  lemma ReadForm(o: seq<Byte>) returns (h: seq<Byte>, h1: seq<Byte>, c1: seq<Byte>, h2: seq<Byte>, c2: seq<Byte>, rest: seq<Byte>)
    requires ParseSignature(o).Signature?
    ensures Form(o, h, h1, c1, h2, c2, rest) && ParseSignature(o) == Signature(BigEndian(c1), BigEndian(c2), |rest|)
  {
    hide Der.Heads, Der.ReadTag, BigEndian, ReadInteger;
    var l := Der.ReadTag(o, Der.SEQUENCE);
    Der.TagRead(o, Der.SEQUENCE, l.len, l.used);
    h := o[..l.used];
    h1, c1 := IntegerForm(o[l.used..]);
    var n := ReadInteger(o[l.used..]);
    h2, c2 := IntegerForm(n.rest);
    rest := ReadInteger(n.rest).rest;
    assert o == h + o[l.used..];
  }

  /** Completeness through the wire: a signature written out, read back and checked is accepted. */
  lemma WireCompleteness(g: Group, d: int, e: int, r: nat, s: nat)
    requires Good(g) && Signed(g, d, e, r, s) && Encodable(r, s)
    ensures ParseSignature(SignatureOctets(r, s)) == Signature(r, s, 0) && Verifies(g, d, e, r, s)
  {
    SignatureRoundTrip(r, s);
    Completeness(g, d, e, r, s);
  }

  /** s, then r in front of it, at the end of the buffer. */
  method WriteIntegers(r: Mpi, s: Mpi, buf: array<Byte>) returns (ret: int, p: nat)
    requires r.V() > 0 && s.V() > 0 && buf.Length == MAX_LEN
    modifies buf
    ensures ret >= 0 ==> p <= MAX_LEN
    ensures Encodable(r.V(), s.V()) ==> ret >= 0 && buf[p..] == IntegerOctets(r.V()) + IntegerOctets(s.V())
  {
    hide Nat, Der.Content, Der.Tlv;
    Positive(r);
    Positive(s);
    Der.ContentOfNonZero(s.V(), 0);
    assert buf[MAX_LEN..] == [];
    var outside;
    ret, p, outside := Der.WriteMpi(s, buf, MAX_LEN, 0);
    IntegerSize(s.V());
    if ret < 0 { return; }
    assert Encodable(r.V(), s.V()) ==> buf[p..] == IntegerOctets(s.V());
    Der.ContentOfNonZero(r.V(), buf[p]);
    ret, p, outside := Der.WriteMpi(r, buf, p, 0);
    IntegerSize(r.V());
  }

  lemma IntegerSize(x: nat)
    ensures Der.SizeOf(x) <= MAX_BYTES ==> Der.ToInt(|IntegerOctets(x)|) == |IntegerOctets(x)|
  {
    if Der.SizeOf(x) <= MAX_BYTES { Der.ToIntSmall(|IntegerOctets(x)|); }
  }

  method CopyOut(sig: array<Byte>, buf: array<Byte>, p: nat, n: nat)
    requires n <= sig.Length && p + n <= buf.Length && sig != buf
    modifies sig
    ensures sig[..n] == buf[p..p + n]
  {
    for i := 0 to n
      invariant sig[..i] == buf[p..p + i]
    {
      sig[i] := buf[p + i];
    }
  }

  /** ecdsa_signature_to_asn1. */
  method SignatureToAsn1(r: Mpi, s: Mpi, sig: array<Byte>) returns (ret: int, slen: nat)
    requires r.V() > 0 && s.V() > 0 && sig.Length >= MAX_LEN
    modifies sig
    ensures Encodable(r.V(), s.V()) ==> ret == 0 && slen <= sig.Length && sig[..slen] == SignatureOctets(r.V(), s.V())
  {
    hide Nat, Der.Content, Der.Tlv, SignatureOctets, IntegerOctets, Encodable, Mpi.V;
    var buf := new Byte[MAX_LEN](_ => 0);
    var p: nat;
    slen := 0;
    ret, p := WriteIntegers(r, s, buf);
    if ret < 0 { return ret, 0; }
    assert buf[p..MAX_LEN] == buf[p..] && buf[MAX_LEN..] == [];
    ghost var body := buf[p..];
    ret, p := Der.WriteHeader(buf, p, MAX_LEN, Der.SEQUENCE);
    assert ret >= 0 ==> Der.Tlv(Der.SEQUENCE, body) + [] == Der.Tlv(Der.SEQUENCE, body);
    SignatureIs(r.V(), s.V());
    if ret < 0 { return ret, 0; }
    slen := ret;
    assert buf[p..p + slen] == buf[p..];
    CopyOut(sig, buf, p, slen);
    ret := 0;
  }

  lemma Positive(x: Mpi)
    requires x.V() > 0
    ensures x.s == 1 && Nat(x.p) == x.V()
  {}

  lemma SignatureIs(r: int, s: int)
    requires r > 0 && s > 0
    ensures Encodable(r, s) ==>
      var body := IntegerOctets(r) + IntegerOctets(s);
      SignatureOctets(r, s) == Der.Tlv(Der.SEQUENCE, body) && 2 + Der.LengthSize(|body|) + |body| <= MAX_LEN
  {}

  /** mbedtls_ecdsa_read_signature: accepts exactly the octets that parse to a signature that
      verifies with nothing following; a valid signature followed by more has its own error. */
  method ReadSignature(g: Group, N: Mpi, hash: seq<Byte>, q: nat, sig: array<Byte>, slen: nat) returns (ret: int)
    requires Good(g) && g.canDo && N.V() == g.n && N.p != [] && q < g.n && slen <= sig.Length
    ensures ret == 0 <==> Accepts(g, q, hash, sig[..slen])
    ensures match ParseSignature(sig[..slen])
            case Malformed(code) => ret == code
            case Signature(r, s, left) =>
              var verdict := Verdict(g, q, Leftmost(hash, g.nbits) % g.n, r, s);
              ret == if verdict == 0 && left > 0 then ERR_ECP_SIG_LEN_MISMATCH else verdict
  {
    hide Nat, Pow, Verdict, Leftmost, Good, Der.ReadTag, BigEndian, Acceptable;
    var p: nat, len: nat;
    AcceptsByVerdict(g, q, hash, sig[..slen]);
    assert sig[0..slen] == sig[..slen];
    ReadErrors(sig[..slen], Der.SEQUENCE);
    ret, p, len := Der.GetTag(sig, 0, slen, Der.SEQUENCE);
    if ret != 0 {
      return ret + ERR_ECP_BAD_INPUT_DATA;
    }
    if p + len != slen {
      return ERR_ECP_BAD_INPUT_DATA + ERR_LENGTH_MISMATCH;
    }
    assert sig[..slen][p..] == sig[p..slen];
    ret := ReadAndVerify(g, N, hash, q, sig, p, slen);
  }

  const ERR_LENGTH_MISMATCH := -0x0066

  lemma ReadErrors(b: seq<Byte>, tag: Byte)
    ensures Der.ReadTag(b, tag).Fail? ==> -0x1000 < Der.ReadTag(b, tag).code < 0
  {}

  method ReadNumber(sig: array<Byte>, p: nat, end: nat, X: Mpi) returns (ret: int, p': nat)
    requires p <= end <= sig.Length
    modifies X
    ensures match ReadInteger(sig[p..end])
            case NoNumber(code) => ret + ERR_ECP_BAD_INPUT_DATA == code && ret < 0
            case Number(v, rest) => ret == 0 && p' <= end && X.V() == v && sig[p'..end] == rest
  {
    hide Nat, Der.ReadTag, BigEndian;
    ghost var b := sig[p..end];
    ReadErrors(b, Der.INTEGER);
    ret, p' := Der.GetMpi(sig, p, end, X);
    if ret == 0 {
      ghost var u, l := Der.ReadTag(b, Der.INTEGER).used, Der.ReadTag(b, Der.INTEGER).len;
      assert p' == p + u + l && u + l <= |b|;
      SliceOfSlice(sig[..], p, end, u, u + l);
      SliceOfSlice(sig[..], p, end, u + l, end - p);
      assert sig[..][p..end] == b && b[u + l..end - p] == b[u + l..];
      assert sig[p + u..p + u + l] == sig[..][p + u..p + u + l] && sig[p + u + l..end] == sig[..][p + u + l..end];
    }
  }

  /** The two integers, the check, and the check that nothing follows. */
  method ReadAndVerify(g: Group, N: Mpi, hash: seq<Byte>, q: nat, sig: array<Byte>, p0: nat, end: nat) returns (ret: int)
    requires Good(g) && g.canDo && N.V() == g.n && N.p != [] && q < g.n && p0 <= end <= sig.Length
    ensures match ReadBody(sig[p0..end])
            case Malformed(code) => ret == code < 0
            case Signature(r, s, left) =>
              var verdict := Verdict(g, q, Leftmost(hash, g.nbits) % g.n, r, s);
              ret == if verdict == 0 && left > 0 then ERR_ECP_SIG_LEN_MISMATCH else verdict
  {
    hide Nat, Pow, Verdict, Leftmost, Good, ReadInteger, Mpi.V;
    var r := new Mpi();
    var s := new Mpi();
    var p: nat;
    ret, p := ReadNumber(sig, p0, end, r);
    if ret != 0 {
      return ret + ERR_ECP_BAD_INPUT_DATA;
    }
    ret, p := ReadNumber(sig, p, end, s);
    if ret != 0 {
      return ret + ERR_ECP_BAD_INPUT_DATA;
    }
    ret := Verify(g, N, hash, q, r, s);
    if ret == 0 && p != end {
      ret := ERR_ECP_SIG_LEN_MISMATCH;
    }
  }

  // ----- from signer to reader -----

  /** What the reader accepts under public key q. */
  ghost predicate Accepts(g: Group, q: nat, hash: seq<Byte>, o: seq<Byte>)
    requires g.n > 0
  {
    match ParseSignature(o)
    case Malformed(_) => false
    case Signature(r, s, left) => left == 0 && Acceptable(g, q, Leftmost(hash, g.nbits) % g.n, r, s)
  }

  lemma AcceptsByVerdict(g: Group, q: nat, hash: seq<Byte>, o: seq<Byte>)
    requires Good(g)
    ensures g.n > 0 && (Accepts(g, q, hash, o) <==>
      match ParseSignature(o)
      case Malformed(_) => false
      case Signature(r, s, left) => left == 0 && Verdict(g, q, Leftmost(hash, g.nbits) % g.n, r, s) == 0)
    ensures match ParseSignature(o) case Malformed(code) => code != 0 case _ => true
  {
    hide Verdict, Leftmost, Acceptable, ReadBody, Der.ReadTag, Pow;
    GroupOrder(g);
    match ParseSignature(o)
    case Malformed(_) => MalformedCode(o);
    case Signature(r, s, _) => VerdictZero(g, q, Leftmost(hash, g.nbits) % g.n, r, s);
  }

  lemma MalformedCode(o: seq<Byte>)
    ensures match ParseSignature(o) case Malformed(code) => code < 0 case _ => true
  {
    hide Der.ReadTag;
    ReadErrors(o, Der.SEQUENCE);
    match Der.ReadTag(o, Der.SEQUENCE)
    case Fail(_) =>
    case Length(len, used) =>
      var b := o[used..];
      ReadErrors(b, Der.INTEGER);
      match ReadInteger(b)
      case NoNumber(_) =>
      case Number(_, c) => ReadErrors(c, Der.INTEGER);
  }

  lemma EncodableBelow(g: Group, x: nat)
    requires Good(g) && g.nbits <= 8 * MAX_BYTES && x < g.n
    ensures Der.SizeOf(x) <= MAX_BYTES
  {
    hide Pow;
    Pow2Mono(g.nbits, 8 * MAX_BYTES);
    MpiBinary.Pow256Bits(MAX_BYTES);
    Der.SizeOfBounds(x);
    if Der.SizeOf(x) > MAX_BYTES {
      MpiBinary.PowMono256(MAX_BYTES, Der.SizeOf(x) - 1);
    }
  }

  lemma SignedAccepted(g: Group, d: int, hash: seq<Byte>, r: int, s: int)
    requires Good(g) && g.nbits <= 8 * MAX_BYTES && Signed(g, d, Leftmost(hash, g.nbits) % g.n, r, s)
    requires 0 < d < g.n
    ensures r > 0 && s > 0 && Encodable(r, s)
    ensures Accepts(g, d, hash, SignatureOctets(r, s)) <==> Leftmost(hash, g.nbits) % g.n != 0
  {
    hide Pow, SignatureOctets, Leftmost, Verifies, ParseSignature;
    EncodableBelow(g, r);
    EncodableBelow(g, s);
    WireCompleteness(g, d, Leftmost(hash, g.nbits) % g.n, r, s);
  }

  /** A hash of zero octets derives the number zero, whatever its length: signatures over it are
      made and never accepted. */
  lemma {:induction false} ZeroHash(hash: seq<Byte>, nbits: nat)
    requires forall i :: 0 <= i < |hash| ==> hash[i] == 0
    ensures Leftmost(hash, nbits) == 0
  {
    AllZero(hash);
    PowPos(2, if 8 * |hash| > nbits then 8 * |hash| - nbits else 0);
  }

  /** With any nonce that has a usable abscissa there is a signature over such a hash, and it is
      refused. */
  lemma ZeroHashRefused(g: Group, d: int, hash: seq<Byte>, k: int) returns (r: int, s: int)
    requires Good(g) && g.nbits <= 8 * MAX_BYTES && 0 < d < g.n && forall i :: 0 <= i < |hash| ==> hash[i] == 0
    requires 0 < k < g.n && g.abscissa(k) % g.n != 0
    ensures r > 0 && s > 0 && Encodable(r, s)
    ensures g.n > 0 && Signed(g, d, Leftmost(hash, g.nbits) % g.n, r, s)
    ensures !Accepts(g, d, hash, SignatureOctets(r, s))
  {
    hide Pow, SignatureOctets, Leftmost, Signed, Accepts;
    ZeroHash(hash, g.nbits);
    GroupOrder(g);
    ModSmall(0, g.n);
    KeyTimesAbscissa(g, d, k);
    r, s := SignatureExists(g, d, 0, k);
    SignedAccepted(g, d, hash, r, s);
  }

  lemma KeyTimesAbscissa(g: Group, d: int, k: nat)
    requires Good(g) && 0 < d < g.n && g.abscissa(k) % g.n != 0
    ensures g.n > 0 && (0 + g.abscissa(k) % g.n * d) % g.n != 0
  {
    hide Pow;
    var r := g.abscissa(k) % g.n;
    NotMultiple(g.n, r);
    NotMultiple(g.n, d);
    if r * d % g.n == 0 {
      ModDivides(g.n, r * d);
      EuclidLemma(g.n, r, d);
    }
  }

  lemma ModDivides(n: int, x: int)
    requires n > 0 && x % n == 0
    ensures Divides(n, x)
  {
    assert x == x / n * n;
  }

  /** Over such a hash the first nonce with a usable abscissa always gives the signature: signing
      fails no more often than over others. */
  lemma ZeroHashSigned(g: Group, d: int, draw: nat -> nat, over: nat -> bool, limit: nat)
    requires Good(g) && 0 < d < g.n && over(limit)
    ensures g.n > 0 && SigningNonce(g, d, 0, draw, over, limit, 0, 0) == FirstNonce(g, draw, over, limit, 0, 0)
  {
    hide IsPrime, Pow;
    GroupOrder(g);
    match FirstNonce(g, draw, over, limit, 0, 0)
    case Exhausted =>
    case Drawn(k, _, _) => KeyTimesAbscissa(g, d, k);
  }

  /** mbedtls_ecdsa_write_signature with random nonces: what is written is accepted by the reader
      that holds the matching public key, exactly if the hash does not derive zero. */
  method WriteSignature(g: Group, N: Mpi, d: Mpi, hash: seq<Byte>, sig: array<Byte>, draw: nat -> nat, blind: nat -> nat,
    over: nat -> bool, ghost limit: nat) returns (ret: int, slen: nat)
    requires over(limit) && Good(g) && g.nbits <= 8 * MAX_BYTES && N.V() == g.n && sig.Length >= MAX_LEN
    requires forall i: nat :: 0 < draw(i) < g.n && 0 < blind(i) < g.n
    modifies sig
    ensures ret == 0 ==> slen <= sig.Length && 0 < d.V() < g.n
    ensures ret == 0 ==> (Accepts(g, d.V(), hash, sig[..slen]) <==> Leftmost(hash, g.nbits) % g.n != 0)
    ensures g.n > 0
    ensures ret == 0 <==>
      g.canDo && N.p != [] && 0 < d.V() < g.n
      && SigningNonce(g, d.V(), Leftmost(hash, g.nbits) % g.n, draw, over, limit, 0, 0).Drawn?
  {
    hide Nat, Pow, Signed, SignatureOctets, Leftmost, Accepts, Good, Mpi.V, SigningNonce;
    var r := new Mpi();
    var s := new Mpi();
    slen := 0;
    ret := Sign(g, N, r, s, d, hash, draw, blind, over, limit);
    if ret != 0 {
      return;
    }
    SignedAccepted(g, d.V(), hash, r.V(), s.V());
    ret, slen := SignatureToAsn1(r, s, sig);
  }
}
