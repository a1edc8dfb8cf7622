/** EC J-PAKE: password-authenticated key exchange in four messages, each key sent with a Schnorr
    proof, over an abstract group of prime order. */
module EcJpake {
  import opened Arith
  import opened Limbs
  import opened MpiCore
  import opened MpiAddSub
  import opened MpiMul
  import opened MpiMod
  import opened Divisibility
  import opened PrimeNumbers
  import opened ByteStrings
  import MpiBinary
  import opened CurveGroup
  import Ecdsa
  import Der

  const ERR_ECP_BAD_INPUT_DATA := -0x4F80
  const ERR_ECP_BUFFER_TOO_SMALL := -0x4F00
  const ERR_ECP_FEATURE_UNAVAILABLE := -0x4E80
  const ERR_ECP_VERIFY_FAILED := -0x4E00
  const ERR_ECP_INVALID_KEY := -0x4C80

  datatype Role = Client | Server
  datatype Decoded = Nothing | Decoded(value: nat, used: nat)

  /** The parts that are not arithmetic: the order of the group, the hash of an octet string
      as a number, the TLS coding of points, in at most pointMax octets, and the octets that name the
      curve. Points are given by their discrete logarithms, below n; 0 is the zero point. */
  datatype System = System(n: int, hash: seq<Byte> -> nat, enc: nat -> seq<Byte>,
                           dec: seq<Byte> -> Decoded, pointMax: nat, params: seq<Byte>)

  /** Prime order, and reading a point undoes writing it, whatever follows. */
  ghost predicate Good(y: System) {
    IsPrime(y.n)
    && (forall b :: y.dec(b).Decoded? ==> y.dec(b).used <= |b| && y.dec(b).value < y.n)
    && (forall p: nat :: p < y.n ==> |y.enc(p)| <= y.pointMax)
    && (forall p: nat, rest :: p < y.n ==> y.dec(y.enc(p) + rest) == Decoded(p, |y.enc(p)|))
  }

  lemma ModulusPositive(y: System)
    requires Good(y)
    ensures y.n > 1
  {}

  // ----- proofs of knowledge -----

  function Challenge(y: System, G: nat, V: nat, X: nat, id: Role): nat
    requires y.n > 0
  {
    Mod(y.hash(Transcript(y, G, V, X, id)), y.n)
  }

  /** A point behind its length in four octets. */
  function LenPoint(y: System, p: nat): seq<Byte> {
    ToBytes(|y.enc(p)|, 4) + y.enc(p)
  }

  function Identity(id: Role): seq<Byte> {
    match id
    case Client => [0x63, 0x6C, 0x69, 0x65, 0x6E, 0x74]
    case Server => [0x73, 0x65, 0x72, 0x76, 0x65, 0x72]
  }

  /** What is hashed: base point, V, X and the identity of the sender. */
  function Transcript(y: System, G: nat, V: nat, X: nat, id: Role): seq<Byte> {
    LenPoint(y, G) + LenPoint(y, V) + LenPoint(y, X) + ToBytes(|Identity(id)|, 4) + Identity(id)
  }

  lemma LenPointTells(y: System, p: nat, s: seq<Byte>, q: nat, t: seq<Byte>)
    requires Good(y) && y.pointMax < 0x1_0000_0000 && p < y.n && q < y.n && LenPoint(y, p) + s == LenPoint(y, q) + t
    ensures p == q && s == t
  {
    hide IsPrime, ToBytes;
    var a, b, c, d := ToBytes(|y.enc(p)|, 4), y.enc(p), ToBytes(|y.enc(q)|, 4), y.enc(q);
    SameSplit(a, b + s, c, d + t) by { assert LenPoint(y, p) + s == a + (b + s) && LenPoint(y, q) + t == c + (d + t); }
    FourTell(|b|, |d|);
    SameSplit(b, s, d, t);
    assert y.dec(b + []) == Decoded(p, |b|) && y.dec(d + []) == Decoded(q, |d|);
  }

  lemma SameSplit(a: seq<Byte>, b: seq<Byte>, c: seq<Byte>, d: seq<Byte>)
    requires |a| == |c| && a + b == c + d
    ensures a == c && b == d
  {
    assert a == (a + b)[..|a|] && c == (c + d)[..|c|];
    assert b == (a + b)[|a|..] && d == (c + d)[|c|..];
  }

  lemma FourTell(m: nat, n: nat)
    requires m < 0x1_0000_0000 && n < 0x1_0000_0000 && ToBytes(m, 4) == ToBytes(n, 4)
    ensures m == n
  {
    hide ToBytes, BigEndian;
    Der.PowersOf256();
    NumberRoundTrip(m, 4);
    NumberRoundTrip(n, 4);
  }

  /** The hash is taken of all four, so a proof is bound to each of them. */
  lemma TranscriptTells(y: System, G: nat, V: nat, X: nat, id: Role, G': nat, V': nat, X': nat, id': Role)
    requires Good(y) && y.pointMax < 0x1_0000_0000 && G < y.n && V < y.n && X < y.n && G' < y.n && V' < y.n && X' < y.n
    requires Transcript(y, G, V, X, id) == Transcript(y, G', V', X', id')
    ensures G == G' && V == V' && X == X' && id == id'
  {
    hide Good, LenPoint, ToBytes;
    var i, i' := ToBytes(6, 4) + Identity(id), ToBytes(6, 4) + Identity(id');
    TranscriptParts(y, G, V, X, id);
    TranscriptParts(y, G', V', X', id');
    LenPointTells(y, G, LenPoint(y, V) + (LenPoint(y, X) + i), G', LenPoint(y, V') + (LenPoint(y, X') + i'));
    LenPointTells(y, V, LenPoint(y, X) + i, V', LenPoint(y, X') + i');
    LenPointTells(y, X, i, X', i');
    SameSplit(ToBytes(6, 4), Identity(id), ToBytes(6, 4), Identity(id'));
    assert Identity(id)[0] == Identity(id')[0];
  }

  lemma TranscriptParts(y: System, G: nat, V: nat, X: nat, id: Role)
    ensures Transcript(y, G, V, X, id) == LenPoint(y, G) + (LenPoint(y, V) + (LenPoint(y, X) + (ToBytes(6, 4) + Identity(id))))
  {
    hide LenPoint, ToBytes;
  }

  /** The response r = v - x h to the challenge. */
  function Response(y: System, G: nat, x: int, v: int, id: Role): nat
    requires y.n > 0
  {
    Mod(v - Challenge(y, G, Mod(v * G, y.n), Mod(x * G, y.n), id) * x, y.n)
  }

  /** The curve code accepts a proof only if neither challenge nor response is zero. */
  predicate ProofHolds(y: System, G: nat, x: int, v: int, id: Role)
    requires y.n > 0
  {
    Challenge(y, G, Mod(v * G, y.n), Mod(x * G, y.n), id) != 0 && Response(y, G, x, v, id) != 0
  }

  lemma SchnorrArith(h: int, x: int, v: int, G: int)
    ensures h * (x * G) + (v - h * x) * G == v * G
  {
    assert h * (x * G) == h * x * G;
    assert (v - h * x) * G == v * G - h * x * G;
  }

  /** h X + r G is the commitment V, for the key X = x G and the response to h. */
  lemma SchnorrComplete(n: int, h: int, x: int, v: int, G: nat)
    requires n > 0
    ensures Mod(h * Mod(x * G, n) + Mod(v - h * x, n) * G, n) == Mod(v * G, n)
  {
    hide Cong;
    var X, r := Mod(x * G, n), Mod(v - h * x, n);
    CongMod(x * G, n);
    CongMod(v - h * x, n);
    CongScale(X, x * G, h, n);
    CongScale(r, v - h * x, G, n);
    CongAdd(h * X, h * (x * G), r * G, (v - h * x) * G, n);
    SchnorrArith(h, x, v, G);
    CongEqual(h * X + r * G, v * G, n);
  }

  lemma NonZeroProduct(n: int, x: int, G: int)
    requires IsPrime(n) && !Divides(n, x) && !Divides(n, G)
    ensures Mod(x * G, n) != 0
  {
    if Mod(x * G, n) == 0 {
      ModDivides(x * G, n);
      EuclidLemma(n, x, G);
    }
  }

  lemma ModDivides(z: int, n: int)
    requires n > 0
    ensures Divides(n, z) <==> z % n == 0
  {}

  /** A product of residues other than zero is not zero. */
  lemma ProductNonZero(n: int, x: int, G: int)
    requires IsPrime(n) && Mod(x, n) != 0 && Mod(G, n) != 0
    ensures Mod(x * G, n) != 0
  {
    hide IsPrime;
    ModDivides(x, n);
    ModDivides(G, n);
    NonZeroProduct(n, x, G);
  }

  lemma ModOfSmall(x: nat, n: int)
    requires x < n
    ensures Mod(x, n) == x
  {
    ModSmall(x, n);
  }

  // ----- what a reader accepts -----

  datatype Result = Ok(point: nat, used: nat) | Err(code: int)

  /** A proof for X to base G: the commitment V, then r behind a length octet. */
  function ReadProof(y: System, G: nat, X: nat, id: Role, b: seq<Byte>): Result
    requires y.n > 0
  {
    match y.dec(b)
    case Nothing => Err(ERR_ECP_BAD_INPUT_DATA)
    case Decoded(V, u) =>
      if |b| < u + 1 || |b| < u + 1 + b[u] then Err(ERR_ECP_BAD_INPUT_DATA)
      else
        var end := u + 1 + b[u];
        match MultiplyAdd(y.n, Challenge(y, G, V, X, id), X, BigEndian(b[u + 1..end]), G)
        case Fail(code) => Err(code)
        case Point(VV) => if VV != V then Err(ERR_ECP_VERIFY_FAILED) else Ok(X, end)
  }

  /** A key, which must not be zero, and its proof. */
  function ReadKey(y: System, G: nat, id: Role, b: seq<Byte>): Result
    requires y.n > 0
  {
    match y.dec(b)
    case Nothing => Err(ERR_ECP_BAD_INPUT_DATA)
    case Decoded(X, u) =>
      if |b| < u then Err(ERR_ECP_BAD_INPUT_DATA)
      else if X == 0 then Err(ERR_ECP_INVALID_KEY)
      else match ReadProof(y, G, X, id, b[u..])
        case Err(code) => Err(code)
        case Ok(_, v) => Ok(X, u + v)
  }

  function ProofOctets(y: System, V: nat, r: nat): seq<Byte>
    requires Der.SizeOf(r) < 256
  {
    y.enc(V) + ([Der.SizeOf(r)] + ToBytes(r, Der.SizeOf(r)))
  }

  /** The curve code's verdict on an honest proof. */
  lemma ProofSum(y: System, G: nat, x: int, v: int, id: Role)
    requires y.n > 1 && 0 < G < y.n && Mod(x * G, y.n) != 0
    ensures var X, V := Mod(x * G, y.n), Mod(v * G, y.n);
            MultiplyAdd(y.n, Challenge(y, G, V, X, id), X, Response(y, G, x, v, id), G)
            == if ProofHolds(y, G, x, v, id) then Point(V) else Fail(ERR_INVALID_KEY)
  {
    hide Mod, MultiplyAdd;
    var X, V := Mod(x * G, y.n), Mod(v * G, y.n);
    var h, r := Challenge(y, G, V, X, id), Response(y, G, x, v, id);
    MultiplyAddValue(y.n, h, X, r, G);
    SchnorrComplete(y.n, h, x, v, G);
  }

  /** An honest proof, written out, is accepted exactly if neither challenge nor response is zero,
      whatever follows it. */
  lemma ProofDecided(y: System, G: nat, x: int, v: int, id: Role, rest: seq<Byte>)
    requires Good(y) && 0 < G < y.n && Mod(x * G, y.n) != 0 && Der.SizeOf(Response(y, G, x, v, id)) < 256
    ensures var o := ProofOctets(y, Mod(v * G, y.n), Response(y, G, x, v, id));
            ReadProof(y, G, Mod(x * G, y.n), id, o + rest) ==
              if ProofHolds(y, G, x, v, id) then Ok(Mod(x * G, y.n), |o|) else Err(ERR_ECP_INVALID_KEY)
  {
    hide BigEndian, ToBytes, IsPrime, MultiplyAdd, Mod, Challenge, Response, ProofHolds;
    var X, V, r := Mod(x * G, y.n), Mod(v * G, y.n), Response(y, G, x, v, id);
    ModulusPositive(y);
    ProofSum(y, G, x, v, id);
    Der.SizeOfBounds(r);
    NumberRoundTrip(r, Der.SizeOf(r));
    var tail := [Der.SizeOf(r)] + ToBytes(r, Der.SizeOf(r));
    var o, u := ProofOctets(y, V, r), |y.enc(V)|;
    assert o + rest == y.enc(V) + (tail + rest);
    TailSlices(y.enc(V), Der.SizeOf(r), ToBytes(r, Der.SizeOf(r)), rest);
  }

  lemma TailSlices(head: seq<Byte>, n: Byte, num: seq<Byte>, rest: seq<Byte>)
    requires |num| == n
    ensures var b, u := head + ([n] + num) + rest, |head|;
            |b| >= u + 1 + n && b[u] == n && b[u + 1..u + 1 + n] == num
  {}

  /** The commitment V and the response r satisfy the verification equation for X, and the curve code
      refuses none of the factors. */
  predicate Proves(y: System, G: nat, X: nat, id: Role, V: nat, r: nat)
    requires y.n > 0
  {
    var h := Challenge(y, G, V, X, id);
    h != 0 && 0 < r < y.n && (X != 0 || h == 1) && (G != 0 || r == 1) && Mod(h * X + r * G, y.n) == V
  }

  /** The octets begin with a commitment and a response that prove X. */
  predicate BeginsWithProof(y: System, G: nat, X: nat, id: Role, b: seq<Byte>)
    requires y.n > 0
  {
    match y.dec(b)
    case Nothing => false
    case Decoded(V, u) => u < |b| && u + 1 + b[u] <= |b| && Proves(y, G, X, id, V, BigEndian(b[u + 1..u + 1 + b[u]]))
  }

  /** Exactly those are accepted, and a proof that is complete but does not satisfy the equation is
      told apart from one that the curve code refuses. */
  lemma ProofAccepted(y: System, G: nat, X: nat, id: Role, b: seq<Byte>)
    requires Good(y) && G < y.n && X < y.n
    ensures ReadProof(y, G, X, id, b).Ok? <==> BeginsWithProof(y, G, X, id, b)
    ensures ReadProof(y, G, X, id, b).Ok? ==>
      ReadProof(y, G, X, id, b) == Ok(X, y.dec(b).used + 1 + b[y.dec(b).used])
    ensures ReadProof(y, G, X, id, b).Err? ==>
      ReadProof(y, G, X, id, b).code == ERR_ECP_BAD_INPUT_DATA || ReadProof(y, G, X, id, b).code == ERR_ECP_INVALID_KEY
      || ReadProof(y, G, X, id, b).code == ERR_ECP_VERIFY_FAILED
  {
    hide IsPrime, MultiplyAdd, Mod, BigEndian, Challenge;
    ModulusPositive(y);
    match y.dec(b)
    case Nothing =>
    case Decoded(V, u) =>
      if u < |b| && u + 1 + b[u] <= |b| {
        var h, r := Challenge(y, G, V, X, id), BigEndian(b[u + 1..u + 1 + b[u]]);
        ChallengeRange(y, G, V, X, id);
        SumDecided(y.n, h, X, r, G);
      }
  }

  /** The octets begin with a key that is not zero and a proof of it. */
  predicate BeginsWithKey(y: System, G: nat, id: Role, b: seq<Byte>)
    requires y.n > 0
  {
    match y.dec(b)
    case Nothing => false
    case Decoded(X, u) => X != 0 && u <= |b| && BeginsWithProof(y, G, X, id, b[u..])
  }

  lemma KeyAccepted(y: System, G: nat, id: Role, b: seq<Byte>)
    requires Good(y) && G < y.n
    ensures y.n > 0 && (ReadKey(y, G, id, b).Ok? <==> BeginsWithKey(y, G, id, b))
  {
    hide IsPrime, ReadProof, BeginsWithProof;
    match y.dec(b)
    case Nothing =>
    case Decoded(X, u) => ProofAccepted(y, G, X, id, b[u..]);
  }

  lemma ChallengeRange(y: System, G: nat, V: nat, X: nat, id: Role)
    requires y.n > 0
    ensures Challenge(y, G, V, X, id) < y.n
  {}

  /** The sum of two multiples, the second scalar being any number. */
  lemma SumDecided(n: int, h: nat, X: nat, r: nat, G: nat)
    requires n > 1 && h < n && X < n && G < n
    ensures MultiplyAdd(n, h, X, r, G) ==
      if h != 0 && 0 < r < n && (X != 0 || h == 1) && (G != 0 || r == 1) then Point(Mod(h * X + r * G, n)) else Fail(ERR_INVALID_KEY)
  {
    hide Mod;
    if r < n {
      MultiplyAddValue(n, h, X, r, G);
    } else {
      ShortcutValue(n, h, X);
    }
  }

  /** An honest commitment with any other response does not satisfy the equation. */
  lemma OtherResponse(y: System, G: nat, x: int, v: int, id: Role, r: nat)
    requires Good(y) && 0 < G < y.n && r < y.n && r != Response(y, G, x, v, id)
    ensures y.n > 0 && !Proves(y, G, Mod(x * G, y.n), id, Mod(v * G, y.n), r)
  {
    hide IsPrime, Challenge, Mod, Cong;
    ModulusPositive(y);
    var n, X, V, r0 := y.n, Mod(x * G, y.n), Mod(v * G, y.n), Response(y, G, x, v, id);
    var h := Challenge(y, G, V, X, id);
    SchnorrComplete(n, h, x, v, G);
    if Proves(y, G, X, id, V, r) {
      ModCong(h * X + r * G, h * X + r0 * G, n);
      CancelBase(n, h * X, r, r0, G);
    }
  }

  lemma ModCong(a: int, b: int, n: int)
    requires n > 0 && Mod(a, n) == Mod(b, n)
    ensures Cong(a, b, n)
  {}

  /** The base point's multiples are different for different scalars. */
  lemma CancelBase(n: int, a: int, r: nat, s: nat, G: nat)
    requires IsPrime(n) && 0 < G < n && r < n && s < n && Cong(a + r * G, a + s * G, n)
    ensures r == s
  {
    hide IsPrime, Cong;
    CongSelf(-a, n);
    CongAdd(a + r * G, a + s * G, -a, -a, n);
    assert G * r == r * G && G * s == s * G;
    Ecdsa.NotMultiple(n, G);
    PrimeCancel(n, G, r, s);
    CongSmall(r, s, n);
    ModSmall(s, n);
  }

  lemma CongSelf(a: int, n: int)
    requires n > 0
    ensures Cong(a, a, n)
  {}

  /** Special soundness: from two proofs of X with one commitment and different challenges follows the
      private key of X. */
  lemma Extract(n: int, G: nat, X: nat, V: nat, h1: nat, r1: nat, h2: nat, r2: nat) returns (x: int)
    requires IsPrime(n) && X < n && h1 < n && h2 < n && h1 != h2
    requires Mod(h1 * X + r1 * G, n) == V && Mod(h2 * X + r2 * G, n) == V
    ensures Cong(x * (h1 - h2), r2 - r1, n) && X == Mod(x * G, n)
  {
    hide IsPrime, Cong, Mod;
    PrimeAboveOne(n);
    var d, e := h1 - h2, r2 - r1;
    DifferenceNotMultiple(n, h1, h2);
    var u := PrimeInverse(n, d);
    ScaledKey(n, G, X, h1, r1, h2, r2);
    x := u * e;
    CongScale(u * d, 1, e, n);
    Commuted(u, d, e);
    DividedKey(n, u, d, X, e, G);
    CongEqual(X, x * G, n);
    ModOfSmall(X, n);
  }

  lemma Commuted(u: int, d: int, e: int)
    ensures u * e * d == u * d * e
  {}

  /** Subtracting the two equations. */
  lemma ScaledKey(n: int, G: nat, X: nat, h1: nat, r1: nat, h2: nat, r2: nat)
    requires n > 0 && Mod(h1 * X + r1 * G, n) == Mod(h2 * X + r2 * G, n)
    ensures Cong((h1 - h2) * X, (r2 - r1) * G, n)
  {
    hide Cong, Mod;
    ModCong(h1 * X + r1 * G, h2 * X + r2 * G, n);
    var k := CongElim(h1 * X + r1 * G, h2 * X + r2 * G, n);
    Difference(h1, h2, X, r1, r2, G);
    CongIntro((h1 - h2) * X, (r2 - r1) * G, n, k);
  }

  /** Dividing by d, whose inverse is u. */
  lemma DividedKey(n: int, u: int, d: int, X: int, e: int, G: int)
    requires n > 0 && Cong(u * d, 1, n) && Cong(d * X, e * G, n)
    ensures Cong(X, u * e * G, n)
  {
    hide Cong;
    CongScale(d * X, e * G, u, n);
    CongScale(u * d, 1, X, n);
    assert u * (d * X) == u * d * X && u * (e * G) == u * e * G;
    CongSym(u * d * X, X, n);
    CongTrans(X, u * d * X, u * e * G, n);
  }

  lemma Difference(h1: int, h2: int, X: int, r1: int, r2: int, G: int)
    ensures (h1 - h2) * X - (r2 - r1) * G == (h1 * X + r1 * G) - (h2 * X + r2 * G)
  {}

  lemma DifferenceNotMultiple(n: int, a: nat, b: nat)
    requires n > 0 && a < n && b < n && a != b
    ensures !Divides(n, a - b)
  {
    if Divides(n, a - b) {
      if a > b { ModSmall(a - b, n); } else { DivUnique(a - b, n, -1, n + a - b); }
    }
  }

  /** Octets that a reader takes for a proof of X, and no more of them; or that it refuses. */
  ghost predicate ProofFor(y: System, G: nat, X: nat, id: Role, o: seq<Byte>, good: bool)
    requires y.n > 0
  {
    forall rest :: ReadProof(y, G, X, id, o + rest) == if good then Ok(X, |o|) else Err(ERR_ECP_INVALID_KEY)
  }

  ghost predicate KeyFor(y: System, G: nat, X: nat, id: Role, o: seq<Byte>, good: bool)
    requires y.n > 0
  {
    forall rest :: ReadKey(y, G, id, o + rest) == if good then Ok(X, |o|) else Err(ERR_ECP_INVALID_KEY)
  }

  lemma KeyDecided(y: System, G: nat, X: nat, id: Role, o: seq<Byte>, good: bool)
    requires Good(y) && 0 < X < y.n && ProofFor(y, G, X, id, o, good)
    ensures KeyFor(y, G, X, id, y.enc(X) + o, good)
  {
    hide IsPrime, ReadProof;
    var k := y.enc(X) + o;
    forall rest ensures ReadKey(y, G, id, k + rest) == if good then Ok(X, |k|) else Err(ERR_ECP_INVALID_KEY) {
      assert k + rest == y.enc(X) + (o + rest);
      assert (k + rest)[|y.enc(X)|..] == o + rest;
    }
  }

  lemma ProofOctetsDecided(y: System, G: nat, x: int, v: int, id: Role)
    requires Good(y) && 0 < G < y.n && Mod(x * G, y.n) != 0 && Der.SizeOf(Response(y, G, x, v, id)) < 256
    ensures ProofFor(y, G, Mod(x * G, y.n), id, ProofOctets(y, Mod(v * G, y.n), Response(y, G, x, v, id)), ProofHolds(y, G, x, v, id))
  {
    hide IsPrime, ReadProof, Mod, ProofOctets, Response, ProofHolds;
    var X, o, good := Mod(x * G, y.n), ProofOctets(y, Mod(v * G, y.n), Response(y, G, x, v, id)), ProofHolds(y, G, x, v, id);
    forall rest ensures ReadProof(y, G, X, id, o + rest) == if good then Ok(X, |o|) else Err(ERR_ECP_INVALID_KEY) {
      ProofDecided(y, G, x, v, id, rest);
    }
  }

  // ----- writing -----

  method Put(buf: array<Byte>, p: nat, end: nat, v: seq<Byte>) returns (ret: int, p': nat)
    requires p <= end <= buf.Length
    modifies buf
    ensures ret == if end - p < |v| then ERR_ECP_BUFFER_TOO_SMALL else 0
    ensures buf[..p] == old(buf[..p])
    ensures ret == 0 ==> p' == p + |v| && p' <= end && buf[p..p'] == v
  {
    if end - p < |v| { return ERR_ECP_BUFFER_TOO_SMALL, p; }
    for i := 0 to |v|
      invariant buf[..p] == old(buf[..p]) && buf[p..p + i] == v[..i]
    {
      buf[p + i] := v[i];
    }
    assert v[..|v|] == v;
    return 0, p + |v|;
  }

  /** The response computed in h. */
  method RespondTo(N: Mpi, x: Mpi, v: nat, challenge: nat) returns (h: Mpi)
    requires N.V() > 0 && N.V() > challenge
    ensures fresh(h) && h.V() == Mod(v - challenge * x.V(), N.V())
  {
    hide Nat, Pow, BigEndian;
    h := new Mpi();
    var w := new Mpi();
    Ecdsa.Deliver(h, challenge);
    Ecdsa.Deliver(w, v);
    MulMpi(h, h, x);
    SubMpi(h, w, h);
    var _ := ModMpi(h, h, N);
  }

  /** Room that always suffices for a proof: point, length octet and a number below n. */
  function ProofRoom(y: System): nat
    requires y.n >= 0
  {
    y.pointMax + 1 + Der.SizeOf(y.n)
  }

  lemma {:induction false} SizeMonotone(a: nat, b: nat)
    requires a <= b
    ensures Der.SizeOf(a) <= Der.SizeOf(b)
  {
    if a > 0 {
      DivMonotone(a, b);
      SizeMonotone(a / 256, b / 256);
    }
  }

  lemma DivMonotone(a: nat, b: nat)
    requires a <= b
    ensures a / 256 <= b / 256
  {}

  /** ecjpake_zkp_write; v is the random exponent of the commitment. */
  method ZkpWrite(y: System, N: Mpi, G: nat, x: Mpi, X: nat, id: Role, buf: array<Byte>, p: nat, end: nat, v: nat)
    returns (ret: int, p': nat)
    requires Good(y) && N.V() == y.n && 0 < G < y.n && X == Mod(x.V() * G, y.n) != 0 && p <= end <= buf.Length
    modifies buf
    ensures ret == 0 || ret == ERR_ECP_BUFFER_TOO_SMALL
    ensures buf[..p] == old(buf[..p])
    ensures ret == 0 ==> p <= p' <= end && p' <= p + ProofRoom(y)
    ensures ret == 0 ==> ProofFor(y, G, X, id, buf[p..p'], ProofHolds(y, G, x.V(), v, id))
    ensures end - p >= ProofRoom(y) && Der.SizeOf(y.n) < 256 ==> ret == 0
  {
    hide Nat, Pow, BigEndian, ToBytes, IsPrime, ReadProof, Mod, ProofFor, ProofHolds, Der.SizeOf, Challenge, Good, Response;
    p' := p;
    CommitmentRoom(y, v * G);
    var V := Mod(v * G, y.n);
    ChallengeRange(y, G, V, X, id);
    ResponseIs(y, G, x.V(), v, id);
    var h := RespondTo(N, x, v, Challenge(y, G, V, X, id));
    SizeMonotone(h.V(), y.n);
    ret, p' := Put(buf, p, end, y.enc(V));
    if ret != 0 { return; }
    var len := MpiBinary.Size(h);
    ResponseSize(h, len);
    if end - p' < 1 + len || len > 255 {
      return ERR_ECP_BUFFER_TOO_SMALL, p';
    }
    var q := p';
    ghost var r, head := h.V(), buf[..q];
    assert head[p..q] == y.enc(V);
    ret, p' := PutNumber(h, buf, q, end, len);
    Adjoin(head, buf[..], p, q, p');
    ProofWritten(y, G, x.V(), v, id, r, len, buf[p..p']);
  }

  lemma CommitmentRoom(y: System, z: int)
    requires Good(y)
    ensures y.n > 1 && |y.enc(Mod(z, y.n))| <= y.pointMax
  {
    hide IsPrime;
    ModulusPositive(y);
    assert Mod(z, y.n) < y.n;
  }

  lemma ResponseIs(y: System, G: nat, x: int, v: int, id: Role)
    requires y.n > 0
    ensures Response(y, G, x, v, id) == Mod(v - Challenge(y, G, Mod(v * G, y.n), Mod(x * G, y.n), id) * x, y.n) < y.n
  {
    hide Challenge;
  }

  lemma ProofWritten(y: System, G: nat, x: int, v: nat, id: Role, r: nat, len: nat, o: seq<Byte>)
    requires Good(y) && 0 < G < y.n && Mod(x * G, y.n) != 0 && r == Response(y, G, x, v, id) && len == Der.SizeOf(r) < 256
    requires o == y.enc(Mod(v * G, y.n)) + ([len] + ToBytes(r, len))
    ensures ProofFor(y, G, Mod(x * G, y.n), id, o, ProofHolds(y, G, x, v, id))
  {
    hide ProofFor, ProofHolds, Response, Mod, ToBytes, IsPrime, Der.SizeOf;
    ProofOctetsDecided(y, G, x, v, id);
    assert o == ProofOctets(y, Mod(v * G, y.n), r);
  }

  /** Two pieces written one after the other. */
  lemma Adjoin(head: seq<Byte>, now: seq<Byte>, p: nat, q: nat, e: nat)
    requires p <= q <= e <= |now| && head == now[..q]
    ensures now[p..e] == head[p..q] + now[q..e] && now[..p] == head[..p]
  {}

  lemma ResponseSize(h: Mpi, len: nat)
    requires h.V() >= 0 && Nat(h.p) < Pow(256, len) && (len > 0 ==> Pow(256, len - 1) <= Nat(h.p))
    ensures h.V() == Nat(h.p) && len == Der.SizeOf(Nat(h.p))
  {
    hide Pow;
    Der.SizeUnique(Nat(h.p), len);
  }

  /** A length octet and the number. */
  method PutNumber(h: Mpi, buf: array<Byte>, p: nat, end: nat, len: nat) returns (ret: int, p': nat)
    requires p + 1 + len <= end <= buf.Length && len < 256 && Nat(h.p) < Pow(256, len)
    modifies buf
    ensures ret == 0 && p' == p + 1 + len && buf[p..p'] == [len] + ToBytes(Nat(h.p), len) && buf[..p] == old(buf[..p])
  {
    hide Nat, Pow, ToBytes;
    buf[p] := len;
    ghost var was := buf[..p + 1];
    var _ := MpiBinary.WriteBinary(h, buf, p + 1, len);
    assert buf[..p + 1] == was;
    assert buf[p] == was[p] && buf[..p] == was[..p];
    return 0, p + 1 + len;
  }

  /** A public key and the proof for it. */
  method WriteKey(y: System, N: Mpi, G: nat, x: Mpi, X: nat, id: Role, buf: array<Byte>, p: nat, end: nat, v: nat)
    returns (ret: int, p': nat)
    requires Good(y) && N.V() == y.n && 0 < G < y.n && X == Mod(x.V() * G, y.n) != 0 && p <= end <= buf.Length
    modifies buf
    ensures ret == 0 || ret == ERR_ECP_BUFFER_TOO_SMALL
    ensures buf[..p] == old(buf[..p])
    ensures ret == 0 ==> p <= p' <= end && p' <= p + y.pointMax + ProofRoom(y)
    ensures ret == 0 ==> KeyFor(y, G, X, id, buf[p..p'], ProofHolds(y, G, x.V(), v, id))
    ensures end - p >= y.pointMax + ProofRoom(y) && Der.SizeOf(y.n) < 256 ==> ret == 0
  {
    hide Nat, Pow, IsPrime, ProofFor, KeyFor, Mod, ProofHolds, Der.SizeOf, ProofRoom;
    ret, p' := Put(buf, p, end, y.enc(X));
    if ret != 0 { return; }
    var q := p';
    ghost var head := buf[..q];
    assert head[p..q] == y.enc(X);
    ret, p' := ZkpWrite(y, N, G, x, X, id, buf, q, end, v);
    assert buf[..p] == buf[..q][..p];
    if ret != 0 { return; }
    Adjoin(head, buf[..], p, q, p');
    KeyDecided(y, G, X, id, buf[q..p'], ProofHolds(y, G, x.V(), v, id));
  }

  /** ecjpake_kkp_write: a key pair to base G and its proof; x and v are random. */
  method KkpWrite(y: System, N: Mpi, G: nat, x: Mpi, id: Role, buf: array<Byte>, p: nat, end: nat, d: nat, v: nat)
    returns (ret: int, p': nat, X: nat)
    requires Good(y) && N.V() == y.n && 0 < G < y.n && x != N && 0 < d < y.n && p <= end <= buf.Length
    modifies buf, x
    ensures ret == 0 || ret == ERR_ECP_BUFFER_TOO_SMALL
    ensures buf[..p] == old(buf[..p]) && x.V() == d && X == Mod(d * G, y.n)
    ensures ret == 0 ==> p <= p' <= end && p' <= p + y.pointMax + ProofRoom(y)
    ensures ret == 0 ==> KeyFor(y, G, X, id, buf[p..p'], ProofHolds(y, G, d, v, id))
    ensures end - p >= y.pointMax + ProofRoom(y) && Der.SizeOf(y.n) < 256 ==> ret == 0
  {
    hide Nat, Pow, IsPrime, KeyFor, Mod, ProofHolds, Der.SizeOf;
    Ecdsa.Deliver(x, d);
    X := Mod(d * G, y.n);
    ModOfSmall(d, y.n);
    ModOfSmall(G, y.n);
    ProductNonZero(y.n, d, G);
    ret, p' := WriteKey(y, N, G, x, X, id, buf, p, end, v);
  }

  // ----- reading -----

  /** ecjpake_zkp_read. */
  method ZkpRead(y: System, N: Mpi, G: nat, X: nat, id: Role, buf: seq<Byte>, p: nat) returns (ret: int, p': nat)
    requires Good(y) && N.V() == y.n && p <= |buf|
    ensures match ReadProof(y, G, X, id, buf[p..])
            case Err(code) => ret == code && code != 0
            case Ok(_, used) => ret == 0 && p' == p + used && p' <= |buf|
    ensures G < y.n && X < y.n ==> (ret == 0 <==> BeginsWithProof(y, G, X, id, buf[p..]))
  {
    hide Nat, Pow, IsPrime, BigEndian, MultiplyAdd, Mod, Challenge, BeginsWithProof;
    if G < y.n && X < y.n { ProofAccepted(y, G, X, id, buf[p..]); }
    p' := p;
    ghost var b := buf[p..];
    match y.dec(buf[p..])
    case Nothing => return ERR_ECP_BAD_INPUT_DATA, p';
    case Decoded(V, u) =>
      p' := p + u;
      if |buf| - p' < 1 { return ERR_ECP_BAD_INPUT_DATA, p'; }
      var rLen := buf[p'];
      p' := p' + 1;
      if |buf| - p' < rLen { return ERR_ECP_BAD_INPUT_DATA, p'; }
      var r := new Mpi();
      assert buf[p'..p' + rLen] == b[u + 1..u + 1 + rLen];
      MpiBinary.ReadBinary(r, buf[p'..p' + rLen]);
      p' := p' + rLen;
      match MultiplyAdd(y.n, Challenge(y, G, V, X, id), X, r.V(), G)
      case Fail(code) =>
        FailCode(y.n, Challenge(y, G, V, X, id), X, r.V(), G);
        return code, p';
      case Point(VV) =>
        ret := if VV != V then ERR_ECP_VERIFY_FAILED else 0;
  }

  lemma FailCode(n: int, m: int, P: nat, k: int, Q: nat)
    requires n > 0
    ensures MultiplyAdd(n, m, P, k, Q).Fail? ==> MultiplyAdd(n, m, P, k, Q).code != 0
  {}

  /** ecjpake_kkp_read. */
  method KkpRead(y: System, N: Mpi, G: nat, id: Role, buf: seq<Byte>, p: nat) returns (ret: int, p': nat, X: nat)
    requires Good(y) && N.V() == y.n && p <= |buf|
    ensures match ReadKey(y, G, id, buf[p..])
            case Err(code) => ret == code && code != 0
            case Ok(point, used) => ret == 0 && p' == p + used && p' <= |buf| && X == point
    ensures G < y.n ==> (ret == 0 <==> BeginsWithKey(y, G, id, buf[p..]))
  {
    hide Nat, Pow, IsPrime, ReadProof, BeginsWithProof;
    if G < y.n { KeyAccepted(y, G, id, buf[p..]); }
    p', X := p, 0;
    match y.dec(buf[p..])
    case Nothing => return ERR_ECP_BAD_INPUT_DATA, p', X;
    case Decoded(point, u) =>
      X := point;
      p' := p + u;
      if X == 0 { return ERR_ECP_INVALID_KEY, p', X; }
      assert buf[p..][u..] == buf[p'..];
      ret, p' := ZkpRead(y, N, G, X, id, buf, p');
  }

  /** The first message: two keys to the base point, and nothing after them. */
  datatype Pair = NoPair | Pair(a: nat, b: nat)

  function ReadPair(y: System, id: Role, b: seq<Byte>): Pair
    requires y.n > 0
  {
    match ReadKey(y, 1, id, b)
    case Err(_) => NoPair
    case Ok(Xa, u) =>
      if u > |b| then NoPair
      else match ReadKey(y, 1, id, b[u..])
        case Err(_) => NoPair
        case Ok(Xb, v) => if u + v == |b| then Pair(Xa, Xb) else NoPair
  }

  lemma PairDecided(y: System, Xa: nat, Xb: nat, id: Role, o: seq<Byte>, q: seq<Byte>, goodA: bool, goodB: bool)
    requires y.n > 0 && KeyFor(y, 1, Xa, id, o, goodA) && KeyFor(y, 1, Xb, id, q, goodB)
    ensures ReadPair(y, id, o + q) == if goodA && goodB then Pair(Xa, Xb) else NoPair
  {
    hide ReadKey;
    assert (o + q)[|o|..] == q + [];
  }

  /** The second message: from the server it starts with the curve. */
  function ReadSecond(y: System, G: nat, sender: Role, b: seq<Byte>): Result
    requires y.n > 0
  {
    var c := |y.params|;
    if sender == Server && |b| < c then Err(ERR_ECP_BAD_INPUT_DATA)
    else if sender == Server && b[..c] != y.params then Err(ERR_ECP_FEATURE_UNAVAILABLE)
    else
      var start := if sender == Server then c else 0;
      match ReadKey(y, G, sender, b[start..])
      case Err(code) => Err(code)
      case Ok(X, u) => if start + u == |b| then Ok(X, |b|) else Err(ERR_ECP_BAD_INPUT_DATA)
  }

  function Peer(role: Role): Role {
    if role == Client then Server else Client
  }

  // ----- the shared secret -----

  /** s + k N stands for s: the blinding of the secret leaves no trace. */
  lemma BlindedSecret(n: int, x: int, s: int, k: int, sign: int)
    requires n > 0
    ensures Mod(sign * (x * (k * n + s)), n) == Mod(sign * (x * s), n)
  {
    hide Cong;
    assert sign * (x * (k * n + s)) == sign * (x * s) + sign * (x * k) * n by { SpreadBlinding(n, x, s, k, sign); }
    CongIntro(sign * (x * (k * n + s)), sign * (x * s), n, sign * (x * k));
    CongEqual(sign * (x * (k * n + s)), sign * (x * s), n);
  }

  lemma SpreadBlinding(n: int, x: int, s: int, k: int, sign: int)
    ensures sign * (x * (k * n + s)) == sign * (x * s) + sign * (x * k) * n
  {
    assert x * (k * n + s) == x * k * n + x * s;
  }

  /** ecjpake_mul_secret. */
  method MulSecret(R: Mpi, sign: int, X: Mpi, S: Mpi, N: Mpi, draw: nat -> Byte, pos0: nat) returns (pos: nat)
    requires (sign == 1 || sign == -1) && N.V() > 0 && R != X && R != S && R != N
    modifies R
    ensures R.V() == Mod(sign * (X.V() * S.V()), N.V())
  {
    hide Nat, Pow, Mod;
    var b := new Mpi();
    pos := MpiBinary.FillRandom(b, 16, draw, pos0);
    ghost var k := b.V();
    MulMpi(b, b, N);
    AddMpi(b, b, S);
    MulMpi(R, X, b);
    ghost var product := R.V();
    R.s := if sign == 1 then R.s else if R.s == 1 then -1 else 1;
    assert R.V() == sign * product;
    var _ := ModMpi(R, R, N);
    BlindedSecret(N.V(), X.V(), S.V(), k, sign);
    ModIs(sign * product, N.V());
  }

  lemma ModIs(z: int, n: int)
    requires n > 0
    ensures Mod(z, n) == z % n
  {}

  /** The sum of three points. */
  function Add3(n: int, A: nat, B: nat, C: nat): nat
    requires n > 0
  {
    Mod(Mod(A + B, n) + C, n)
  }

  /** K = (Xp - xm2 s Xp2) xm2. */
  function SharedPoint(n: int, Xp: nat, xm2: int, s: int, Xp2: nat): nat
    requires n > 0
  {
    Mod(xm2 * Mod(Xp + Mod(-1 * (xm2 * s), n) * Xp2, n), n)
  }

  /** z stands for the class of w. */
  ghost predicate Same(z: int, w: int, n: int) {
    n > 0 && Cong(z, w, n)
  }

  lemma SameMod(z: int, n: int)
    requires n > 0
    ensures Same(Mod(z, n), z, n)
  {
    CongMod(z, n);
  }

  lemma SameThrough(z: int, w: int, n: int)
    requires Same(z, w, n)
    ensures Same(Mod(z, n), w, n)
  {
    CongMod(z, n);
    CongTrans(z % n, z, w, n);
  }

  lemma SameSum(a: int, b: int, c: int, d: int, n: int)
    requires Same(a, b, n) && Same(c, d, n)
    ensures Same(a + c, b + d, n)
  {
    CongAdd(a, b, c, d, n);
  }

  lemma SameProduct(a: int, b: int, c: int, d: int, n: int)
    requires Same(a, b, n) && Same(c, d, n)
    ensures Same(a * c, b * d, n)
  {
    CongMul(a, b, c, d, n);
  }

  lemma SameRefl(a: int, n: int)
    requires n > 0
    ensures Same(a, a, n)
  {}

  lemma SameMods(a: int, b: int, n: int)
    requires Same(a, b, n)
    ensures Mod(a, n) == Mod(b, n)
  {
    CongEqual(a, b, n);
  }

  lemma Add3Class(n: int, a: int, b: int, c: int)
    requires n > 0
    ensures Same(Add3(n, Mod(a, n), Mod(b, n), Mod(c, n)), a + b + c, n)
  {
    hide Mod, Same;
    SameMod(a, n);
    SameMod(b, n);
    SameMod(c, n);
    var A, B, C := Mod(a, n), Mod(b, n), Mod(c, n);
    SameSum(A, a, B, b, n);
    SameThrough(A + B, a + b, n);
    SameSum(Mod(A + B, n), a + b, C, c, n);
    SameThrough(Mod(A + B, n) + C, a + b + c, n);
  }

  /** The peer's second key: xb2 s times the base point both sides form. */
  function SecondKey(n: int, xb2: int, s: int, G: nat): (r: nat)
    requires n > 0
    ensures r < n
  {
    Mod(Mod(1 * (xb2 * s), n) * G, n)
  }

  lemma SecondKeyClass(n: int, xb2: int, s: int, G: nat, g: int)
    requires Same(G, g, n)
    ensures Same(SecondKey(n, xb2, s, G), xb2 * s * g, n)
  {
    hide Mod;
    var m := Mod(1 * (xb2 * s), n);
    SameMod(1 * (xb2 * s), n);
    SameProduct(m, xb2 * s, G, g, n);
    SameThrough(m * G, xb2 * s * g, n);
  }

  lemma CancelTerm(xa1: int, xa2: int, xb1: int, xb2: int, s: int)
    ensures xa2 * (xb2 * s * (xa1 + xa2 + xb1) + -1 * (xa2 * s) * xb2) == xa2 * xb2 * s * (xa1 + xb1)
  {
    var t := xb2 * s;
    assert t * (xa1 + xa2 + xb1) == t * (xa1 + xb1) + t * xa2;
    assert -1 * (xa2 * s) * xb2 == -(t * xa2) by { Reorder(xa2, s, xb2); }
    assert xa2 * (t * (xa1 + xb1)) == xa2 * t * (xa1 + xb1);
    assert xa2 * t == xa2 * xb2 * s;
  }

  lemma Reorder(a: int, s: int, b: int)
    ensures -1 * (a * s) * b == -(b * s * a)
  {
    assert a * s * b == b * s * a;
  }

  /** One side's secret: from the peer's second key and the first-round keys. */
  lemma OneSide(n: int, xa1: int, xa2: int, xb1: int, xb2: int, s: int, G: nat)
    requires Same(G, xa1 + xa2 + xb1, n)
    ensures SharedPoint(n, SecondKey(n, xb2, s, G), xa2, s, Mod(xb2, n)) == Mod(xa2 * xb2 * s * (xa1 + xb1), n)
  {
    hide Mod, Same, SecondKey;
    var g := xa1 + xa2 + xb1;
    SamePos(G, g, n);
    var Xp, X2, m := SecondKey(n, xb2, s, G), Mod(xb2, n), Mod(-1 * (xa2 * s), n);
    SecondKeyClass(n, xb2, s, G, g);
    SameMod(-1 * (xa2 * s), n);
    SameMod(xb2, n);
    SameProduct(m, -1 * (xa2 * s), X2, xb2, n);
    SameSum(Xp, xb2 * s * g, m * X2, -1 * (xa2 * s) * xb2, n);
    var sum := xb2 * s * g + -1 * (xa2 * s) * xb2;
    SameThrough(Xp + m * X2, sum, n);
    SameRefl(xa2, n);
    SameProduct(xa2, xa2, Mod(Xp + m * X2, n), sum, n);
    CancelTerm(xa1, xa2, xb1, xb2, s);
    SameMods(xa2 * Mod(Xp + m * X2, n), xa2 * sum, n);
  }

  lemma SamePos(a: int, b: int, n: int)
    requires Same(a, b, n)
    ensures n > 0
  {}

  /** Both sides arrive at x2 x4 s (x1 + x3) times the base point. */
  lemma Agreement(n: int, x1: int, x2: int, x3: int, x4: int, s: int)
    requires n > 0
    ensures var X1, X2, X3, X4 := Mod(x1, n), Mod(x2, n), Mod(x3, n), Mod(x4, n);
            var Xs, Xc := SecondKey(n, x4, s, Add3(n, X1, X2, X3)), SecondKey(n, x2, s, Add3(n, X3, X4, X1));
            SharedPoint(n, Xs, x2, s, X4) == Mod(x2 * x4 * s * (x1 + x3), n)
            && SharedPoint(n, Xc, x4, s, X2) == Mod(x2 * x4 * s * (x1 + x3), n)
  {
    hide Mod, Same, SecondKey, SharedPoint, Add3;
    Add3Class(n, x1, x2, x3);
    Add3Class(n, x3, x4, x1);
    OneSide(n, x1, x2, x3, x4, s, Add3(n, Mod(x1, n), Mod(x2, n), Mod(x3, n)));
    OneSide(n, x3, x4, x1, x2, s, Add3(n, Mod(x3, n), Mod(x4, n), Mod(x1, n)));
    assert x4 * x2 * s * (x3 + x1) == x2 * x4 * s * (x1 + x3);
  }

  /** mbedtls_ecjpake_derive_secret up to the hash: both operations of the curve code may refuse. */
  function Secret(n: int, Xp: nat, xm2: int, s: int, Xp2: nat): Outcome
    requires n > 0
  {
    match MultiplyAdd(n, 1, Xp, Mod(-1 * (xm2 * s), n), Xp2)
    case Fail(code) => Fail(code)
    case Point(K) => Multiply(n, xm2, K)
  }

  lemma NegatedNonZero(n: int, z: int)
    requires n > 0
    ensures Mod(-1 * z, n) == 0 <==> Mod(z, n) == 0
  {
    if Mod(z, n) == 0 {
      assert z == n * (z / n);
      Arith.DivUnique(-1 * z, n, -(z / n), 0);
    }
    if Mod(-1 * z, n) == 0 {
      assert -1 * z == n * (-1 * z / n);
      Arith.DivUnique(z, n, -(-1 * z / n), 0);
    }
  }

  /** The two first keys of the parties cancel exactly if they add up to the order. */
  lemma SumZero(n: int, a: nat, b: nat)
    requires 0 < a < n && 0 < b < n
    ensures Mod(a + b, n) == 0 <==> a + b == n
  {
    Arith.DivUnique(a + b, n, if a + b >= n then 1 else 0, if a + b >= n then a + b - n else a + b);
  }

  /** One side's derivation, in full: refused exactly if the shared point is zero. */
  lemma SecretDecided(n: int, xa1: nat, xa2: nat, xb1: nat, xb2: nat, s: int, G: nat)
    requires IsPrime(n) && 0 < xa1 < n && 0 < xa2 < n && 0 < xb1 < n && 0 < xb2 < n
    requires Mod(s, n) != 0 && Same(G, xa1 + xa2 + xb1, n)
    ensures Secret(n, SecondKey(n, xb2, s, G), xa2, s, Mod(xb2, n)) ==
      if xa1 + xb1 == n then Fail(ERR_INVALID_KEY) else Point(Mod(xa2 * xb2 * s * (xa1 + xb1), n))
  {
    hide Mod, Same, SecondKey, IsPrime, MultiplyAdd;
    var Xp, X2, m := SecondKey(n, xb2, s, G), Mod(xb2, n), Mod(-1 * (xa2 * s), n);
    PrimeAboveOne(n);
    ModOfSmall(xa2, n);
    ModOfSmall(xb2, n);
    ProductNonZero(n, xa2, s);
    NegatedNonZero(n, xa2 * s);
    MultiplyAddValue(n, 1, Xp, m, X2);
    assert 1 * Xp == Xp;
    var K := Mod(Xp + m * X2, n);
    OneSide(n, xa1, xa2, xb1, xb2, s, G);
    ModOfSmall(K, n);
    SumZero(n, xa1, xb1);
    if K == 0 {
      ModOfSmall(0, n);
      assert xa2 * K == 0;
    } else {
      ProductNonZero(n, xa2, K);
    }
    SharedZero(n, xa2, xb2, s, xa1 + xb1);
  }

  lemma PrimeAboveOne(n: int)
    requires IsPrime(n)
    ensures n > 1
  {}

  lemma SharedZero(n: int, a: nat, b: nat, s: int, z: nat)
    requires IsPrime(n) && Mod(a, n) != 0 && Mod(b, n) != 0 && Mod(s, n) != 0
    ensures Mod(a * b * s * z, n) == 0 <==> Mod(z, n) == 0
  {
    hide Mod, IsPrime;
    ProductNonZero(n, a, b);
    ProductNonZero(n, a * b, s);
    if Mod(z, n) != 0 {
      ProductNonZero(n, a * b * s, z);
    } else {
      ZeroFactor(n, a * b * s, z);
    }
  }

  lemma ZeroFactor(n: int, a: int, z: int)
    requires n > 0 && Mod(z, n) == 0
    ensures Mod(a * z, n) == 0
  {
    ModDivides(z, n);
    DividesMul(n, z, a);
  }

  // ----- one party -----

  class Context {
    const y: System
    const role: Role
    const N: Mpi
    const xm1: Mpi
    const xm2: Mpi
    const s: Mpi
    var Xm1: nat
    var Xm2: nat
    var Xp1: nat
    var Xp2: nat
    var Xp: nat

    ghost predicate Valid()
      reads this, N
    {
      Good(y) && N.V() == y.n && xm1 != xm2 && xm1 != N && xm2 != N && s != N && s != xm1 && s != xm2
    }

    /** mbedtls_ecjpake_setup: role, group and password. */
    constructor (y: System, role: Role, N: Mpi, secret: seq<Byte>)
      requires Good(y) && N.V() == y.n
      ensures Valid() && this.y == y && this.role == role && this.N == N
      ensures fresh(xm1) && fresh(xm2) && fresh(s) && s.V() == BigEndian(secret)
    {
      hide IsPrime, BigEndian, Nat;
      this.y, this.role, this.N := y, role, N;
      xm1 := new Mpi();
      xm2 := new Mpi();
      s := new Mpi();
      new;
      MpiBinary.ReadBinary(s, secret);
    }

    /** mbedtls_ecjpake_write_round_one: d1, d2 are the random keys, v1, v2 the commitments. */
    method WriteRoundOne(buf: array<Byte>, len: nat, d1: nat, v1: nat, d2: nat, v2: nat) returns (ret: int, olen: nat)
      requires Valid() && len <= buf.Length && 0 < d1 < y.n && 0 < d2 < y.n
      modifies this`Xm1, this`Xm2, xm1, xm2, buf
      ensures Valid() && (ret == 0 || ret == ERR_ECP_BUFFER_TOO_SMALL)
      ensures ret == 0 ==> olen <= len
      ensures ret == 0 ==>
        var holds := ProofHolds(y, 1, d1, v1, role) && ProofHolds(y, 1, d2, v2, role);
        ReadPair(y, role, buf[..olen]) == if holds then Pair(Xm1, Xm2) else NoPair
      ensures ret == 0 ==> xm1.V() == d1 && xm2.V() == d2 && Xm1 == Mod(d1, y.n) && Xm2 == Mod(d2, y.n)
      ensures len >= 2 * (y.pointMax + ProofRoom(y)) && Der.SizeOf(y.n) < 256 ==> ret == 0
    {
      hide IsPrime, Nat, KeyFor, Mod, ProofHolds, Der.SizeOf, ProofRoom;
      ModulusPositive(y);
      var p: nat;
      olen := 0;
      ret, p, Xm1 := KkpWrite(y, N, 1, xm1, role, buf, 0, len, d1, v1);
      if ret != 0 { return; }
      ghost var o := buf[..p];
      assert buf[0..p] == o;
      ret, olen, Xm2 := KkpWrite(y, N, 1, xm2, role, buf, p, len, d2, v2);
      if ret != 0 { return; }
      assert buf[..olen] == o + buf[p..olen];
      PairDecided(y, Xm1, Xm2, role, o, buf[p..olen], ProofHolds(y, 1, d1, v1, role), ProofHolds(y, 1, d2, v2, role));
      assert d1 * 1 == d1 && d2 * 1 == d2;
    }

    /** mbedtls_ecjpake_read_round_one. */
    method ReadRoundOne(buf: seq<Byte>) returns (ret: int)
      requires Valid()
      modifies this`Xp1, this`Xp2
      ensures match ReadPair(y, Peer(role), buf)
              case NoPair => ret != 0
              case Pair(a, b) => ret == 0 && Xp1 == a && Xp2 == b
    {
      hide IsPrime, Nat, ReadKey;
      var p: nat, a: nat, b: nat;
      assert buf[0..] == buf;
      ret, p, a := KkpRead(y, N, 1, Peer(role), buf, 0);
      Xp1 := a;
      if ret != 0 { return; }
      ret, p, b := KkpRead(y, N, 1, Peer(role), buf, p);
      Xp2 := b;
      if ret != 0 { return; }
      if p != |buf| {
        ret := ERR_ECP_BAD_INPUT_DATA;
      }
    }

    /** mbedtls_ecjpake_write_round_two; refused if the secret or the base point is zero. */
    method WriteRoundTwo(buf: array<Byte>, len: nat, v: nat, draw: nat -> Byte) returns (ret: int, olen: nat)
      requires Valid() && len <= buf.Length
      modifies buf
      ensures Valid() && (ret == 0 || ret == ERR_ECP_BUFFER_TOO_SMALL || ret == ERR_ECP_INVALID_KEY)
      ensures ret == 0 ==> olen <= len
      ensures ret == ERR_ECP_INVALID_KEY <==> Mod(1 * (xm2.V() * s.V()), y.n) == 0 || Add3(y.n, Xp1, Xp2, Xm1) == 0
      ensures ret == 0 ==>
        var G, x := Add3(y.n, Xp1, Xp2, Xm1), Mod(1 * (xm2.V() * s.V()), y.n);
        var key := if ProofHolds(y, G, x, v, role) then Ok(SecondKey(y.n, xm2.V(), s.V(), G), olen) else Err(ERR_ECP_INVALID_KEY);
        ReadSecond(y, G, role, buf[..olen]) == key
      ensures len >= |y.params| + y.pointMax + ProofRoom(y) && Der.SizeOf(y.n) < 256 ==> ret != ERR_ECP_BUFFER_TOO_SMALL
    {
      hide IsPrime, Nat, ProofFor, KeyFor, Mod, ReadKey, ProofHolds, ProofRoom, Der.SizeOf;
      ModulusPositive(y);
      var xm := new Mpi();
      var p: nat := 0;
      olen := 0;
      var G := Add3(y.n, Xp1, Xp2, Xm1);
      var _ := MulSecret(xm, 1, xm2, s, N, draw, 0);
      var X: nat;
      match Multiply(y.n, xm.V(), G)
      case Fail(code) => return code, 0;
      case Point(product) => X := product;
      ModOfSmall(xm.V(), y.n);
      ModOfSmall(G, y.n);
      ProductNonZero(y.n, xm.V(), G);
      if role == Server {
        ret, p := Put(buf, p, len, y.params);
        if ret != 0 { return; }
      }
      var start := p;
      ghost var prefix := buf[..start];
      assert prefix == if role == Server then y.params else [];
      ret, olen := WriteKey(y, N, G, xm, X, role, buf, start, len, v);
      if ret != 0 { return; }
      assert buf[..olen] == prefix + buf[start..olen];
      SecondDecided(y, G, X, role, prefix, buf[start..olen], ProofHolds(y, G, xm.V(), v, role));
    }

    /** mbedtls_ecjpake_read_round_two. */
    method ReadRoundTwo(buf: seq<Byte>) returns (ret: int)
      requires Valid()
      modifies this`Xp
      ensures var G := Add3(y.n, Xm1, Xm2, Xp1);
              match ReadSecond(y, G, Peer(role), buf)
              case Err(_) => ret != 0
              case Ok(X, _) => ret == 0 && Xp == X
    {
      hide IsPrime, Nat, ReadKey, Mod;
      ModulusPositive(y);
      var G := Add3(y.n, Xm1, Xm2, Xp1);
      var p: nat := 0;
      if role == Client {
        if |buf| < |y.params| { return ERR_ECP_BAD_INPUT_DATA; }
        if buf[..|y.params|] != y.params { return ERR_ECP_FEATURE_UNAVAILABLE; }
        p := |y.params|;
      }
      var X: nat;
      ret, p, X := KkpRead(y, N, G, Peer(role), buf, p);
      Xp := X;
      if ret != 0 { return; }
      if p != |buf| {
        ret := ERR_ECP_BAD_INPUT_DATA;
      }
    }

    /** mbedtls_ecjpake_derive_secret, up to the hash of the shared point. */
    method DeriveSecret(draw: nat -> Byte) returns (K: Outcome)
      requires Valid()
      ensures K == Secret(y.n, Xp, xm2.V(), s.V(), Xp2)
    {
      hide IsPrime, Nat, Mod, MultiplyAdd;
      var m := new Mpi();
      ModulusPositive(y);
      var _ := MulSecret(m, -1, xm2, s, N, draw, 0);
      K := MultiplyAdd(y.n, 1, Xp, m.V(), Xp2);
      if K.Point? {
        K := Multiply(y.n, xm2.V(), K.value);
      }
    }
  }

  lemma SecondDecided(y: System, G: nat, X: nat, id: Role, prefix: seq<Byte>, k: seq<Byte>, good: bool)
    requires y.n > 0 && KeyFor(y, G, X, id, k, good) && prefix == (if id == Server then y.params else [])
    ensures ReadSecond(y, G, id, prefix + k) == if good then Ok(X, |prefix + k|) else Err(ERR_ECP_INVALID_KEY)
  {
    hide ReadKey;
    var b := prefix + k;
    assert b[|prefix|..] == k + [];
    assert b[..|prefix|] == prefix;
  }

  // ----- an honest run -----

  /** The randomness of one party. */
  datatype Random = Random(d1: nat, v1: nat, d2: nat, v2: nat, v: nat, draw: nat -> Byte)

  ghost predicate InRange(r: Random, n: int) {
    0 < r.d1 < n && 0 < r.d2 < n
  }

  /** Base point of the server's second key, and of the client's. */
  function ServerBase(n: int, r: Random, t: Random): nat
    requires n > 0
  {
    Add3(n, Mod(r.d1, n), Mod(r.d2, n), Mod(t.d1, n))
  }

  function ClientBase(n: int, r: Random, t: Random): nat
    requires n > 0
  {
    Add3(n, Mod(t.d1, n), Mod(t.d2, n), Mod(r.d1, n))
  }

  /** The first messages of both parties are accepted. */
  predicate FirstRoundHolds(y: System, r: Random, t: Random)
    requires y.n > 0
  {
    ProofHolds(y, 1, r.d1, r.v1, Client) && ProofHolds(y, 1, r.d2, r.v2, Client)
    && ProofHolds(y, 1, t.d1, t.v1, Server) && ProofHolds(y, 1, t.d2, t.v2, Server)
  }

  /** The second messages are written and accepted, and the secrets derived: the password and both
      base points are not zero, the proofs hold, and the two first keys do not cancel. */
  predicate SecondRoundHolds(y: System, r: Random, t: Random, s: int)
    requires y.n > 0
  {
    var Gs, Gc := ServerBase(y.n, r, t), ClientBase(y.n, r, t);
    Mod(s, y.n) != 0 && Gs != 0 && Gc != 0
    && ProofHolds(y, Gs, Mod(1 * (t.d2 * s), y.n), t.v, Server)
    && ProofHolds(y, Gc, Mod(1 * (r.d2 * s), y.n), r.v, Client)
    && r.d1 + t.d1 != y.n
  }

  /** A buffer in which every message fits. */
  predicate Roomy(y: System, len: nat)
    requires y.n >= 0
  {
    Der.SizeOf(y.n) < 256
    && len >= 2 * (y.pointMax + ProofRoom(y)) && len >= |y.params| + y.pointMax + ProofRoom(y)
  }

  datatype RunResult = NoRoom | Refused | Done(client: nat, server: nat)

  /** The four messages between two honest parties with the same password, then both secrets. If
      every message fits, the run completes exactly under the two conditions above, and then both
      sides have the same secret; otherwise the curve code has refused something. */
  method HonestRun(a: Context, b: Context, r: Random, t: Random, buf: array<Byte>, len: nat) returns (o: RunResult)
    requires a.Valid() && b.Valid() && a.role == Client && b.role == Server && a.y == b.y && a.s.V() == b.s.V()
    requires InRange(r, a.y.n) && InRange(t, a.y.n) && len <= buf.Length && a != b
    requires Separate(a, b)
    modifies a, b, a.xm1, a.xm2, b.xm1, b.xm2, buf
    ensures Roomy(a.y, len) ==> o != NoRoom
    ensures o != NoRoom ==> (o.Done? <==> FirstRoundHolds(a.y, r, t) && SecondRoundHolds(a.y, r, t, old(a.s.V())))
    ensures o.Done? ==> o.client == o.server == Mod(r.d2 * t.d2 * old(a.s.V()) * (r.d1 + t.d1), a.y.n)
  {
    hide IsPrime, Nat, Mod, ReadPair, ReadSecond, SecondKey, SharedPoint, Good, Mpi.V, Add3, ProofHolds, SecondRoundHolds, Der.SizeOf, ProofRoom;
    ModulusPositive(a.y);
    var ret, olen := a.WriteRoundOne(buf, len, r.d1, r.v1, r.d2, r.v2);
    if ret != 0 { return NoRoom; }
    ret := b.ReadRoundOne(buf[..olen]);
    if ret != 0 { return Refused; }
    ret, olen := b.WriteRoundOne(buf, len, t.d1, t.v1, t.d2, t.v2);
    if ret != 0 { return NoRoom; }
    ret := a.ReadRoundOne(buf[..olen]);
    if ret != 0 { return Refused; }
    o := SecondHalf(a, b, r, t, buf, len);
  }

  ghost predicate Separate(a: Context, b: Context) {
    a.xm1 != b.xm1 && a.xm1 != b.xm2 && a.xm2 != b.xm1 && a.xm2 != b.xm2
    && a.s != b.xm1 && a.s != b.xm2 && b.s != a.xm1 && b.s != a.xm2
    && a.N != b.xm1 && a.N != b.xm2 && b.N != a.xm1 && b.N != a.xm2
  }

  /** The passwords reach the curve code as non-zero scalars exactly if they are not zero. */
  lemma ScalarNonZero(n: int, d: nat, s: int)
    requires IsPrime(n) && 0 < d < n
    ensures Mod(1 * (d * s), n) == 0 <==> Mod(s, n) == 0
  {
    hide Mod, IsPrime;
    PrimeAboveOne(n);
    ModOfSmall(d, n);
    if Mod(s, n) != 0 {
      ProductNonZero(n, d, s);
    } else {
      ZeroFactor(n, d, s);
    }
  }

  /** Both derivations of an honest run. */
  lemma SecretsDecided(n: int, r: Random, t: Random, s: int)
    requires IsPrime(n) && InRange(r, n) && InRange(t, n) && Mod(s, n) != 0
    ensures var K := if r.d1 + t.d1 == n then Fail(ERR_INVALID_KEY) else Point(Mod(r.d2 * t.d2 * s * (r.d1 + t.d1), n));
            Secret(n, SecondKey(n, t.d2, s, ServerBase(n, r, t)), r.d2, s, Mod(t.d2, n)) == K
            && Secret(n, SecondKey(n, r.d2, s, ClientBase(n, r, t)), t.d2, s, Mod(r.d2, n)) == K
  {
    hide Mod, Same, SecondKey, IsPrime, Secret, Add3;
    PrimeAboveOne(n);
    Add3Class(n, r.d1, r.d2, t.d1);
    Add3Class(n, t.d1, t.d2, r.d1);
    SecretDecided(n, r.d1, r.d2, t.d1, t.d2, s, ServerBase(n, r, t));
    SecretDecided(n, t.d1, t.d2, r.d1, r.d2, s, ClientBase(n, r, t));
    assert t.d2 * r.d2 * s * (t.d1 + r.d1) == r.d2 * t.d2 * s * (r.d1 + t.d1);
  }

  /** First keys that add up to the order leave no secret, whatever else is drawn: every message
      may have been accepted, and both derivations fail. */
  lemma CancellingKeys(y: System, r: Random, t: Random, s: int)
    requires Good(y) && InRange(r, y.n) && InRange(t, y.n) && Mod(s, y.n) != 0 && r.d1 + t.d1 == y.n
    ensures y.n > 0 && !SecondRoundHolds(y, r, t, s)
    ensures Secret(y.n, SecondKey(y.n, t.d2, s, ServerBase(y.n, r, t)), r.d2, s, Mod(t.d2, y.n)) == Fail(ERR_INVALID_KEY)
    ensures Secret(y.n, SecondKey(y.n, r.d2, s, ClientBase(y.n, r, t)), t.d2, s, Mod(r.d2, y.n)) == Fail(ERR_INVALID_KEY)
  {
    hide Mod, Secret, SecondKey, IsPrime;
    ModulusPositive(y);
    SecretsDecided(y.n, r, t, s);
  }

  /** The second messages and the secrets, both parties knowing the first-round keys. */
  method SecondHalf(a: Context, b: Context, r: Random, t: Random, buf: array<Byte>, len: nat) returns (o: RunResult)
    requires a.Valid() && b.Valid() && a.role == Client && b.role == Server && a.y == b.y && a.s.V() == b.s.V()
    requires len <= buf.Length && a != b && a.y.n > 0 && InRange(r, a.y.n) && InRange(t, a.y.n)
    requires a.xm2.V() == r.d2 && b.xm2.V() == t.d2
    requires a.Xm1 == b.Xp1 == Mod(r.d1, a.y.n) && a.Xm2 == b.Xp2 == Mod(r.d2, a.y.n)
    requires b.Xm1 == a.Xp1 == Mod(t.d1, a.y.n) && b.Xm2 == a.Xp2 == Mod(t.d2, a.y.n)
    modifies a`Xp, b`Xp, buf
    ensures Roomy(a.y, len) ==> o != NoRoom
    ensures o != NoRoom ==> (o.Done? <==> SecondRoundHolds(a.y, r, t, a.s.V()))
    ensures o.Done? ==> o.client == o.server == Mod(r.d2 * t.d2 * a.s.V() * (r.d1 + t.d1), a.y.n)
  {
    hide IsPrime, Nat, Mod, ReadPair, ReadSecond, SecondKey, Good, Mpi.V, Add3, ProofHolds, Secret, Der.SizeOf, ProofRoom;
    ghost var n, s := a.y.n, a.s.V();
    OrderPrime(a.y);
    ScalarNonZero(n, r.d2, s);
    ScalarNonZero(n, t.d2, s);
    var ret, olen := b.WriteRoundTwo(buf, len, t.v, t.draw);
    if ret != 0 {
      return if ret == ERR_ECP_INVALID_KEY then Refused else NoRoom;
    }
    ret := a.ReadRoundTwo(buf[..olen]);
    if ret != 0 { return Refused; }
    ret, olen := a.WriteRoundTwo(buf, len, r.v, r.draw);
    if ret != 0 {
      return if ret == ERR_ECP_INVALID_KEY then Refused else NoRoom;
    }
    ret := b.ReadRoundTwo(buf[..olen]);
    if ret != 0 { return Refused; }
    SecretsDecided(n, r, t, s);
    var ka := a.DeriveSecret(r.draw);
    var kb := b.DeriveSecret(t.draw);
    if ka.Fail? || kb.Fail? { return Refused; }
    o := Done(ka.value, kb.value);
  }

  lemma OrderPrime(y: System)
    requires Good(y)
    ensures IsPrime(y.n)
  {}
}
