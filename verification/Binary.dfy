/** Byte strings as numbers, and the import and export of multi-precision integers. */
module ByteStrings {
  import opened Arith

  type Byte = x: int | 0 <= x < 256

  /** The number a big-endian byte string denotes. */
  function BigEndian(s: seq<Byte>): nat {
    if s == [] then 0 else BigEndian(s[..|s| - 1]) * 256 + s[|s| - 1]
  }

  /** The big-endian string of exactly n bytes for x modulo 256^n. */
  function ToBytes(x: nat, n: nat): (s: seq<Byte>)
    ensures |s| == n
  {
    if n == 0 then [] else ToBytes(x / 256, n - 1) + [x % 256]
  }

  lemma SliceOfSlice(s: seq<Byte>, i: nat, j: nat, k: nat, l: nat)
    requires i <= j <= |s| && k <= l <= j - i
    ensures s[i..j][k..l] == s[i + k..i + l]
  {
    var u := s[i..j];
    forall x | 0 <= x < l - k ensures u[k..l][x] == s[i + k..i + l][x] {
      assert u[k..l][x] == u[k + x];
    }
  }

  lemma {:induction false} BytesBound(s: seq<Byte>)
    ensures BigEndian(s) < Pow(256, |s|)
  {
    if s != [] { BytesBound(s[..|s| - 1]); }
  }

  lemma {:induction false} AllZero(b: seq<Byte>)
    requires forall i :: 0 <= i < |b| ==> b[i] == 0
    ensures BigEndian(b) == 0
  {
    if b != [] { AllZero(b[..|b| - 1]); }
  }

  lemma {:induction false} BytesRoundTrip(s: seq<Byte>)
    ensures ToBytes(BigEndian(s), |s|) == s
  {
    if s != [] {
      var t := s[..|s| - 1];
      BytesRoundTrip(t);
      assert BigEndian(s) / 256 == BigEndian(t) && BigEndian(s) % 256 == s[|s| - 1];
      assert s == t + [s[|s| - 1]];
    }
  }

  lemma {:induction false} NumberRoundTrip(x: nat, n: nat)
    requires x < Pow(256, n)
    ensures BigEndian(ToBytes(x, n)) == x
  {
    if n > 0 {
      NumberRoundTrip(x / 256, n - 1);
      var s := ToBytes(x, n);
      assert s[..n - 1] == ToBytes(x / 256, n - 1);
    }
  }

  lemma {:induction false} BytesConcat(a: seq<Byte>, b: seq<Byte>)
    ensures BigEndian(a + b) == BigEndian(a) * Pow(256, |b|) + BigEndian(b)
  {
    if b == [] {
      assert a + b == a;
    } else {
      var b' := b[..|b| - 1];
      assert (a + b)[..|a + b| - 1] == a + b';
      BytesConcat(a, b');
      ConcatArith(BigEndian(a), Pow(256, |b| - 1));
    }
  }

  lemma ConcatArith(a: int, P: int)
    ensures a * P * 256 == a * (256 * P)
  {
  }

  /** Byte i of a number counted from the least significant one. */
  function ByteOf(x: nat, i: nat): Byte {
    PowPos(256, i);
    x / Pow(256, i) % 256
  }

  lemma {:induction false} ToBytesAt(x: nat, n: nat, i: nat)
    requires i < n
    ensures ToBytes(x, n)[n - 1 - i] == ByteOf(x, i)
  {
    hide BigEndian;
    PowPos(256, i);
    if i == 0 {
      PowZero(256);
    } else {
      ToBytesAt(x / 256, n - 1, i - 1);
      PowPos(256, i - 1);
      DivTwice(x, Pow(256, i - 1));
    }
  }

  lemma DivTwice(x: nat, P: int)
    requires P > 0
    ensures x / 256 / P == x / (256 * P)
  {
    var q, r := x / 256 / P, x / 256 % P;
    assert x / 256 == q * P + r by { assert x / 256 == P * q + r; }
    var l := x % 256;
    assert x == 256 * (q * P + r) + l;
    DivUnique(x, 256 * P, q, 256 * r + l);
  }
}

/** Big-endian import and export of multi-precision integers. */
module MpiBinary {
  import opened Arith
  import opened Limbs
  import opened MpiCore
  import opened MpiBits
  import opened MpiShift
  import opened Montgomery
  import opened ByteStrings

  /** GET_BYTE: byte i of the number, read out of its limb. */
  function GetByte(p: seq<Limb>, i: nat): Byte
    requires i < 8 * |p|
  {
    ByteOf(p[i / 8], i % 8)
  }

  lemma {:induction false} Pow256(n: nat)
    ensures BPow(n) == Pow(256, 8 * n)
  {
    if n > 0 {
      Pow256(n - 1);
      PowAdd(256, 8, 8 * (n - 1));
      assert Pow(256, 8) == BASE;
    }
  }

  lemma GetByteIsByteOf(p: seq<Limb>, i: nat)
    requires i < 8 * |p|
    ensures GetByte(p, i) == ByteOf(Nat(p), i)
  {
    hide Pow, Nat;
    var k, j := i / 8, i % 8;
    NatDrop(p, k);
    LowDigit(p[k..]);
    var m := Nat(p[k..]);
    LimbByte(p[k], m / BASE, m, j);
    PowPos(256, j);
    Pow256(k);
    PowAdd(256, 8 * k, j);
    DivDiv(Nat(p), BPow(k), Pow(256, j), m / Pow(256, j), m % Pow(256, j)) by {
      FundamentalDiv(m, Pow(256, j));
    }
  }

  lemma FundamentalDiv(m: int, d: int)
    requires d > 0
    ensures m == d * (m / d) + m % d && 0 <= m % d < d
  {
  }

  /** The bytes of the lowest limb are bytes of the number. */
  lemma LimbByte(x: Limb, h: nat, m: nat, j: nat)
    requires j < 8 && m % BASE == x && m / BASE == h
    ensures ByteOf(x, j) == ByteOf(m, j)
  {
    hide Pow;
    var P, M := Pow(256, j), Pow(256, 7 - j);
    PowPos(256, j);
    assert BASE == 256 * (M * P) by {
      PowAdd(256, 7 - j, j);
      Pow256(1);
      PowOneBase();
      Pow7();
    }
    FundamentalDiv(x, P);
    var q := x / P + 256 * (M * h);
    LimbByteArith(x / P, P, M, h);
    DivUnique(m, P, q, x % P);
  }

  lemma LimbByteArith(q: int, P: int, M: int, h: int)
    ensures P * q + 256 * (M * P) * h == (q + 256 * (M * h)) * P
  {
    assert 256 * (M * P) * h == 256 * (M * h) * P;
  }

  lemma PowOneBase()
    ensures BPow(1) == BASE
  {
    assert BPow(1) == BASE * BPow(0);
  }

  lemma Pow7()
    ensures Pow(256, 7) * 256 == BASE
  {
  }

  method Size(X: Mpi) returns (n: nat)
    ensures Nat(X.p) < Pow(256, n) && (n > 0 ==> Pow(256, n - 1) <= Nat(X.p))
  {
    hide Pow, Nat;
    var b := BitLen(X);
    n := (b + 7) / 8;
    Pow256Bits(n);
    Pow2Mono(b, 8 * n);
    if n > 0 {
      Pow256Bits(n - 1);
      Pow2Mono(8 * (n - 1), b - 1);
    }
  }

  lemma {:induction false} Pow256Bits(n: nat)
    ensures Pow(256, n) == Pow(2, 8 * n)
  {
    if n > 0 {
      Pow256Bits(n - 1);
      PowAdd(2, 8, 8 * (n - 1));
      assert Pow(2, 8) == 256;
    }
  }

  /** Write the number right-aligned into len bytes at off. */
  method WriteBinary(X: Mpi, buf: array<Byte>, off: nat, len: nat) returns (ret: int)
    requires off + len <= buf.Length
    modifies buf
    ensures ret == if Nat(X.p) < Pow(256, len) then 0 else ERR_BUFFER_TOO_SMALL
    ensures ret == 0 ==> buf[off..off + len] == ToBytes(Nat(X.p), len)
    ensures ret != 0 ==> buf[..] == old(buf[..])
    ensures buf[..off] == old(buf[..off]) && buf[off + len..] == old(buf[off + len..])
  {
    hide Pow, Nat, GetByte, ByteOf, ToBytes;
    var stored, copied, start := 8 * |X.p|, len, off;
    StoredBound(X.p);
    if stored < len {
      copied := stored;
      start := off + len - stored;
      PowMono256(stored, len);
      var k := off;
      while k < start
        invariant off <= k <= start
        invariant forall j :: off <= j < k ==> buf[j] == 0
        invariant buf[..off] == old(buf[..off]) && buf[off + len..] == old(buf[off + len..])
      {
        buf[k] := 0;
        k := k + 1;
      }
    } else {
      var i := copied;
      while i < stored
        modifies {}
        invariant copied <= i <= stored
        invariant forall k :: copied <= k < i ==> ByteOf(Nat(X.p), k) == 0
      {
        GetByteIsByteOf(X.p, i);
        if GetByte(X.p, i) != 0 {
          HighByteSet(Nat(X.p), i, len);
          return ERR_BUFFER_TOO_SMALL;
        }
        i := i + 1;
      }
      HighBytesClear(Nat(X.p), len, stored);
    }
    var i := 0;
    while i < copied
      invariant i <= copied
      invariant forall k :: 0 <= k < i ==> buf[start + copied - 1 - k] == ByteOf(Nat(X.p), k)
      invariant forall j :: off <= j < start ==> buf[j] == 0
      invariant buf[..off] == old(buf[..off]) && buf[off + len..] == old(buf[off + len..])
    {
      GetByteIsByteOf(X.p, i);
      buf[start + copied - i - 1] := GetByte(X.p, i);
      i := i + 1;
    }
    ghost var n := Nat(X.p);
    forall j | 0 <= j < len
      ensures buf[off + j] == ToBytes(n, len)[j]
    {
      ToBytesAt(n, len, len - 1 - j);
      if len - 1 - j >= copied { HighBytesZero(n, copied, len - 1 - j); }
    }
    ret := 0;
  }

  lemma StoredBound(p: seq<Limb>)
    ensures Nat(p) < Pow(256, 8 * |p|)
  {
    NatBound(p);
    Pow256(|p|);
  }

  lemma {:induction false} PowMono256(a: nat, b: nat)
    requires a <= b
    ensures 0 < Pow(256, a) <= Pow(256, b)
  {
    PowPos(256, a);
    if a < b { PowMono256(a, b - 1); }
  }

  lemma HighBytesZero(x: nat, n: nat, i: nat)
    requires x < Pow(256, n) && n <= i
    ensures ByteOf(x, i) == 0
  {
    PowMono256(n, i);
    DivUnique(x, Pow(256, i), 0, x);
  }

  lemma HighByteSet(x: nat, i: nat, n: nat)
    requires n <= i && ByteOf(x, i) != 0
    ensures x >= Pow(256, n)
  {
    if x < Pow(256, n) { HighBytesZero(x, n, i); }
  }

  lemma {:induction false} HighBytesClear(x: nat, n: nat, m: nat)
    requires n <= m && x < Pow(256, m) && forall k :: n <= k < m ==> ByteOf(x, k) == 0
    ensures x < Pow(256, n)
  {
    if n < m {
      TopByteClear(x, m - 1);
      HighBytesClear(x, n, m - 1);
    }
  }

  lemma TopByteClear(x: nat, k: nat)
    requires x < Pow(256, k + 1) && ByteOf(x, k) == 0
    ensures x < Pow(256, k)
  {
    var P := Pow(256, k);
    PowPos(256, k);
    var q := x / P;
    assert x == P * q + x % P;
    if q >= 256 { MulMono(256, q, P); }
    if q < 0 { MulMono(q, -1, P); }
    assert q == 0;
  }

  /** Bytes 8 * k .. 8 * k + 8 of limb storage. */
  function Group(raw: seq<Byte>, k: nat): seq<Byte>
    requires 8 * k + 8 <= |raw|
  {
    raw[8 * k..8 * k + 8]
  }

  /** A limb as loaded from little-endian storage. */
  function Loaded(g: seq<Byte>): Limb
    requires |g| == 8
  {
    EightBytes([g[7], g[6], g[5], g[4], g[3], g[2], g[1], g[0]]);
    BigEndian([g[7], g[6], g[5], g[4], g[3], g[2], g[1], g[0]])
  }

  lemma EightBytes(g: seq<Byte>)
    requires |g| == 8
    ensures BigEndian(g) < BASE
  {
    BytesBound(g);
    Pow7();
    assert Pow(256, 8) == 256 * Pow(256, 7);
  }

  /** mpi_uint_bigendian_to_host: the storage bytes of x read most significant first. */
  function BigEndianToHost(x: Limb): Limb {
    var b := ToBytes(x, 8);
    Loaded(b)
  }

  lemma HostOfLoaded(g: seq<Byte>)
    requires |g| == 8
    ensures BigEndianToHost(Loaded(g)) == BigEndian(g)
  {
    hide BigEndian, ToBytes;
    var r := [g[7], g[6], g[5], g[4], g[3], g[2], g[1], g[0]];
    BytesRoundTrip(r);
    assert [r[7], r[6], r[5], r[4], r[3], r[2], r[1], r[0]] == g;
  }

  /** mpi_bigendian_to_host: swap the limbs end for end and the bytes within each. */
  method BigEndianLimbs(X: Mpi, ghost raw: seq<Byte>)
    requires |raw| == 8 * |X.p| && forall k :: 0 <= k < |X.p| ==> X.p[k] == Loaded(Group(raw, k))
    modifies X
    ensures X.s == old(X.s) && |X.p| == old(|X.p|)
    ensures forall k :: 0 <= k < |X.p| ==> X.p[k] == BigEndian(Group(raw, |X.p| - 1 - k))
  {
    hide Loaded, BigEndian, BigEndianToHost;
    var n := |X.p|;
    if n == 0 { return; }
    var l, r := 0, n - 1;
    while l <= r
      invariant 0 <= l && l + r == n - 1 && |X.p| == n && X.s == old(X.s) && l <= r + 2
      invariant forall k :: l <= k <= r ==> X.p[k] == Loaded(Group(raw, k))
      invariant forall k :: 0 <= k < n && (k < l || k > r) ==> X.p[k] == BigEndian(Group(raw, n - 1 - k))
    {
      HostOfLoaded(Group(raw, l));
      HostOfLoaded(Group(raw, r));
      var tmp := BigEndianToHost(X.p[l]);
      X.p := X.p[l := BigEndianToHost(X.p[r])];
      X.p := X.p[r := tmp];
      l, r := l + 1, r - 1;
    }
  }

  lemma {:induction false} LimbsValue(p: seq<Limb>, raw: seq<Byte>)
    requires |raw| == 8 * |p| && forall k :: 0 <= k < |p| ==> p[k] == BigEndian(Group(raw, |p| - 1 - k))
    ensures Nat(p) == BigEndian(raw)
  {
    hide BigEndian, Pow;
    if |p| == 0 {
      assert raw == [] && BigEndian(raw) == 0 by { EmptyValue(raw); }
    } else {
      var m := |p| - 1;
      var hi := raw[..8 * m];
      assert Group(raw, m) == raw[8 * m..];
      assert raw == hi + raw[8 * m..];
      forall k | 0 <= k < m
        ensures p[1..][k] == BigEndian(Group(hi, m - 1 - k))
      {
        assert Group(hi, m - 1 - k) == Group(raw, m - 1 - k);
      }
      LimbsValue(p[1..], hi);
      BytesConcat(hi, raw[8 * m..]);
      Pow256(1);
      PowOneBase();
    }
  }

  lemma EmptyValue(s: seq<Byte>)
    requires s == []
    ensures BigEndian(s) == 0
  {
  }

  /** Import of a big-endian byte string. */
  method ReadBinary(X: Mpi, buf: seq<Byte>)
    modifies X
    ensures X.s == 1 && X.V() == BigEndian(buf)
    ensures |X.p| == Max(1, |buf| / 8 + if |buf| % 8 != 0 then 1 else 0)
  {
    hide Pow, Nat, BigEndian, Loaded;
    var limbs := |buf| / 8 + if |buf| % 8 != 0 then 1 else 0;
    var overhead := limbs * 8 - |buf|;
    if |X.p| != limbs {
      Free(X);
      Grow(X, limbs);
    }
    Lset(X, 0);
    var raw := seq(overhead, i => 0) + buf;
    if limbs == 0 {
      EmptyValue(buf);
      return;
    }
    var k := 0;
    while k < limbs
      invariant k <= limbs == |X.p| && X.s == 1
      invariant forall j :: 0 <= j < k ==> X.p[j] == Loaded(Group(raw, j))
    {
      X.p := X.p[k := Loaded(Group(raw, k))];
      k := k + 1;
    }
    BigEndianLimbs(X, raw);
    LimbsValue(X.p, raw);
    LeadingZeros(overhead, buf);
  }

  /** The number that `size` octets of a random source denote, from position pos on. */
  function RandomNumber(draw: nat -> Byte, size: nat, pos: nat): nat {
    BigEndian(seq(size, i requires 0 <= i < size => draw(pos + i)))
  }

  /** size bytes of random data as a number; f_rng is a stream of bytes, of which pos are used up. */
  method FillRandom(X: Mpi, size: nat, draw: nat -> Byte, pos: nat) returns (pos': nat)
    modifies X
    ensures X.s == 1 && X.V() == RandomNumber(draw, size, pos)
    ensures |X.p| == Max(1, size / 8 + if size % 8 != 0 then 1 else 0) && pos' == pos + size
  {
    ReadBinary(X, seq(size, i requires 0 <= i < size => draw(pos + i)));
    pos' := pos + size;
  }

  lemma {:induction false} LeadingZeros(n: nat, s: seq<Byte>)
    ensures BigEndian(seq(n, i => 0) + s) == BigEndian(s)
  {
    var z: seq<Byte> := seq(n, i => 0);
    BytesConcat(z, s);
    ZeroBytes(n);
    MulZero(BigEndian(z), 0);
  }

  lemma {:induction false} ZeroBytes(n: nat)
    ensures BigEndian(seq(n, i => 0)) == 0
  {
    if n > 0 {
      ZeroBytes(n - 1);
      var z: seq<Byte> := seq(n, i => 0);
      assert z[..n - 1] == seq(n - 1, i => 0);
    }
  }
}
