/** The multi-precision integer record and its size, copy and comparison routines. */
module MpiCore {
  import opened Limbs

  type Sign = x: int | x == 1 || x == -1 witness 1

  /** A signed single-limb argument. */
  type Sint = x: int | -0x8000_0000_0000_0000 < x < 0x8000_0000_0000_0000

  const ERR_BAD_INPUT_DATA := -0x0004
  const ERR_BUFFER_TOO_SMALL := -0x0008
  const ERR_NEGATIVE_VALUE := -0x000A
  const ERR_DIVISION_BY_ZERO := -0x000C
  const ERR_NOT_ACCEPTABLE := -0x000E

  function Sgn(z: int): int {
    if z < 0 then -1 else if z == 0 then 0 else 1
  }

  function Max(a: int, b: int): int {
    if a < b then b else a
  }

  function Abs(z: int): nat {
    if z < 0 then -z else z
  }

  /** mbedtls_mpi: sign and limb buffer; the field n of the record is |p|. */
  class Mpi {
    var s: Sign
    var p: seq<Limb>

    constructor ()
      ensures s == 1 && p == []
    {
      s := 1;
      p := [];
    }

    /** The one-limb record built on the stack by the *_int routines. */
    constructor OfInt(z: Sint)
      ensures p == [Abs(z)] && s == (if z < 0 then -1 else 1)
      ensures V() == z
    {
      s := if z < 0 then -1 else 1;
      p := [Abs(z)];
      new;
      assert Nat(p) == Nat([Abs(z)]) == Abs(z);
    }

    function V(): int
      reads this
    {
      var n: int := Nat(p);
      if s == 1 then n else -n
    }
  }

  method Free(X: Mpi)
    modifies X
    ensures X.s == 1 && X.p == []
  {
    X.s := 1;
    X.p := [];
  }

  method Grow(X: Mpi, nblimbs: nat)
    modifies X
    ensures X.s == old(X.s)
    ensures X.p == old(X.p) + Zeros(Max(0, nblimbs - old(|X.p|)))
    ensures |X.p| == Max(old(|X.p|), nblimbs)
    ensures Nat(X.p) == old(Nat(X.p)) && X.V() == old(X.V())
  {
    if |X.p| < nblimbs {
      var p := Zeros(nblimbs);
      p := X.p + p[|X.p|..];
      assert p[|X.p|..] == Zeros(nblimbs - |X.p|);
      NatConcat(X.p, Zeros(nblimbs - |X.p|));
      NatZeros(nblimbs - |X.p|);
      X.p := p;
    } else {
      assert X.p + Zeros(0) == X.p;
    }
  }

  /** The scan `for (i = n; i > 0; i--) if (p[i - 1] != 0) break;`. */
  method UsedLimbs(s: seq<Limb>) returns (i: nat)
    ensures i == Used(s)
  {
    i := |s|;
    assert s[..i] == s;
    while i > 0
      invariant i <= |s| && Used(s[..i]) == Used(s)
    {
      if s[i - 1] != 0 { break; }
      assert s[..i][..i - 1] == s[..i - 1];
      i := i - 1;
    }
  }

  method Copy(X: Mpi, Y: Mpi)
    modifies X
    ensures X.V() == old(Y.V()) && Nat(X.p) == old(Nat(Y.p))
    ensures old(Y.p) != [] ==> X.s == old(Y.s)
    ensures X != Y ==>
      |X.p| == if old(Y.p) == [] then 0 else Max(old(|X.p|), Max(1, Used(old(Y.p))))
    ensures X == Y ==> X.p == old(X.p)
  {
    if X == Y { return; }
    if Y.p == [] {
      Free(X);
      return;
    }
    var i := UsedLimbs(Y.p);
    i := if i == 0 then 1 else i;
    X.s := Y.s;
    UsedSuffix(Y.p, i);
    var tail := if |X.p| < i then 0 else |X.p| - i;
    X.p := Y.p[..i] + Zeros(tail);
    NatConcat(Y.p[..i], Zeros(tail));
    NatZeros(tail);
  }

  method Lset(X: Mpi, z: Sint)
    modifies X
    ensures X.V() == z && Nat(X.p) == Abs(z)
    ensures X.s == if z < 0 then -1 else 1
    ensures |X.p| == Max(1, old(|X.p|))
    ensures X.p == [Abs(z)] + Zeros(|X.p| - 1)
  {
    Grow(X, 1);
    X.p := [Abs(z)] + Zeros(|X.p| - 1);
    X.s := if z < 0 then -1 else 1;
    NatConcat([Abs(z)], Zeros(|X.p| - 1));
    NatZeros(|X.p| - 1);
  }

  method CmpAbs(X: Mpi, Y: Mpi) returns (r: int)
    ensures r == Sgn(Nat(X.p) - Nat(Y.p))
  {
    var i := UsedLimbs(X.p);
    var j := UsedLimbs(Y.p);
    if i == 0 && j == 0 {
      UsedZero(X.p);
      UsedZero(Y.p);
      return 0;
    }
    if i > j {
      UsedLess(Y.p, X.p);
      return 1;
    }
    if j > i {
      UsedLess(X.p, Y.p);
      return -1;
    }
    r := CompareFrom(X.p, Y.p, i);
  }

  /** The limb-by-limb tail shared by both comparisons. */
  method CompareFrom(x: seq<Limb>, y: seq<Limb>, n: nat) returns (r: int)
    requires n == Used(x) == Used(y)
    ensures r == Sgn(Nat(x) - Nat(y))
  {
    UsedSuffix(x, n);
    UsedSuffix(y, n);
    var i := n;
    while i > 0
      invariant 0 <= i <= n && x[i..n] == y[i..n]
    {
      if x[i - 1] != y[i - 1] {
        assert x[..n][i..] == x[i..n] && y[..n][i..] == y[i..n];
        DiffAt(x[..n], y[..n], i - 1);
        return if x[i - 1] > y[i - 1] then 1 else -1;
      }
      assert x[i - 1..n] == [x[i - 1]] + x[i..n];
      assert y[i - 1..n] == [y[i - 1]] + y[i..n];
      i := i - 1;
    }
    assert x[..n] == x[0..n] == y[0..n] == y[..n];
    return 0;
  }

  method CmpMpi(X: Mpi, Y: Mpi) returns (r: int)
    ensures r == Sgn(X.V() - Y.V())
  {
    var i := UsedLimbs(X.p);
    var j := UsedLimbs(Y.p);
    NatBound(X.p);
    NatBound(Y.p);
    if i == 0 && j == 0 {
      UsedZero(X.p);
      UsedZero(Y.p);
      return 0;
    }
    if i > j {
      UsedLess(Y.p, X.p);
      return X.s;
    }
    if j > i {
      UsedLess(X.p, Y.p);
      var sy: int := Y.s;
      return -sy;
    }
    UsedPos(X.p);
    UsedPos(Y.p);
    if X.s > 0 && Y.s < 0 { return 1; }
    if Y.s > 0 && X.s < 0 { return -1; }
    r := CompareFrom(X.p, Y.p, i);
    r := X.s * r;
  }

  method CmpInt(X: Mpi, z: Sint) returns (r: int)
    ensures r == Sgn(X.V() - z)
  {
    var Y := new Mpi.OfInt(z);
    r := CmpMpi(X, Y);
  }
}
