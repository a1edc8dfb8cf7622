/** Scalar multiplication as the curve code offers it to the protocols: the points of a group of
    prime order n, given by their discrete logarithms, 0 being the zero point. It refuses some
    scalars and points that the mathematics would accept. */
module CurveGroup {
  import opened Arith

  const ERR_INVALID_KEY := -0x4C80

  datatype Outcome = Fail(code: int) | Point(value: nat)

  function Mod(z: int, n: int): (r: nat)
    requires n > 0
    ensures r < n
  {
    z % n
  }

  /** mbedtls_ecp_mul: the scalar must be in [1, n), the point must not be zero. */
  function Multiply(n: int, m: int, P: nat): Outcome
    requires n > 0
  {
    if 1 <= m < n && P != 0 then Point(Mod(m * P, n)) else Fail(ERR_INVALID_KEY)
  }

  /** mbedtls_ecp_mul_shortcuts: 1 and -1 copy, without a check. */
  function MultiplyShortcut(n: int, m: int, P: nat): Outcome
    requires n > 0
  {
    if m == 1 then Point(P)
    else if m == -1 then Point(Mod(0 - P as int, n))
    else Multiply(n, m, P)
  }

  /** mbedtls_ecp_muladd: m P + k Q. */
  function MultiplyAdd(n: int, m: int, P: nat, k: int, Q: nat): Outcome
    requires n > 0
  {
    match MultiplyShortcut(n, m, P)
    case Fail(code) => Fail(code)
    case Point(a) =>
      match MultiplyShortcut(n, k, Q)
      case Fail(code) => Fail(code)
      case Point(b) => Point(Mod(a + b, n))
  }

  /** What one factor refuses: zero as a scalar, the zero point unless it is only copied. */
  predicate Refused(m: int, P: nat) {
    m != 1 && (m == 0 || P == 0)
  }

  lemma ShortcutValue(n: int, m: int, P: nat)
    requires 0 <= m < n && P < n
    ensures MultiplyShortcut(n, m, P) == if Refused(m, P) then Fail(ERR_INVALID_KEY) else Point(Mod(m * P, n))
  {
    if m == 1 { ModSmall(P, n); }
  }

  /** For reduced scalars the sum is right whenever it is not refused. */
  lemma MultiplyAddValue(n: int, m: int, P: nat, k: int, Q: nat)
    requires 0 <= m < n && 0 <= k < n && P < n && Q < n
    ensures MultiplyAdd(n, m, P, k, Q) ==
      if Refused(m, P) || Refused(k, Q) then Fail(ERR_INVALID_KEY) else Point(Mod(m * P + k * Q, n))
  {
    hide Cong, Mod;
    ShortcutValue(n, m, P);
    ShortcutValue(n, k, Q);
    SumOfMods(m * P, k * Q, n);
  }

  lemma SumOfMods(a: int, b: int, n: int)
    requires n > 0
    ensures Mod(Mod(a, n) + Mod(b, n), n) == Mod(a + b, n)
  {
    hide Cong;
    CongMod(a, n);
    CongMod(b, n);
    CongAdd(Mod(a, n), a, Mod(b, n), b, n);
    CongEqual(Mod(a, n) + Mod(b, n), a + b, n);
  }

  lemma CongEqual(a: int, b: int, n: int)
    requires n > 0 && Cong(a, b, n)
    ensures Mod(a, n) == Mod(b, n)
  {}
}
