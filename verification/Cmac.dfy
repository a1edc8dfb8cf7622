/** The CMAC authentication mode (section 6 of NIST SP 800-38B) over a 16-octet block cipher, as
    cmac.c computes it from a message that arrives in pieces. */
module Cmac {
  import opened Octets
  import opened Cbc
  import opened BlockPadding
  import CtrMode
  import Arith

  const ERR_BAD_INPUT_DATA := -0x6100

  // ----- doubling a block -----

  function High(b: Octet): Octet {
    b >> 7
  }

  function Shifted(b: Octet, carry: Octet): Octet {
    (b << 1) | carry
  }

  /** s as a big-endian bit string, moved left by one bit with `carry` coming in. */
  function ShiftLeft(s: seq<Octet>, carry: Octet): (r: seq<Octet>)
    ensures |r| == |s|
  {
    if s == [] then [] else
      var n := |s| - 1;
      ShiftLeft(s[..n], High(s[n])) + [Shifted(s[n], carry)]
  }

  lemma ShiftOctet(b: Octet, carry: Octet)
    requires carry == 0 || carry == 1
    ensures High(b) == 0 || High(b) == 1
    ensures Wide(Shifted(b, carry)) + 256 * Wide(High(b)) == 2 * Wide(b) + Wide(carry)
  {}

  lemma ModHigh(v: nat, w: nat, n: nat)
    requires 0 < n && w < 256
    ensures (256 * v + w) % (256 * n) == 256 * (v % n) + w
  {
    Arith.DivUnique(256 * v + w, 256 * n, v / n, 256 * (v % n) + w);
  }

  /** Shifting doubles the number modulo 256^|s|. */
  lemma {:induction false} ShiftDoubles(s: seq<Octet>, carry: Octet)
    requires carry == 0 || carry == 1
    ensures CtrMode.Value(ShiftLeft(s, carry)) == (2 * CtrMode.Value(s) + Wide(carry)) % CtrMode.Size(|s|)
  {
    hide High, Shifted, Wide, CtrMode.Value, CtrMode.Size, ShiftLeft;
    if s == [] {
      ShiftNone(s, carry);
    } else {
      var n := |s| - 1;
      var u, b := ShiftLeft(s[..n], High(s[n])), Shifted(s[n], carry);
      ShiftOctet(s[n], carry);
      ShiftDoubles(s[..n], High(s[n]));
      ShiftSnoc(s, carry);
      ValueSnoc(u, b);
      ValueSnoc(s[..n], s[n]);
      assert s[..n] + [s[n]] == s;
      WideBound(b);
      DoubleStep(CtrMode.Value(s[..n]), Wide(High(s[n])), Wide(b), Wide(s[n]), Wide(carry), CtrMode.Size(n));
      SizeNext(n);
    }
  }

  lemma ShiftNone(s: seq<Octet>, carry: Octet)
    requires s == []
    ensures CtrMode.Value(ShiftLeft(s, carry)) == (2 * CtrMode.Value(s) + Wide(carry)) % CtrMode.Size(|s|)
  {}

  lemma ShiftSnoc(s: seq<Octet>, carry: Octet)
    requires s != []
    ensures var n := |s| - 1;
            ShiftLeft(s, carry) == ShiftLeft(s[..n], High(s[n])) + [Shifted(s[n], carry)]
  {}

  lemma SizeNext(n: nat)
    ensures CtrMode.Size(n + 1) == 256 * CtrMode.Size(n)
  {}

  lemma DoubleStep(v: nat, top: nat, w: nat, last: nat, c: nat, n: nat)
    requires 0 < n && w < 256 && w + 256 * top == 2 * last + c
    ensures 256 * ((2 * v + top) % n) + w == (2 * (256 * v + last) + c) % (256 * n)
  {
    ModHigh(2 * v + top, w, n);
  }

  lemma ValueSnoc(s: seq<Octet>, b: Octet)
    ensures CtrMode.Value(s + [b]) == 256 * CtrMode.Value(s) + Wide(b)
  {
    assert (s + [b])[..|s|] == s;
  }

  /** The reduction octet: x^64 + x^4 + x^3 + x + 1 or x^128 + x^7 + x^2 + x + 1. */
  function Reduction(n: nat): Octet {
    if n == 16 then 0x87 else 0x1B
  }

  /** Multiplication by u (section 5.3): the shifted string, reduced if a one was shifted out. */
  function TimesU(s: seq<Octet>): (r: seq<Octet>)
    requires |s| > 0
    ensures |r| == |s|
  {
    var t, n := ShiftLeft(s, 0), |s| - 1;
    if High(s[0]) == 0 then t else t[n := t[n] ^ Reduction(|s|)]
  }

  lemma MaskOctet(b: Octet, r: Octet, v: Octet)
    ensures v ^ (r & (0 - High(b))) == if High(b) == 0 then v else v ^ r
  {}

  /** The loop from the last octet to the first, each handing its top bit on. */
  method ShiftInto(output: array<Octet>, input: array<Octet>)
    requires output.Length == input.Length && input != output
    modifies output
    ensures output[..] == ShiftLeft(input[..], 0)
  {
    hide High, Shifted, ShiftLeft;
    var overflow: Octet := 0x00;
    var i := input.Length;
    assert input[..i] == input[..] && output[i..] == [];
    while i > 0
      invariant 0 <= i <= input.Length
      invariant ShiftLeft(input[..], 0) == ShiftLeft(input[..i], overflow) + output[i..]
      modifies output
    {
      ghost var rest := output[i..];
      ShiftSnoc(input[..i], overflow);
      assert input[..i][..i - 1] == input[..i - 1];
      i := i - 1;
      output[i] := Shifted(input[i], overflow);
      assert output[i..] == [output[i]] + rest;
      overflow := High(input[i]);
    }
    assert output[0..] == output[..];
    ShiftEmpty(input[..0], overflow);
  }

  lemma ShiftEmpty(s: seq<Octet>, carry: Octet)
    requires s == []
    ensures ShiftLeft(s, carry) == []
  {}

  /** cmac_multiply_by_u. */
  method MultiplyByU(output: array<Octet>, input: array<Octet>, blocksize: nat) returns (ret: int)
    requires blocksize == output.Length == input.Length && input != output
    modifies output
    ensures ret == if blocksize == 16 || blocksize == 8 then 0 else ERR_BAD_INPUT_DATA
    ensures ret == 0 ==> output[..] == TimesU(input[..])
  {
    hide High, ShiftLeft;
    var rn: Octet;
    if blocksize == 16 {
      rn := 0x87;
    } else if blocksize == 8 {
      rn := 0x1B;
    } else {
      return ERR_BAD_INPUT_DATA;
    }
    ShiftInto(output, input);
    var mask := 0 - High(input[0]);
    MaskOctet(input[0], rn, output[blocksize - 1]);
    output[blocksize - 1] := output[blocksize - 1] ^ (rn & mask);
    ret := 0;
  }

  // ----- the mode -----

  const ZERO: Block := Fill(0, 16)

  function Subkey1(c: BlockCipher): Block {
    TimesU(c.encrypt(ZERO))
  }

  function Subkey2(c: BlockCipher): Block {
    TimesU(Subkey1(c))
  }

  /** The octets of a message that precede its last block; the last block is empty only if the
      message is. */
  function Body(n: nat): (r: nat)
    ensures r <= n <= r + 16 && r % 16 == 0 && (n > 0 ==> r < n)
  {
    if n == 0 then 0 else 16 * ((n - 1) / 16)
  }

  /** Steps 3 and 4 of section 6.2: a complete last block is masked with the first subkey, an
      incomplete one padded and masked with the second. */
  function LastBlock(c: BlockCipher, last: seq<Octet>): Block
    requires |last| <= 16
  {
    if |last| == 16 then Xor(last, Subkey1(c)) else Xor(last + Pad(OneAndZeros, 16 - |last|), Subkey2(c))
  }

  /** The chain over the whole blocks of s, from the zero block. */
  function Mac(c: BlockCipher, s: seq<Octet>): Block {
    NextIv(c, Encrypt, ZERO, s)
  }

  /** The tag of section 6.2. */
  function Cmac(c: BlockCipher, message: seq<Octet>): Block {
    var k := Body(|message|);
    c.encrypt(Xor(LastBlock(c, message[k..]), Mac(c, message[..k])))
  }

  /** Octet i of the shifted string. */
  lemma {:induction false} ShiftedAt(s: seq<Octet>, carry: Octet, i: nat)
    requires i < |s|
    ensures ShiftLeft(s, carry)[i] == Shifted(s[i], if i + 1 < |s| then High(s[i + 1]) else carry)
  {
    hide High, Shifted;
    var n := |s| - 1;
    if i < n {
      ShiftedAt(s[..n], High(s[n]), i);
    }
  }

  lemma ShiftFour(a: Octet, b: Octet, c: Octet, d: Octet, carry: Octet)
    ensures ShiftLeft([a, b, c, d], carry) == [Shifted(a, High(b)), Shifted(b, High(c)), Shifted(c, High(d)), Shifted(d, carry)]
  {
    hide High, Shifted, ShiftLeft;
    var s := [a, b, c, d];
    ShiftedAt(s, carry, 0);
    ShiftedAt(s, carry, 1);
    ShiftedAt(s, carry, 2);
    ShiftedAt(s, carry, 3);
  }

  lemma ShiftParts(s: seq<Octet>, t: seq<Octet>, carry: Octet)
    requires t != []
    ensures ShiftLeft(s + t, carry) == ShiftLeft(s, High(t[0])) + ShiftLeft(t, carry)
  {
    hide High, Shifted, ShiftLeft;
    var u := ShiftLeft(s, High(t[0])) + ShiftLeft(t, carry);
    forall i | 0 <= i < |s + t| ensures ShiftLeft(s + t, carry)[i] == u[i] {
      ShiftedAt(s + t, carry, i);
      if i < |s| { ShiftedAt(s, High(t[0]), i); } else { ShiftedAt(t, carry, i - |s|); }
    }
  }

  lemma FirstShift()
    ensures High(0x7D) == 0
    ensures Shifted(0x7D, High(0xF7)) == 0xFB && Shifted(0xF7, High(0x6B)) == 0xEE && Shifted(0x6B, High(0x0C)) == 0xD6 && Shifted(0x0C, High(0x1A)) == 0x18
    ensures Shifted(0x1A, High(0xB8)) == 0x35 && Shifted(0xB8, High(0x99)) == 0x71 && Shifted(0x99, High(0xB3)) == 0x33 && Shifted(0xB3, High(0x3E)) == 0x66
    ensures Shifted(0x3E, High(0x42)) == 0x7C && Shifted(0x42, High(0xF0)) == 0x85 && Shifted(0xF0, High(0x47)) == 0xE0 && Shifted(0x47, High(0xB9)) == 0x8F
    ensures Shifted(0xB9, High(0x1B)) == 0x72 && Shifted(0x1B, High(0x54)) == 0x36 && Shifted(0x54, High(0x6F)) == 0xA8 && Shifted(0x6F, 0) == 0xDE
  {}

  lemma SecondShift()
    ensures High(0xFB) == 1 && 0xBC as Octet ^ 0x87 == 0x3B
    ensures Shifted(0xFB, High(0xEE)) == 0xF7 && Shifted(0xEE, High(0xD6)) == 0xDD && Shifted(0xD6, High(0x18)) == 0xAC && Shifted(0x18, High(0x35)) == 0x30
    ensures Shifted(0x35, High(0x71)) == 0x6A && Shifted(0x71, High(0x33)) == 0xE2 && Shifted(0x33, High(0x66)) == 0x66 && Shifted(0x66, High(0x7C)) == 0xCC
    ensures Shifted(0x7C, High(0x85)) == 0xF9 && Shifted(0x85, High(0xE0)) == 0x0B && Shifted(0xE0, High(0x8F)) == 0xC1 && Shifted(0x8F, High(0x72)) == 0x1E
    ensures Shifted(0x72, High(0x36)) == 0xE4 && Shifted(0x36, High(0xA8)) == 0x6D && Shifted(0xA8, High(0xDE)) == 0x51 && Shifted(0xDE, 0) == 0xBC
  {}

  /** The subkeys of the example of section 4 of RFC 4493. */
  lemma SubkeyExample(c: BlockCipher)
    requires c.encrypt(ZERO) == [0x7D, 0xF7, 0x6B, 0x0C, 0x1A, 0xB8, 0x99, 0xB3, 0x3E, 0x42, 0xF0, 0x47, 0xB9, 0x1B, 0x54, 0x6F]
    ensures Subkey1(c) == [0xFB, 0xEE, 0xD6, 0x18, 0x35, 0x71, 0x33, 0x66, 0x7C, 0x85, 0xE0, 0x8F, 0x72, 0x36, 0xA8, 0xDE]
    ensures Subkey2(c) == [0xF7, 0xDD, 0xAC, 0x30, 0x6A, 0xE2, 0x66, 0xCC, 0xF9, 0x0B, 0xC1, 0x1E, 0xE4, 0x6D, 0x51, 0x3B]
  {
    hide ShiftLeft, High, Shifted;
    FirstSubkey();
    SecondSubkey();
  }

  lemma ShiftSixteen(a: seq<Octet>, b: seq<Octet>, c: seq<Octet>, d: seq<Octet>, b0: Octet, c0: Octet, d0: Octet,
                     a': seq<Octet>, b': seq<Octet>, c': seq<Octet>, d': seq<Octet>)
    requires b != [] && c != [] && d != [] && b[0] == b0 && c[0] == c0 && d[0] == d0
    requires ShiftLeft(a, High(b0)) == a' && ShiftLeft(b, High(c0)) == b' && ShiftLeft(c, High(d0)) == c' && ShiftLeft(d, 0) == d'
    ensures ShiftLeft(a + b + c + d, 0) == a' + b' + c' + d'
  {
    hide ShiftLeft, High;
    ShiftParts(a + b + c, d, 0);
    ShiftParts(a + b, c, High(d0));
    ShiftParts(a, b, High(c0));
  }

  lemma FirstSubkey()
    ensures ShiftLeft([0x7D, 0xF7, 0x6B, 0x0C, 0x1A, 0xB8, 0x99, 0xB3, 0x3E, 0x42, 0xF0, 0x47, 0xB9, 0x1B, 0x54, 0x6F], 0)
            == [0xFB, 0xEE, 0xD6, 0x18, 0x35, 0x71, 0x33, 0x66, 0x7C, 0x85, 0xE0, 0x8F, 0x72, 0x36, 0xA8, 0xDE]
    ensures High(0x7D) == 0
  {
    hide ShiftLeft, High, Shifted;
    FirstShift();
    var a := [0x7D, 0xF7, 0x6B, 0x0C];
    var b := [0x1A, 0xB8, 0x99, 0xB3];
    var c := [0x3E, 0x42, 0xF0, 0x47];
    var d := [0xB9, 0x1B, 0x54, 0x6F];
    ShiftFour(0x7D, 0xF7, 0x6B, 0x0C, High(0x1A));
    assert ShiftLeft(a, High(0x1A)) == [0xFB, 0xEE, 0xD6, 0x18];
    ShiftFour(0x1A, 0xB8, 0x99, 0xB3, High(0x3E));
    assert ShiftLeft(b, High(0x3E)) == [0x35, 0x71, 0x33, 0x66];
    ShiftFour(0x3E, 0x42, 0xF0, 0x47, High(0xB9));
    assert ShiftLeft(c, High(0xB9)) == [0x7C, 0x85, 0xE0, 0x8F];
    ShiftFour(0xB9, 0x1B, 0x54, 0x6F, 0);
    assert ShiftLeft(d, 0) == [0x72, 0x36, 0xA8, 0xDE];
    ShiftSixteen(a, b, c, d, 0x1A, 0x3E, 0xB9,
                 [0xFB, 0xEE, 0xD6, 0x18], [0x35, 0x71, 0x33, 0x66], [0x7C, 0x85, 0xE0, 0x8F], [0x72, 0x36, 0xA8, 0xDE]);
    assert a + b + c + d
           == [0x7D, 0xF7, 0x6B, 0x0C, 0x1A, 0xB8, 0x99, 0xB3, 0x3E, 0x42, 0xF0, 0x47, 0xB9, 0x1B, 0x54, 0x6F];
    assert [0xFB, 0xEE, 0xD6, 0x18] + [0x35, 0x71, 0x33, 0x66] + [0x7C, 0x85, 0xE0, 0x8F] + [0x72, 0x36, 0xA8, 0xDE]
           == [0xFB, 0xEE, 0xD6, 0x18, 0x35, 0x71, 0x33, 0x66, 0x7C, 0x85, 0xE0, 0x8F, 0x72, 0x36, 0xA8, 0xDE];
  }

  lemma SecondSubkey()
    ensures ShiftLeft([0xFB, 0xEE, 0xD6, 0x18, 0x35, 0x71, 0x33, 0x66, 0x7C, 0x85, 0xE0, 0x8F, 0x72, 0x36, 0xA8, 0xDE], 0)
            == [0xF7, 0xDD, 0xAC, 0x30, 0x6A, 0xE2, 0x66, 0xCC, 0xF9, 0x0B, 0xC1, 0x1E, 0xE4, 0x6D, 0x51, 0xBC]
    ensures High(0xFB) == 1 && 0xBC as Octet ^ 0x87 == 0x3B
  {
    hide ShiftLeft, High, Shifted;
    SecondShift();
    var a := [0xFB, 0xEE, 0xD6, 0x18];
    var b := [0x35, 0x71, 0x33, 0x66];
    var c := [0x7C, 0x85, 0xE0, 0x8F];
    var d := [0x72, 0x36, 0xA8, 0xDE];
    ShiftFour(0xFB, 0xEE, 0xD6, 0x18, High(0x35));
    assert ShiftLeft(a, High(0x35)) == [0xF7, 0xDD, 0xAC, 0x30];
    ShiftFour(0x35, 0x71, 0x33, 0x66, High(0x7C));
    assert ShiftLeft(b, High(0x7C)) == [0x6A, 0xE2, 0x66, 0xCC];
    ShiftFour(0x7C, 0x85, 0xE0, 0x8F, High(0x72));
    assert ShiftLeft(c, High(0x72)) == [0xF9, 0x0B, 0xC1, 0x1E];
    ShiftFour(0x72, 0x36, 0xA8, 0xDE, 0);
    assert ShiftLeft(d, 0) == [0xE4, 0x6D, 0x51, 0xBC];
    ShiftSixteen(a, b, c, d, 0x35, 0x7C, 0x72,
                 [0xF7, 0xDD, 0xAC, 0x30], [0x6A, 0xE2, 0x66, 0xCC], [0xF9, 0x0B, 0xC1, 0x1E], [0xE4, 0x6D, 0x51, 0xBC]);
    assert a + b + c + d
           == [0xFB, 0xEE, 0xD6, 0x18, 0x35, 0x71, 0x33, 0x66, 0x7C, 0x85, 0xE0, 0x8F, 0x72, 0x36, 0xA8, 0xDE];
    assert [0xF7, 0xDD, 0xAC, 0x30] + [0x6A, 0xE2, 0x66, 0xCC] + [0xF9, 0x0B, 0xC1, 0x1E] + [0xE4, 0x6D, 0x51, 0xBC]
           == [0xF7, 0xDD, 0xAC, 0x30, 0x6A, 0xE2, 0x66, 0xCC, 0xF9, 0x0B, 0xC1, 0x1E, 0xE4, 0x6D, 0x51, 0xBC];
  }

  /** No octet at all, and exactly one block. */
  lemma ShortMessages(c: BlockCipher, x: Block)
    ensures Cmac(c, []) == c.encrypt(Xor([0x80, 0, 0, 0, 0, 0, 0, 0, 0, 0, 0, 0, 0, 0, 0, 0], Subkey2(c)))
    ensures Cmac(c, x) == c.encrypt(Xor(x, Subkey1(c)))
  {
    hide Subkey1, Subkey2;
    MacNothing(c);
    var e: Block := [0x80, 0, 0, 0, 0, 0, 0, 0, 0, 0, 0, 0, 0, 0, 0, 0];
    assert [] + Pad(OneAndZeros, 16) == e;
    ZeroMask(Xor(e, Subkey2(c)));
    ZeroMask(Xor(x, Subkey1(c)));
    assert x[0..] == x && x[..0] == [];
    var none: seq<Octet> := [];
    assert none[0..] == none && none[..0] == none;
  }

  lemma MacNothing(c: BlockCipher)
    ensures Mac(c, []) == ZERO
  {}

  lemma ZeroMask(x: Block)
    ensures Xor(x, ZERO) == x
  {
    forall i | 0 <= i < 16 ensures Xor(x, ZERO)[i] == x[i] {
      ZeroMaskOctet(x[i]);
    }
  }

  lemma ZeroMaskOctet(b: Octet)
    ensures b ^ 0 == b
  {}

  lemma MacNext(c: BlockCipher, s: seq<Octet>, x: Block)
    requires |s| % 16 == 0
    ensures Mac(c, s + x) == c.encrypt(Xor(x, Mac(c, s)))
  {
    ChainSplit(c, Encrypt, ZERO, s, x);
    assert x[16..] == [];
    assert Head(x) == x;
    assert NextIv(c, Encrypt, Mac(c, s), x) == Link(c, Encrypt, Mac(c, s), x).1;
  }

  /** The block at d, in two parts. */
  lemma BlockParts(all: seq<Octet>, d: nat, len: nat)
    requires len <= 16 && d + 16 <= |all|
    ensures all[d + len..][..16 - len] == all[d + len..d + 16] && all[d + len..][16 - len..] == all[d + 16..]
    ensures all[d..d + len] + all[d + len..d + 16] == all[d..d + 16] && all[..d] + all[d..d + 16] == all[..d + 16]
  {}

  class CmacContext {
    const cipher: BlockCipher
    const state: array<Octet>
    const block: array<Octet>
    var len: nat
    ghost var message: seq<Octet>

    /** All but the last block of the message so far is in the chain, the rest is held back. */
    ghost predicate Valid()
      reads this, state, block
    {
      state.Length == 16 && block.Length == 16 && state != block && len <= 16
      && var k := Body(|message|);
         len == |message| - k && state[..] == Mac(cipher, message[..k]) && block[..len] == message[k..]
    }

    /** mbedtls_cipher_cmac_starts, once the key is set. */
    constructor (cipher: BlockCipher)
      ensures Valid() && message == [] && this.cipher == cipher && fresh(state) && fresh(block)
    {
      this.cipher := cipher;
      state := new Octet[16](_ => 0);
      block := new Octet[16];
      len := 0;
      message := [];
      new;
      assert state[..] == ZERO;
    }

    /** cmac_xor_block and the block cipher: one block into the chain. */
    method Absorb(ghost s: seq<Octet>, input: array<Octet>, pos: nat)
      requires state.Length == 16 && input != state && pos + 16 <= input.Length
      requires |s| % 16 == 0 && state[..] == Mac(cipher, s)
      modifies state
      ensures state[..] == Mac(cipher, s + input[pos..pos + 16])
    {
      hide Xor, Mac;
      MacNext(cipher, s, input[pos..pos + 16]);
      MaskBlock(state, input, pos, state[..]);
      SetBlock(state, cipher.encrypt(state[..]));
    }

    /** memcpy behind the octets held back. */
    method Keep(input: array<Octet>, pos: nat, n: nat)
      requires block.Length == 16 && len + n <= 16 && pos + n <= input.Length && input != block
      modifies block
      ensures block[..len + n] == old(block[..len]) + input[pos..pos + n]
    {
      StoreNext(block, len, input[pos..pos + n]);
    }
 
    /** Progress of an update: octets [d, d + len) of the whole message are held back, the ones
        from `pos` on are still in the input. */
    ghost predicate Partway(all: seq<Octet>, d: nat, input: array<Octet>, pos: nat, left: nat)
      reads this, state, block, input
    {
      state.Length == 16 && block.Length == 16 && state != block && input != state && input != block && len <= 16
      && pos + left <= input.Length && d % 16 == 0 && d + len + left == |all| && (|all| > 0 ==> len + left > 0)
      && state[..] == Mac(cipher, all[..d])
      && block[..len] == all[d..d + len] && input[pos..pos + left] == all[d + len..]
    }

    /** The held-back block, once complete and followed by more, goes into the chain. */
    method Complete(ghost all: seq<Octet>, ghost d: nat, input: array<Octet>, pos: nat, left: nat)
      requires Partway(all, d, input, pos, left) && left > 16 - len
      modifies this`len, state, block
      ensures Partway(all, d + 16, input, pos + (16 - old(len)), left - (16 - old(len))) && len == 0
    {
      hide Mac;
      var n := 16 - len;
      ghost var x := all[d..d + 16];
      Keep(input, pos, n);
      SliceOfSlice(input[..], pos, pos + left, 0, n);
      SliceOfSlice(input[..], pos, pos + left, n, left);
      BlockParts(all, d, len);
      assert block[0..16] == x;
      Absorb(all[..d], block, 0);
      len := 0;
    }

    /** A block straight from the input. */
    method Direct(ghost all: seq<Octet>, ghost d: nat, input: array<Octet>, pos: nat, left: nat)
      requires Partway(all, d, input, pos, left) && len == 0 && left > 16
      modifies state
      ensures Partway(all, d + 16, input, pos + 16, left - 16)
    {
      hide Mac;
      SliceOfSlice(input[..], pos, pos + left, 0, 16);
      SliceOfSlice(input[..], pos, pos + left, 16, left);
      assert all[d..][..16] == all[d..d + 16];
      Absorb(all[..d], input, pos);
      assert all[..d] + all[d..d + 16] == all[..d + 16];
    }

    /** Whole blocks straight from the input, excluding a final partial or complete one. */
    method DirectBlocks(ghost all: seq<Octet>, ghost d: nat, input: array<Octet>, pos: nat, left: nat)
      returns (ghost d': nat, pos': nat, left': nat)
      requires Partway(all, d, input, pos, left) && (len > 0 ==> left <= 16 - len)
      modifies state
      ensures Partway(all, d', input, pos', left') && len + left' <= 16
    {
      hide Partway;
      d', pos', left' := d, pos, left;
      var n := (left + 15) / 16;
      assert len <= 16 by { Bounded(all, d, input, pos, left); }
      var j := 1;
      while j < n
        invariant Partway(all, d', input, pos', left') && (n > 0 ==> j <= n)
        invariant n - j + 1 == (left' + 15) / 16 && (n > 1 ==> len == 0) && (j == 1 ==> left' == left)
        modifies state
      {
        Direct(all, d', input, pos', left');
        pos', left', d' := pos' + 16, left' - 16, d' + 16;
        j := j + 1;
      }
    }

    lemma Bounded(all: seq<Octet>, d: nat, input: array<Octet>, pos: nat, left: nat)
      requires Partway(all, d, input, pos, left)
      ensures len <= 16
    {}

    /** mbedtls_cipher_cmac_update. */
    method Update(input: array<Octet>, ilen: nat)
      requires Valid() && ilen <= input.Length && input != state && input != block
      modifies this, state, block
      ensures Valid() && message == old(message) + input[..ilen]
    {
      hide Partway, Mac;
      ghost var all, d := message + input[..ilen], Body(|message|);
      Begin(input, ilen);
      var pos: nat, left: nat := 0, ilen;
      if len > 0 && left > 16 - len {
        var n := 16 - len;
        Complete(all, d, input, pos, left);
        pos, left, d := n, left - n, d + 16;
      }
      d, pos, left := DirectBlocks(all, d, input, pos, left);
      End(all, d, input, pos, left);
    }

    lemma Begin(input: array<Octet>, ilen: nat)
      requires Valid() && ilen <= input.Length && input != state && input != block
      ensures Partway(message + input[..ilen], Body(|message|), input, 0, ilen)
    {
      hide Mac;
      var all, d := message + input[..ilen], Body(|message|);
      assert all[..d] == message[..d] && all[d..d + len] == message[d..] && all[d + len..] == input[..ilen];
    }

    /** What remains is held back. */
    method End(ghost all: seq<Octet>, ghost d: nat, input: array<Octet>, pos: nat, left: nat)
      requires Partway(all, d, input, pos, left) && len + left <= 16
      modifies this, block
      ensures Valid() && message == all
    {
      hide Mac;
      if left > 0 {
        Keep(input, pos, left);
        assert all[d..d + len] + all[d + len..] == all[d..];
        len := len + left;
      }
      assert Body(|all|) == d;
      message := all;
    }

    /** cmac_generate_subkeys. */
    method GenerateSubkeys(k1: array<Octet>, k2: array<Octet>)
      requires k1.Length == 16 && k2.Length == 16 && k1 != k2
      modifies k1, k2
      ensures k1[..] == Subkey1(cipher) && k2[..] == Subkey2(cipher)
    {
      hide TimesU;
      var l := new Octet[16];
      SetBlock(l, cipher.encrypt(ZERO));
      var _ := MultiplyByU(k1, l, 16);
      var _ := MultiplyByU(k2, k1, 16);
    }

    /** The masked last block. */
    method MaskLast(last: array<Octet>, k1: array<Octet>, k2: array<Octet>)
      requires block.Length == 16 && len <= 16 && last.Length == 16 && k1.Length == 16 && k2.Length == 16
      requires k1[..] == Subkey1(cipher) && k2[..] == Subkey2(cipher)
      requires last != block && last != k1 && last != k2
      modifies last
      ensures last[..] == LastBlock(cipher, block[..len])
    {
      hide Pad, Xor, Subkey1, Subkey2;
      if len < 16 {
        StoreNext(last, 0, block[..len]);
        assert last[..len] == block[..len];
        AddPadding(OneAndZeros, last, len);
        MaskSelf(last, k2[..]);
      } else {
        assert block[0..16] == block[..len];
        MaskBlock(last, block, 0, k1[..]);
      }
    }

    /** mbedtls_cipher_cmac_finish: the tag of everything absorbed since the start or the last
        finish; the context is ready for the next message. */
    method Finish(output: array<Octet>)
      requires Valid() && output.Length >= 16 && output != state && output != block
      modifies this, state, block, output
      ensures output[..16] == Cmac(cipher, old(message)) && output[16..] == old(output[16..])
      ensures Valid() && message == []
    {
      hide Subkey1, Subkey2, Xor, LastBlock;
      var k1, k2, last := new Octet[16], new Octet[16], new Octet[16];
      GenerateSubkeys(k1, k2);
      MaskLast(last, k1, k2);
      assert last[0..16] == last[..];
      MaskBlock(state, last, 0, state[..]);
      SetBlock(state, cipher.encrypt(state[..]));
      Store(output, 0, state[..]);
      len := 0;
      message := [];
      SetBlock(block, ZERO);
      SetBlock(state, ZERO);
      assert message[..0] == [];
    }
  }
}
