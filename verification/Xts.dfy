/** Multiplication by x in GF(2^128) on two 64-bit words. */
module DoublingWords {
  function Join(b: bv64, a: bv64): bv128 {
    ((b as bv128) << 64) | (a as bv128)
  }

  /** Multiplication by x modulo x^128 + x^7 + x^2 + x + 1; bit j is the coefficient of x^j. */
  function TimesX(v: bv128): bv128 {
    if v & (1 << 127) != 0 then (v << 1) ^ 0x87 else v << 1
  }

  /** The feedback constant, shifted away entirely when the top bit is clear. */
  function Feedback(b: bv64): bv64 {
    0x0087 >> (8 - ((b >> 63) << 3))
  }

  function DoubleLow(a: bv64, b: bv64): bv64 {
    (a << 1) ^ Feedback(b)
  }

  function DoubleHigh(a: bv64, b: bv64): bv64 {
    (a >> 63) | (b << 1)
  }

  lemma FeedbackValue(b: bv64)
    ensures Feedback(b) == if b >> 63 == 1 then 0x87 else 0
  {
    if b >> 63 == 1 {
      assert 8 - ((b >> 63) << 3) == 0;
    } else {
      assert b >> 63 == 0;
    }
  }

  lemma DoubleOdd(a: bv64, b: bv64)
    requires b >> 63 == 1
    ensures Join((a >> 63) | (b << 1), (a << 1) ^ 0x87) == TimesX(Join(b, a))
  {}

  lemma DoubleEven(a: bv64, b: bv64)
    requires b >> 63 != 1
    ensures Join((a >> 63) | (b << 1), (a << 1) ^ 0) == TimesX(Join(b, a))
  {}

  /** The two-word computation is multiplication by x in the field. */
  lemma DoubleWords(a: bv64, b: bv64)
    ensures Join(DoubleHigh(a, b), DoubleLow(a, b)) == TimesX(Join(b, a))
  {
    FeedbackValue(b);
    if b >> 63 == 1 {
      DoubleOdd(a, b);
    } else {
      DoubleEven(a, b);
    }
  }
}

/** XTS (IEEE Std 1619-2007) as mbedtls_aes_crypt_xts computes it: tweak doubling on two 64-bit
    words, ciphertext stealing, the swapped tweak order of decryption, in-place operation. */
module Xts {
  import opened Octets
  import opened DoublingWords

  const ERR_INVALID_INPUT_LENGTH := -0x0022
  const MAX_LENGTH := 0x100000 * 16

  // ----- doubling in GF(2^128) -----

  function GetWord(x: seq<Octet>, i: nat): bv64
    requires i + 8 <= |x|
  {
    ((x[i + 7] as bv64) << 56) | ((x[i + 6] as bv64) << 48) | ((x[i + 5] as bv64) << 40)
    | ((x[i + 4] as bv64) << 32) | ((x[i + 3] as bv64) << 24) | ((x[i + 2] as bv64) << 16)
    | ((x[i + 1] as bv64) << 8) | (x[i] as bv64)
  }

  function Low(n: bv64): Octet {
    (n & 0xff) as Octet
  }

  function PutWord(n: bv64): (r: seq<Octet>)
    ensures |r| == 8
  {
    [Low(n), Low(n >> 8), Low(n >> 16), Low(n >> 24), Low(n >> 32), Low(n >> 40), Low(n >> 48), Low(n >> 56)]
  }

  /** The block as a polynomial over GF(2): bit j is the coefficient of x^j. */
  function Element(x: Block): bv128 {
    Join(GetWord(x, 8), GetWord(x, 0))
  }

  function DoubleBlock(x: Block): Block {
    var a, b := GetWord(x, 0), GetWord(x, 8);
    PutWord(DoubleLow(a, b)) + PutWord(DoubleHigh(a, b))
  }

  lemma GetPut(u: bv64, v: bv64)
    ensures GetWord(PutWord(u) + PutWord(v), 0) == u && GetWord(PutWord(u) + PutWord(v), 8) == v
  {
    GetPutWord(u);
    GetPutWord(v);
    WordAt(PutWord(u), PutWord(v));
  }

  lemma GetPutWord(n: bv64)
    ensures GetWord(PutWord(n), 0) == n
  {}

  lemma WordAt(u: seq<Octet>, v: seq<Octet>)
    requires |u| == 8 && |v| == 8
    ensures GetWord(u + v, 0) == GetWord(u, 0) && GetWord(u + v, 8) == GetWord(v, 0)
  {}

  /** The word arithmetic is multiplication by x in the field of the standard. */
  lemma DoubleIsTimesX(x: Block)
    ensures Element(DoubleBlock(x)) == TimesX(Element(x))
  {
    hide GetWord, PutWord, Join, TimesX, DoubleLow, DoubleHigh;
    var a, b := GetWord(x, 0), GetWord(x, 8);
    GetPut(DoubleLow(a, b), DoubleHigh(a, b));
    DoubleWords(a, b);
  }

  // ----- the mode -----

  /** The tweak of block j: the encrypted data unit number times x^j. */
  function Tweak(t: Block, j: nat): Block {
    if j == 0 then t else DoubleBlock(Tweak(t, j - 1))
  }

  /** v times x^j. */
  function TimesPower(v: bv128, j: nat): bv128 {
    if j == 0 then v else TimesX(TimesPower(v, j - 1))
  }

  lemma {:induction false} TweakIsPower(t: Block, j: nat)
    ensures Element(Tweak(t, j)) == TimesPower(Element(t), j)
  {
    hide Element, TimesX, DoubleBlock;
    if j > 0 {
      TweakIsPower(t, j - 1);
      DoubleIsTimesX(Tweak(t, j - 1));
    }
  }

  /** Multiplication by x leaves only zero in its place, and only zero becomes zero. */
  lemma TimesXMoves(v: bv128)
    requires TimesX(v) == v
    ensures v == 0
  {}

  lemma TimesXZero(v: bv128)
    ensures TimesX(v) == 0 <==> v == 0
  {}

  lemma ElementTells(x: Block, y: Block)
    requires Element(x) == Element(y)
    ensures x == y
  {
    hide GetWord;
    JoinTells(GetWord(x, 8), GetWord(x, 0), GetWord(y, 8), GetWord(y, 0));
    WordTells(x, y, 0);
    WordTells(x, y, 8);
    assert x == x[0..8] + x[8..16] && y == y[0..8] + y[8..16];
  }

  lemma JoinTells(a: bv64, b: bv64, c: bv64, d: bv64)
    requires Join(a, b) == Join(c, d)
    ensures a == c && b == d
  {}

  lemma WordTells(x: seq<Octet>, y: seq<Octet>, i: nat)
    requires i + 8 <= |x| && i + 8 <= |y| && GetWord(x, i) == GetWord(y, i)
    ensures x[i..i + 8] == y[i..i + 8]
  {
    hide GetWord, Packed;
    EightOctets(x, i);
    EightOctets(y, i);
    WordPacked(x, i);
    WordPacked(y, i);
    PackedTells(x[i], x[i + 1], x[i + 2], x[i + 3], x[i + 4], x[i + 5], x[i + 6], x[i + 7],
                y[i], y[i + 1], y[i + 2], y[i + 3], y[i + 4], y[i + 5], y[i + 6], y[i + 7]);
  }

  function Packed(a: Octet, b: Octet, c: Octet, d: Octet, e: Octet, f: Octet, g: Octet, h: Octet): bv64 {
    ((h as bv64) << 56) | ((g as bv64) << 48) | ((f as bv64) << 40) | ((e as bv64) << 32)
    | ((d as bv64) << 24) | ((c as bv64) << 16) | ((b as bv64) << 8) | (a as bv64)
  }

  lemma WordPacked(x: seq<Octet>, i: nat)
    requires i + 8 <= |x|
    ensures GetWord(x, i) == Packed(x[i], x[i + 1], x[i + 2], x[i + 3], x[i + 4], x[i + 5], x[i + 6], x[i + 7])
  {}

  lemma EightOctets(x: seq<Octet>, i: nat)
    requires i + 8 <= |x|
    ensures x[i..i + 8] == [x[i], x[i + 1], x[i + 2], x[i + 3], x[i + 4], x[i + 5], x[i + 6], x[i + 7]]
  {}

  lemma PackedTells(a: Octet, b: Octet, c: Octet, d: Octet, e: Octet, f: Octet, g: Octet, h: Octet,
                    a': Octet, b': Octet, c': Octet, d': Octet, e': Octet, f': Octet, g': Octet, h': Octet)
    requires Packed(a, b, c, d, e, f, g, h) == Packed(a', b', c', d', e', f', g', h')
    ensures a == a' && b == b' && c == c' && d == d' && e == e' && f == f' && g == g' && h == h'
  {}

  /** Neighbouring blocks have different tweaks unless the tweak is zero. */
  lemma {:induction false} TweaksDiffer(t: Block, j: nat)
    ensures Tweak(t, j + 1) == Tweak(t, j) <==> Element(t) == 0
  {
    hide Element, TimesX, DoubleBlock;
    var v := TimesPower(Element(t), j);
    TweakIsPower(t, j);
    TweakIsPower(t, j + 1);
    PowerZero(Element(t), j);
    TimesXZero(v);
    if TimesX(v) == v { TimesXMoves(v); }
    if v == 0 { ElementTells(Tweak(t, j + 1), Tweak(t, j)); }
  }

  lemma {:induction false} PowerZero(v: bv128, j: nat)
    ensures TimesPower(v, j) == 0 <==> v == 0
  {
    hide TimesX;
    if j > 0 {
      PowerZero(v, j - 1);
      TimesXZero(TimesPower(v, j - 1));
    }
  }

  /** One block between its two tweak additions (section 5.3.1). */
  function Masked(f: Block -> Block, t: Block, x: Block): Block {
    Xor(f(Xor(x, t)), t)
  }

  function BlockAt(s: seq<Octet>, j: nat): Block
    requires 16 * j + 16 <= |s|
  {
    s[16 * j..16 * j + 16]
  }

  /** The first n whole blocks, block j under tweak j. */
  function WholeBlocks(f: Block -> Block, t: Block, s: seq<Octet>, n: nat): (r: seq<Octet>)
    requires 16 * n <= |s|
    ensures |r| == 16 * n
  {
    if n == 0 then [] else WholeBlocks(f, t, s, n - 1) + Masked(f, Tweak(t, n - 1), BlockAt(s, n - 1))
  }

  /** The last whole block and the partial block after it (sections 5.3.2 and 5.4.2): the whole
      block is processed under tweak `first`, its leading octets become the short block, the
      rest is appended to the octets left over and processed under tweak `second`. */
  function Steal(f: Block -> Block, first: Block, second: Block, x: Block, rest: seq<Octet>): (r: seq<Octet>)
    requires |rest| < 16
    ensures |r| == 16 + |rest|
  {
    var cc := Masked(f, first, x);
    Masked(f, second, rest + cc[|rest|..]) + cc[..|rest|]
  }

  /** XTS of a data unit of at least one block. Encryption steals under tweaks m-1, m;
      decryption under m, m-1. */
  function Xts(c: BlockCipher, mode: Mode, t: Block, s: seq<Octet>): (r: seq<Octet>)
    requires |s| >= 16
    ensures |r| == |s|
  {
    var m := |s| / 16;
    if |s| % 16 == 0 then WholeBlocks(Ecb(c, mode), t, s, m)
    else
      var swap := mode == Decrypt;
      WholeBlocks(Ecb(c, mode), t, s, m - 1)
      + Steal(Ecb(c, mode), Tweak(t, if swap then m else m - 1), Tweak(t, if swap then m - 1 else m),
              BlockAt(s, m - 1), s[16 * m..])
  }

  /** What is left in the buffer when input and output are the same one: by the time the leftover
      octets are read they have been overwritten with the head of the block before them. */
  function InPlaceInput(c: BlockCipher, mode: Mode, t: Block, s: seq<Octet>): (r: seq<Octet>)
    requires |s| >= 16
    ensures |r| == |s|
  {
    var m, b := |s| / 16, |s| % 16;
    if b == 0 then s
    else s[..16 * m] + Masked(Ecb(c, mode), Tweak(t, if mode == Decrypt then m else m - 1), BlockAt(s, m - 1))[..b]
  }

  // ----- decryption undoes encryption -----

  lemma MaskedInverse(f: Block -> Block, g: Block -> Block, t: Block, x: Block)
    requires Inverse(f, g)
    ensures Masked(g, t, Masked(f, t, x)) == x
  {
    var y: Block := Xor(x, t);
    XorTwice(f(y), t);
    XorTwice(x, t);
    assert g(f(y)) == y;
  }

  lemma {:induction false} WholeBlocksPrefix(f: Block -> Block, t: Block, s: seq<Octet>, u: seq<Octet>, n: nat)
    requires 16 * n <= |s| && 16 * n <= |u| && s[..16 * n] == u[..16 * n]
    ensures WholeBlocks(f, t, s, n) == WholeBlocks(f, t, u, n)
  {
    hide DoubleBlock, Masked;
    if n > 0 {
      assert s[..16 * (n - 1)] == s[..16 * n][..16 * (n - 1)] == u[..16 * (n - 1)];
      assert BlockAt(s, n - 1) == s[..16 * n][16 * (n - 1)..] == BlockAt(u, n - 1);
      WholeBlocksPrefix(f, t, s, u, n - 1);
    }
  }

  lemma {:induction false} WholeBlocksInverse(f: Block -> Block, g: Block -> Block, t: Block, s: seq<Octet>, n: nat)
    requires 16 * n <= |s| && Inverse(f, g)
    ensures WholeBlocks(g, t, WholeBlocks(f, t, s, n), n) == s[..16 * n]
  {
    hide DoubleBlock, Masked;
    if n > 0 {
      var before, last := WholeBlocks(f, t, s, n - 1), Masked(f, Tweak(t, n - 1), BlockAt(s, n - 1));
      var all := before + last;
      assert all[..16 * (n - 1)] == before && BlockAt(all, n - 1) == last;
      WholeBlocksPrefix(g, t, all, before, n - 1);
      WholeBlocksInverse(f, g, t, s, n - 1);
      MaskedInverse(f, g, Tweak(t, n - 1), BlockAt(s, n - 1));
      assert s[..16 * n] == s[..16 * (n - 1)] + BlockAt(s, n - 1);
    }
  }

  /** Stealing with the tweaks exchanged undoes stealing. */
  lemma StealInverse(f: Block -> Block, g: Block -> Block, first: Block, second: Block, x: Block, rest: seq<Octet>)
    requires |rest| < 16 && Inverse(f, g)
    ensures var y := Steal(f, first, second, x, rest);
            Steal(g, second, first, y[..16], y[16..]) == x + rest
  {
    var b := |rest|;
    var cc := Masked(f, first, x);
    var last := Masked(f, second, rest + cc[b..]);
    var y := Steal(f, first, second, x, rest);
    assert y[..16] == last && y[16..] == cc[..b];
    MaskedInverse(f, g, second, rest + cc[b..]);
    assert cc[..b] + Masked(g, second, last)[b..] == cc;
    MaskedInverse(f, g, first, x);
    assert Masked(g, second, last)[..b] == rest;
  }

  /** Round trip for every length, in both orders: processing in the opposite mode restores the
      data unit although the two modes use the last two tweaks in opposite order. */
  lemma RoundTrip(c: BlockCipher, mode: Mode, t: Block, s: seq<Octet>)
    requires Permutation(c) && |s| >= 16
    ensures Xts(c, Opposite(mode), t, Xts(c, mode, t, s)) == s
  {
    hide DoubleBlock, Masked, Tweak, Steal, WholeBlocks;
    var m := |s| / 16;
    var f, g := Ecb(c, mode), Ecb(c, Opposite(mode));
    assert Inverse(f, g);
    var y := Xts(c, mode, t, s);
    if |s| % 16 == 0 {
      WholeBlocksInverse(f, g, t, s, m);
    } else {
      var swap := mode == Decrypt;
      var first, second := Tweak(t, if swap then m else m - 1), Tweak(t, if swap then m - 1 else m);
      var head, end := WholeBlocks(f, t, s, m - 1), Steal(f, first, second, BlockAt(s, m - 1), s[16 * m..]);
      assert y == head + end;
      assert y[..16 * (m - 1)] == head;
      assert BlockAt(y, m - 1) == end[..16] && y[16 * m..] == end[16..];
      WholeBlocksPrefix(g, t, y, head, m - 1);
      WholeBlocksInverse(f, g, t, s, m - 1);
      StealInverse(f, g, first, second, BlockAt(s, m - 1), s[16 * m..]);
      assert s == s[..16 * (m - 1)] + (BlockAt(s, m - 1) + s[16 * m..]);
    }
  }

  /** Working in place gives the standard's result for a data unit exactly if its leftover octets
      happen to equal the ones that overwrite them. */
  lemma InPlaceCorrect(c: BlockCipher, mode: Mode, t: Block, s: seq<Octet>)
    requires Permutation(c) && |s| >= 16
    ensures Xts(c, mode, t, InPlaceInput(c, mode, t, s)) == Xts(c, mode, t, s) <==> InPlaceInput(c, mode, t, s) == s
  {
    hide Xts, InPlaceInput;
    RoundTrip(c, mode, t, s);
    RoundTrip(c, mode, t, InPlaceInput(c, mode, t, s));
  }

  /** By length: working in place is right for every data unit of a length exactly if the length is
      a whole number of blocks. */
  lemma InPlaceByLength(c: BlockCipher, mode: Mode, t: Block, length: nat)
    requires Permutation(c) && length >= 16
    ensures (forall s: seq<Octet> :: |s| == length ==> Xts(c, mode, t, InPlaceInput(c, mode, t, s)) == Xts(c, mode, t, s))
            <==> length % 16 == 0
  {
    hide Xts;
    if length % 16 == 0 {
      forall s: seq<Octet> | |s| == length ensures Xts(c, mode, t, InPlaceInput(c, mode, t, s)) == Xts(c, mode, t, s) {
        NotAliased(c, mode, t, s);
      }
    } else {
      var s, u := InPlaceWitness(c, mode, t, length);
      InPlaceCorrect(c, mode, t, s);
      InPlaceCorrect(c, mode, t, u);
    }
  }

  /** Two data units that differ only in an octet that is overwritten before it is read. */
  lemma InPlaceWitness(c: BlockCipher, mode: Mode, t: Block, length: nat) returns (s: seq<Octet>, u: seq<Octet>)
    requires length >= 16 && length % 16 != 0
    ensures |s| == |u| == length && s != u && InPlaceInput(c, mode, t, s) == InPlaceInput(c, mode, t, u)
  {
    hide Masked, Tweak;
    var m := length / 16;
    s := seq(length, _ => 0);
    u := s[16 * m := 1];
    assert s[16 * m] == 0 && u[16 * m] == 1;
    assert s[..16 * m] == u[..16 * m];
    assert BlockAt(s, m - 1) == BlockAt(u, m - 1);
  }

  // ----- the procedure -----

  /** mbedtls_gf128mul_x_ble with both arguments the same buffer. */
  method DoubleInPlace(x: array<Octet>)
    requires x.Length == 16
    modifies x
    ensures x[..] == DoubleBlock(old(x[..]))
  {
    hide GetWord, PutWord, DoubleLow, DoubleHigh;
    var a, b := GetWord(x[..], 0), GetWord(x[..], 8);
    Store(x, 0, PutWord(DoubleLow(a, b)) + PutWord(DoubleHigh(a, b)));
  }

  /** The body of the block loop: mask, cipher, mask, through a scratch block. */
  method MaskedInto(f: Block -> Block, tweak: array<Octet>, src: array<Octet>, s: nat, dst: array<Octet>, d: nat, tmp: array<Octet>)
    requires tweak.Length == 16 && tmp.Length == 16 && s + 16 <= src.Length && d + 16 <= dst.Length
    requires tmp != tweak && tmp != src && tmp != dst && tweak != dst
    modifies tmp, dst
    ensures dst[..] == Splice(old(dst[..]), d, Masked(f, tweak[..], old(src[s..s + 16])))
  {
    hide Xor, Splice;
    MaskBlock(tmp, src, s, tweak[..]);
    SetBlock(tmp, f(tmp[..]));
    assert tmp[0..16] == tmp[..];
    XorInto(dst, d, tmp, 0, 16, tweak[..]);
  }

  /** The leftover octets at pos: they receive the head of the block before them, while the
      scratch block collects their masked input and the masked rest of that block. */
  method Gather(tweak: array<Octet>, tmp: array<Octet>, leftover: nat, input: array<Octet>, output: array<Octet>, pos: nat)
    requires 0 < leftover < 16 <= pos && pos + leftover <= input.Length && pos + leftover <= output.Length
    requires tweak.Length == 16 && tmp.Length == 16 && tmp != tweak && tmp != input && tmp != output && tweak != output
    modifies tmp, output
    ensures var cc, rest := old(output[pos - 16..pos]), old(input[pos..pos + leftover]);
            output[..] == Splice(old(output[..]), pos, cc[..leftover])
            && tmp[..] == Xor((if input == output then cc[..leftover] else rest) + cc[leftover..], tweak[..])
  {
    hide Xor, Splice;
    var cc := output[pos - 16..pos];
    ghost var was, out := tmp[..], output[..];
    Store(output, pos, cc[..leftover]);
    SpliceReads(out, pos, cc[..leftover], pos - 16 + leftover);
    assert output[pos - 16 + leftover..pos] == cc[leftover..];
    ghost var src := input[pos..pos + leftover];
    XorInto(tmp, 0, input, pos, leftover, tweak[..]);
    XorInto(tmp, leftover, output, pos - 16 + leftover, 16 - leftover, tweak[leftover..]);
    MaskParts(was, src, cc[leftover..], tweak[..]);
  }

  /** Ciphertext stealing: the block before the leftover octets gives up its head to them and
      absorbs their input. */
  method StealInto(f: Block -> Block, tweak: array<Octet>, tmp: array<Octet>, leftover: nat,
                   input: array<Octet>, output: array<Octet>, pos: nat)
    requires 0 < leftover < 16 <= pos && pos + leftover <= input.Length && pos + leftover <= output.Length
    requires tweak.Length == 16 && tmp.Length == 16 && tmp != tweak && tmp != input && tmp != output && tweak != output
    modifies tmp, output
    ensures var cc, rest := old(output[pos - 16..pos]), old(input[pos..pos + leftover]);
            output[..] == Splice(old(output[..]), pos - 16,
              Masked(f, tweak[..], (if input == output then cc[..leftover] else rest) + cc[leftover..]) + cc[..leftover])
  {
    hide Xor, Splice;
    ghost var cc, rest := output[pos - 16..pos], input[pos..pos + leftover];
    ghost var absorbed := if input == output then cc[..leftover] else rest;
    assert |absorbed| == leftover && |cc[leftover..]| == 16 - leftover;
    ghost var y := Joined(absorbed, cc[leftover..]);
    Gather(tweak, tmp, leftover, input, output, pos);
    SetBlock(tmp, f(tmp[..]));
    assert tmp[0..16] == tmp[..];
    XorInto(output, pos - 16, tmp, 0, 16, tweak[..]);
    StealWrites(old(output[..]), pos, cc[..leftover], Masked(f, tweak[..], y));
  }

  lemma StealWrites(was: seq<Octet>, pos: nat, short: seq<Octet>, full: Block)
    requires 16 <= pos && pos + |short| <= |was|
    ensures Splice(Splice(was, pos, short), pos - 16, full) == Splice(was, pos - 16, full + short)
  {}

  /** The first k blocks as the loop produces them: block j under the tweak the loop holds for it. */
  function LoopOutput(c: BlockCipher, mode: Mode, t: Block, s: seq<Octet>, k: nat): (r: seq<Octet>)
    requires 16 * k <= |s|
    ensures |r| == 16 * k
  {
    if k == 0 then [] else LoopHead(c, mode, t, s, k) + LoopBlock(c, mode, t, s, k - 1)
  }

  function LoopHead(c: BlockCipher, mode: Mode, t: Block, s: seq<Octet>, k: nat): (r: seq<Octet>)
    requires 0 < 16 * k <= |s|
    ensures |r| == 16 * k - 16
  {
    WholeBlocks(Ecb(c, mode), t, s, k - 1)
  }

  function LoopBlock(c: BlockCipher, mode: Mode, t: Block, s: seq<Octet>, j: nat): Block
    requires 16 * j + 16 <= |s|
  {
    Masked(Ecb(c, mode), Tweak(t, LoopTweak(mode, |s|, j)), BlockAt(s, j))
  }

  /** Which tweak the loop uses for block j. */
  function LoopTweak(mode: Mode, length: nat, j: nat): nat {
    if length % 16 != 0 && mode == Decrypt && j + 1 == length / 16 then j + 1 else j
  }

  lemma LoopSplit(c: BlockCipher, mode: Mode, t: Block, s: seq<Octet>, k: nat)
    requires 0 < 16 * k <= |s|
    ensures LoopOutput(c, mode, t, s, k) == LoopHead(c, mode, t, s, k) + LoopBlock(c, mode, t, s, k - 1)
  {}

  lemma LoopNext(c: BlockCipher, mode: Mode, t: Block, s: seq<Octet>, k: nat)
    requires 16 * k + 16 <= |s|
    ensures LoopOutput(c, mode, t, s, k + 1) == LoopOutput(c, mode, t, s, k) + LoopBlock(c, mode, t, s, k)
  {
    hide Masked, BlockAt, Tweak;
    if k > 0 {
      assert LoopTweak(mode, |s|, k - 1) == k - 1;
    }
  }

  /** The result for whole blocks only, and the octets the last step puts together otherwise. */
  lemma LoopEnd(c: BlockCipher, mode: Mode, t: Block, s: seq<Octet>)
    requires 16 <= |s| && |s| % 16 == 0
    ensures LoopOutput(c, mode, t, s, |s| / 16) == Xts(c, mode, t, s)
  {
    hide Masked, BlockAt, Tweak;
  }

  /** Without leftover octets, working in place changes nothing. */
  lemma NotAliased(c: BlockCipher, mode: Mode, t: Block, s: seq<Octet>)
    requires 16 <= |s| && |s| % 16 == 0
    ensures InPlaceInput(c, mode, t, s) == s
  {}

  lemma StealEnd(c: BlockCipher, mode: Mode, t: Block, s: seq<Octet>, same: bool)
    requires 16 <= |s| && |s| % 16 != 0
    ensures var m, b := |s| / 16, |s| % 16;
            var cc := LoopBlock(c, mode, t, s, m - 1);
            LoopHead(c, mode, t, s, m)
            + (Masked(Ecb(c, mode), Tweak(t, if mode == Decrypt then m - 1 else m),
                      (if same then cc[..b] else s[16 * m..]) + cc[b..]) + cc[..b])
            == Xts(c, mode, t, if same then InPlaceInput(c, mode, t, s) else s)
  {
    hide Masked, Tweak, WholeBlocks;
    var m, b := |s| / 16, |s| % 16;
    var u := if same then InPlaceInput(c, mode, t, s) else s;
    if same {
      assert u[16 * m..] == LoopBlock(c, mode, t, s, m - 1)[..b];
      assert BlockAt(u, m - 1) == BlockAt(s, m - 1);
      WholeBlocksPrefix(Ecb(c, mode), t, s, u, m - 1);
    }
  }

  /** The last step of a data unit with leftover octets: completes the data unit s. */
  method StealTail(c: BlockCipher, mode: Mode, ghost s: seq<Octet>, ghost t: Block, ghost out: seq<Octet>,
                   tweak: array<Octet>, tmp: array<Octet>, length: nat, input: array<Octet>, output: array<Octet>)
    requires 16 <= length == |s| && length % 16 != 0 && length <= input.Length && length <= output.Length == |out|
    requires tweak.Length == 16 && tmp.Length == 16 && tmp != tweak && tmp != input && tmp != output && tweak != output
    requires tweak[..] == Tweak(t, if mode == Decrypt then length / 16 - 1 else length / 16)
    requires output[..] == Splice(out, 0, LoopOutput(c, mode, t, s, length / 16))
    requires input != output ==> input[..length] == s
    modifies tmp, output
    ensures output[..] == Splice(out, 0, Xts(c, mode, t, if input == output then InPlaceInput(c, mode, t, s) else s))
  {
    hide DoubleBlock, Masked, Tweak, WholeBlocks, LoopOutput, LoopHead, LoopBlock, Splice, Xts, InPlaceInput;
    var m, leftover := length / 16, length % 16;
    var pos := 16 * m;
    ghost var head, cc := LoopHead(c, mode, t, s, m), LoopBlock(c, mode, t, s, m - 1);
    LoopSplit(c, mode, t, s, m);
    SpliceDone(out, head, cc);
    assert input != output ==> input[pos..length] == s[pos..];
    ghost var y: Block := (if input == output then cc[..leftover] else s[pos..]) + cc[leftover..];
    ghost var w := Masked(Ecb(c, mode), tweak[..], y) + cc[..leftover];
    StealInto(Ecb(c, mode), tweak, tmp, leftover, input, output, pos);
    StealEnd(c, mode, t, s, input == output);
    SpliceOver(out, head, cc, w);
  }

  /** One round of the block loop. */
  method LoopInto(c: BlockCipher, mode: Mode, ghost s: seq<Octet>, ghost t: Block, ghost out: seq<Octet>, k: nat,
                  tweak: array<Octet>, tmp: array<Octet>, input: array<Octet>, output: array<Octet>, length: nat)
    requires 16 * k + 16 <= length == |s| && length <= input.Length && length <= output.Length == |out|
    requires tweak.Length == 16 && tmp.Length == 16 && tmp != tweak && tmp != input && tmp != output && tweak != output
    requires tweak[..] == Tweak(t, LoopTweak(mode, length, k))
    requires output[..] == Splice(out, 0, LoopOutput(c, mode, t, s, k))
    requires s == if input == output then out[..length] else input[..length]
    modifies tmp, output
    ensures output[..] == Splice(out, 0, LoopOutput(c, mode, t, s, k + 1))
  {
    hide DoubleBlock, Masked, WholeBlocks, LoopOutput, LoopHead, Splice, Tweak, LoopTweak;
    var pos := 16 * k;
    SpliceRest(out, LoopOutput(c, mode, t, s, k), pos, pos + 16);
    SliceOfPrefix(if input == output then out else input[..], length, pos, pos + 16);
    assert input[pos..pos + 16] == input[..][pos..pos + 16];
    MaskedInto(Ecb(c, mode), tweak, input, pos, output, pos, tmp);
    LoopNext(c, mode, t, s, k);
    SpliceNext(out, LoopOutput(c, mode, t, s, k), LoopBlock(c, mode, t, s, k));
  }

  /** mbedtls_aes_crypt_xts. `c` is the cipher under the data key, `tweakKey` under the tweak
      key; input and output are separate buffers or the same one. */
  method CryptXts(c: BlockCipher, tweakKey: BlockCipher, mode: Mode, length: nat, dataUnit: Block,
                  input: array<Octet>, output: array<Octet>) returns (ret: int)
    requires length <= input.Length && length <= output.Length
    modifies output
    ensures ret == if length < 16 || length > MAX_LENGTH then ERR_INVALID_INPUT_LENGTH else 0
    ensures ret != 0 ==> output[..] == old(output[..])
    ensures ret == 0 ==>
      var s, t := old(input[..length]), tweakKey.encrypt(dataUnit);
      output[..] == Splice(old(output[..]), 0, Xts(c, mode, t, if input == output then InPlaceInput(c, mode, t, s) else s))
  {
    hide DoubleBlock, Masked, WholeBlocks, LoopOutput, LoopHead, Splice, Xts, InPlaceInput;
    if length < 16 || length > MAX_LENGTH {
      return ERR_INVALID_INPUT_LENGTH;
    }
    var leftover := length % 16;
    var m := length / 16;
    ghost var s, t, out := input[..length], tweakKey.encrypt(dataUnit), output[..];
    var tweak, prevTweak, tmp := new Octet[16], new Octet[16], new Octet[16];
    SetBlock(tweak, tweakKey.encrypt(dataUnit));
    var blocks := m;
    SpliceNone(out);
    assert LoopOutput(c, mode, t, s, 0) == [];
    while blocks > 0
      invariant 0 <= blocks <= m
      invariant output[..] == Splice(out, 0, LoopOutput(c, mode, t, s, m - blocks))
      invariant blocks > 0 || leftover == 0 || mode == Encrypt ==> tweak[..] == Tweak(t, m - blocks)
      invariant leftover != 0 && mode == Decrypt && blocks == 0 ==> prevTweak[..] == Tweak(t, m - 1)
      modifies output, tweak, prevTweak, tmp
    {
      blocks := blocks - 1;
      var k := m - blocks - 1;
      if leftover != 0 && mode == Decrypt && blocks == 0 {
        SetBlock(prevTweak, tweak[..]);
        DoubleInPlace(tweak);
      }
      assert tweak[..] == Tweak(t, LoopTweak(mode, length, k));
      LoopInto(c, mode, s, t, out, k, tweak, tmp, input, output, length);
      DoubleInPlace(tweak);
    }
    if leftover != 0 {
      StealTail(c, mode, s, t, out, if mode == Decrypt then prevTweak else tweak, tmp, length, input, output);
    } else {
      LoopEnd(c, mode, t, s);
      NotAliased(c, mode, t, s);
    }
    return 0;
  }
}
