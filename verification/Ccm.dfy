/** Counter with CBC-MAC (NIST SP 800-38C, formatting of appendix A) as ccm.c computes it. */
module Ccm {
  import opened Octets
  import opened BlockPadding
  import Cmac
  import CtrMode

  const ERR_BAD_INPUT := -0x000D
  const ERR_AUTH_FAILED := -0x000F
  const SIZE := 0x1_0000_0000_0000_0000

  // ----- formatting -----

  /** The low q octets of n, most significant first. */
  function Oct(n: nat, q: nat): (r: seq<Octet>)
    ensures |r| == q
  {
    if q == 0 then [] else Oct(n / 256, q - 1) + [Narrow(n % 256)]
  }

  lemma DivNext(n: nat)
    ensures (n + 1) % 256 == if n % 256 == 255 then 0 else n % 256 + 1
    ensures (n + 1) / 256 == if n % 256 == 255 then n / 256 + 1 else n / 256
  {}

  lemma NarrowNext(n: nat)
    requires n < 256
    ensures Narrow(n) + 1 == if n == 255 then 0 else Narrow(n + 1)
  {
    WideNarrow(n);
    if n == 255 {
      WideInjective(Narrow(n), 255);
    }
  }

  lemma NarrowZero(n: nat)
    requires n < 256
    ensures Narrow(n) == 0 <==> n == 0
  {
    WideNarrow(n);
  }

  /** Counting in octets is counting. */
  lemma {:induction false} OctNext(n: nat, q: nat)
    ensures CtrMode.Next(Oct(n, q)) == Oct(n + 1, q)
  {
    hide Narrow, Oct, CtrMode.Next;
    OctLast(n, q);
    OctLast(n + 1, q);
    if q > 0 {
      DivNext(n);
      NarrowNext(n % 256);
      NarrowZero((n + 1) % 256);
      assert Narrow(0) == 0 by { NarrowZero(0); }
      OctNext(n / 256, q - 1);
      CtrMode.NextSnoc(Oct(n, q));
      var high := Oct(n / 256, q - 1);
      assert (high + [Narrow(n % 256)])[..q - 1] == high;
    } else {
      CtrMode.NextNothing([]);
    }
  }

  lemma OctLast(n: nat, q: nat)
    ensures if q == 0 then Oct(n, q) == [] else Oct(n, q) == Oct(n / 256, q - 1) + [Narrow(n % 256)]
  {}

  lemma {:induction false} OctValue(n: nat, q: nat)
    ensures CtrMode.Value(Oct(n, q)) == n % CtrMode.Size(q)
  {
    hide Narrow;
    if q > 0 {
      OctValue(n / 256, q - 1);
      WideNarrow(n % 256);
      assert Oct(n, q)[..q - 1] == Oct(n / 256, q - 1);
      Cmac.ModHigh(n / 256, n % 256, CtrMode.Size(q - 1));
    }
  }

  /** The (t - 2) / 2 of the flags, in the source's size_t arithmetic, kept to one octet. */
  function TagField(t: nat): Octet {
    Narrow(((t - 2) % SIZE) / 2 % 256)
  }

  /** The flags octet of the first block. */
  function Flags(t: nat, a: nat, q: nat): Octet
    requires q > 0
  {
    (((if a > 0 then 1 else 0) << 6) | (TagField(t) << 3)) | Narrow(q - 1)
  }

  lemma OrDisjoint(a: Octet, t: Octet, q: Octet)
    requires a <= 1 && t <= 7 && q <= 7
    ensures Wide(((a << 6) | (t << 3)) | q) == 64 * Wide(a) + 8 * Wide(t) + Wide(q)
  {}

  lemma NarrowSmall(n: nat)
    requires n < 8
    ensures Narrow(n) <= 7
  {
    WideNarrow(n);
  }

  /** For the tag lengths of the standard the flags are those of section A.2.1. */
  lemma FlagsStandard(t: nat, a: nat, q: nat)
    requires 4 <= t <= 16 && t % 2 == 0 && 2 <= q <= 8
    ensures Wide(Flags(t, a, q)) == 64 * (if a > 0 then 1 else 0) + 8 * ((t - 2) / 2) + (q - 1)
  {
    hide Narrow, Wide;
    NarrowSmall((t - 2) / 2);
    NarrowSmall(q - 1);
    WideNarrow((t - 2) / 2);
    WideNarrow(q - 1);
    WideBit();
    OrDisjoint(if a > 0 then 1 else 0, TagField(t), Narrow(q - 1));
  }

  lemma WideBit()
    ensures Wide(0) == 0 && Wide(1) == 1
  {}

  /** Without a tag, which the extension CCM* allows, all five upper bits are set. */
  lemma FlagsUntagged(a: nat, q: nat)
    requires q > 0
    ensures Flags(0, a, q) & 0xF8 == 0xF8
  {
    WideNarrow(255);
    WideInjective(Narrow(255), 255);
    assert TagField(0) == 255;
  }

  // ----- specification -----

  /** Octets completed with zeros to whole blocks. */
  function Padded(s: seq<Octet>): (r: seq<Octet>)
    ensures |r| % 16 == 0 && |s| <= |r|
  {
    s + Fill(0, (16 - |s| % 16) % 16)
  }

  function FirstBlock(t: nat, a: nat, iv: seq<Octet>, length: nat): Block
    requires 7 <= |iv| <= 13
  {
    [Flags(t, a, 15 - |iv|)] + iv + Oct(length, 15 - |iv|)
  }

  /** The additional data behind its two-octet length (section A.2.2). */
  function Additional(add: seq<Octet>): (r: seq<Octet>)
    ensures |r| % 16 == 0
  {
    if add == [] then [] else Padded(Oct(|add|, 2) + add)
  }

  lemma WholeBlocks(a: seq<Octet>, b: seq<Octet>)
    requires |a| == 16 && |b| % 16 == 0
    ensures |a + b| % 16 == 0
  {}

  /** Everything that is authenticated before the message. */
  function Preamble(t: nat, iv: seq<Octet>, add: seq<Octet>, length: nat): (r: seq<Octet>)
    requires 7 <= |iv| <= 13
    ensures |r| % 16 == 0
  {
    hide FirstBlock, Additional;
    var first, rest := FirstBlock(t, |add|, iv, length), Additional(add);
    WholeBlocks(first, rest);
    first + rest
  }

  /** Counter block i (section A.3). */
  function CounterBlock(iv: seq<Octet>, i: nat): Block
    requires 7 <= |iv| <= 13
  {
    [Narrow(14 - |iv|)] + iv + Oct(i, 15 - |iv|)
  }

  function KeyBlock(c: BlockCipher, iv: seq<Octet>, i: nat): Block
    requires 7 <= |iv| <= 13
  {
    c.encrypt(CounterBlock(iv, i))
  }

  /** Octet k of the key stream for the data: counters 1, 2, ..., sixteen octets from each. */
  function KeyOctet(c: BlockCipher, iv: seq<Octet>, k: nat): Octet
    requires 7 <= |iv| <= 13
  {
    KeyBlock(c, iv, 1 + k / 16)[k % 16]
  }

  /** The data under the key stream; the same operation both ways. */
  function Crypt(c: BlockCipher, iv: seq<Octet>, s: seq<Octet>): (r: seq<Octet>)
    requires 7 <= |iv| <= 13
    ensures |r| == |s|
  {
    seq(|s|, k requires 0 <= k < |s| => s[k] ^ KeyOctet(c, iv, k))
  }

  predicate Accepted(t: nat, ivLen: nat, a: nat, length: nat) {
    t != 2 && t <= 16 && t % 2 == 0 && 7 <= ivLen <= 13 && a <= 0xFF00 && length < CtrMode.Size(15 - ivLen)
  }

  /** The tag: CBC-MAC of preamble and plaintext, masked with counter block 0. */
  function Tag(c: BlockCipher, t: nat, iv: seq<Octet>, add: seq<Octet>, plain: seq<Octet>): (r: seq<Octet>)
    requires 7 <= |iv| <= 13 && t <= 16
    ensures |r| == t
  {
    Xor(Cmac.Mac(c, Preamble(t, iv, add, |plain|) + Padded(plain)), KeyBlock(c, iv, 0))[..t]
  }

  datatype Sealed = Sealed(cipher: seq<Octet>, tag: seq<Octet>)
  datatype Opened = Rejected | Opened(plain: seq<Octet>)

  function Seal(c: BlockCipher, t: nat, iv: seq<Octet>, add: seq<Octet>, plain: seq<Octet>): Sealed
    requires Accepted(t, |iv|, |add|, |plain|)
  {
    Sealed(Crypt(c, iv, plain), Tag(c, t, iv, add, plain))
  }

  function Open(c: BlockCipher, t: nat, iv: seq<Octet>, add: seq<Octet>, m: Sealed): Opened
    requires Accepted(t, |iv|, |add|, |m.cipher|)
  {
    var plain := Crypt(c, iv, m.cipher);
    if m.tag == Tag(c, t, iv, add, plain) then Opened(plain) else Rejected
  }

  lemma CryptTwice(c: BlockCipher, iv: seq<Octet>, s: seq<Octet>)
    requires 7 <= |iv| <= 13
    ensures Crypt(c, iv, Crypt(c, iv, s)) == s
  {
    hide KeyOctet;
    forall k | 0 <= k < |s| ensures Crypt(c, iv, Crypt(c, iv, s))[k] == s[k] {
      XorOctet(s[k], KeyOctet(c, iv, k));
    }
  }

  /** A message opens to a plaintext exactly if it is what sealing that plaintext gives. */
  lemma OpenIffSealed(c: BlockCipher, t: nat, iv: seq<Octet>, add: seq<Octet>, plain: seq<Octet>, m: Sealed)
    requires Accepted(t, |iv|, |add|, |plain|) && |m.cipher| == |plain|
    ensures Open(c, t, iv, add, m) == Opened(plain) <==> m == Seal(c, t, iv, add, plain)
  {
    hide Tag, Crypt;
    CryptTwice(c, iv, plain);
    CryptTwice(c, iv, m.cipher);
  }

  /** The counters that mask data and tag, as many as a message of accepted length can need, give
      pairwise different cipher inputs; none wraps. */
  lemma CountersDistinct(iv: seq<Octet>, length: nat, i: nat, j: nat)
    requires 7 <= |iv| <= 13 && length < CtrMode.Size(15 - |iv|) && i < j <= (length + 15) / 16
    ensures CounterBlock(iv, i) != CounterBlock(iv, j)
    ensures CtrMode.Value(CounterBlock(iv, j)[1 + |iv|..]) == j
  {
    hide Oct, Narrow, CtrMode.Value, CtrMode.Size;
    var q := 15 - |iv|;
    OctValue(i, q);
    OctValue(j, q);
    CounterOctets(iv, i);
    CounterOctets(iv, j);
    ModSmall(i, j, length, CtrMode.Size(q));
  }

  lemma ModSmall(i: nat, j: nat, length: nat, n: nat)
    requires length < n && i < j <= (length + 15) / 16
    ensures i % n == i && j % n == j
  {}

  lemma CounterOctets(iv: seq<Octet>, i: nat)
    requires 7 <= |iv| <= 13
    ensures CounterBlock(iv, i)[1 + |iv|..] == Oct(i, 15 - |iv|)
  {
    hide Oct, Narrow;
  }

  lemma KeyOctetIn(c: BlockCipher, iv: seq<Octet>, pos: nat, k: nat)
    requires 7 <= |iv| <= 13 && pos % 16 == 0 && k < 16
    ensures KeyOctet(c, iv, pos + k) == KeyBlock(c, iv, 1 + pos / 16)[k]
  {}

  /** One more block, or part of one. */
  lemma CryptNext(c: BlockCipher, iv: seq<Octet>, s: seq<Octet>, pos: nat, n: nat)
    requires 7 <= |iv| <= 13 && pos % 16 == 0 && n <= 16 && pos + n <= |s|
    ensures var w := Xor(s[pos..pos + n], KeyBlock(c, iv, 1 + pos / 16));
            Crypt(c, iv, s[..pos + n]) == Crypt(c, iv, s[..pos]) + w && Crypt(c, iv, s)[pos..pos + n] == w
  {
    hide KeyOctet, KeyBlock;
    var w := Xor(s[pos..pos + n], KeyBlock(c, iv, 1 + pos / 16));
    forall k: nat | k < n ensures Crypt(c, iv, s)[pos + k] == w[k] && Crypt(c, iv, s[..pos + n])[pos + k] == w[k] {
      KeyOctetIn(c, iv, pos, k);
    }
  }

  lemma PaddedSplit(a: seq<Octet>, b: seq<Octet>)
    requires |a| % 16 == 0
    ensures Padded(a + b) == a + Padded(b)
  {
    hide Fill;
    assert |a + b| % 16 == |b| % 16;
  }

  // ----- the procedure -----

  /** UPDATE_CBC_MAC. */
  method UpdateMac(c: BlockCipher, y: array<Octet>, b: array<Octet>, ghost s: seq<Octet>)
    requires y.Length == 16 && b.Length == 16 && y != b && |s| % 16 == 0 && y[..] == Cmac.Mac(c, s)
    modifies y
    ensures y[..] == Cmac.Mac(c, s + b[..])
  {
    hide Xor, Cmac.Mac;
    Cmac.MacNext(c, s, b[..]);
    XorCommutes(y[..], b[..]);
    MaskSelf(y, b[..]);
    SetBlock(y, c.encrypt(y[..]));
  }

  /** memset and memcpy: n octets of src, then zeros. */
  method Load(b: array<Octet>, at: nat, src: seq<Octet>)
    requires b.Length == 16 && at + |src| <= 16
    modifies b
    ensures b[..] == Fill(0, at) + src + Fill(0, 16 - at - |src|)
  {
    hide Splice, Fill;
    SetBlock(b, Fill(0, 16));
    Store(b, at, src);
    FillParts(at, src);
  }

  lemma FillParts(at: nat, src: seq<Octet>)
    requires at + |src| <= 16
    ensures Splice(Fill(0, 16), at, src) == Fill(0, at) + src + Fill(0, 16 - at - |src|)
  {}

  /** The length into the last q octets; what does not fit is returned. */
  method StoreLength(b: array<Octet>, q: nat, length: nat) returns (left: nat)
    requires b.Length == 16 && q <= 16
    modifies b
    ensures b[..] == old(b[..16 - q]) + Oct(length, q)
    ensures left == 0 <==> length < CtrMode.Size(q)
  {
    hide Narrow, Oct, CtrMode.Size;
    left := length;
    assert b[..16] == b[..];
    ghost var rest: seq<Octet> := [];
    for i := 0 to q
      invariant |rest| == i && b[..] == old(b[..16 - i]) + rest
      invariant Oct(length, q) == Oct(left, q - i) + rest
      invariant length < CtrMode.Size(q) <==> left < CtrMode.Size(q - i)
    {
      OctStep(left, q - i, rest);
      ghost var last := Narrow(left % 256);
      PutBefore(old(b[..]), 16 - i, rest, last);
      b[15 - i] := Narrow(left % 256);
      left := left / 256;
      rest := [last] + rest;
    }
    OctDone(left, rest);
  }

  lemma OctDone(n: nat, rest: seq<Octet>)
    ensures Oct(n, 0) + rest == rest && (n < CtrMode.Size(0) <==> n == 0)
  {}

  lemma OctStep(n: nat, q: nat, rest: seq<Octet>)
    requires q > 0
    ensures Oct(n, q) + rest == Oct(n / 256, q - 1) + ([Narrow(n % 256)] + rest)
    ensures n < CtrMode.Size(q) <==> n / 256 < CtrMode.Size(q - 1)
  {}

  lemma PutBefore(s: seq<Octet>, k: nat, rest: seq<Octet>, x: Octet)
    requires 0 < k <= |s|
    ensures (s[..k] + rest)[k - 1 := x] == s[..k - 1] + ([x] + rest)
  {}

  lemma PaddedWhole(a: seq<Octet>)
    requires |a| % 16 == 0
    ensures Padded(a) == a
  {}

  lemma PaddedLoad(a: seq<Octet>)
    requires 0 < |a| <= 16
    ensures Fill(0, 0) + a + Fill(0, 16 - 0 - |a|) == Padded(a) && |Padded(a)| == 16
  {}

  /** CBC-MAC over octets completed with zeros, block by block. */
  method MacOctets(c: BlockCipher, y: array<Octet>, b: array<Octet>, ghost s: seq<Octet>, src: seq<Octet>)
    requires y.Length == 16 && b.Length == 16 && y != b && |s| % 16 == 0 && y[..] == Cmac.Mac(c, s)
    modifies y, b
    ensures y[..] == Cmac.Mac(c, s + Padded(src))
  {
    hide Cmac.Mac, Padded, Fill;
    var pos: nat := 0;
    PaddedWhole(src[..0]);
    assert s + src[..0] == s;
    while pos < |src|
      invariant pos <= |src| && (pos % 16 == 0 || pos == |src|)
      invariant y[..] == Cmac.Mac(c, s + Padded(src[..pos]))
    {
      var n := if |src| - pos > 16 then 16 else |src| - pos;
      ghost var next := src[pos..pos + n];
      Load(b, 0, src[pos..pos + n]);
      PaddedLoad(next);
      PaddedWhole(src[..pos]);
      UpdateMac(c, y, b, s + src[..pos]);
      PaddedSplit(src[..pos], next);
      assert src[..pos] + next == src[..pos + n];
      assert s + src[..pos] + Padded(next) == s + (src[..pos] + Padded(next));
      pos := pos + n;
    }
    assert src[..|src|] == src;
  }

  /** The first block and the additional data. */
  method MacPreamble(c: BlockCipher, t: nat, iv: seq<Octet>, add: seq<Octet>, length: nat, y: array<Octet>, b: array<Octet>)
    returns (ok: bool)
    requires y.Length == 16 && b.Length == 16 && y != b && 7 <= |iv| <= 13 && |add| <= 0xFF00
    modifies y, b
    ensures ok == (length < CtrMode.Size(15 - |iv|))
    ensures ok ==> y[..] == Cmac.Mac(c, Preamble(t, iv, add, length))
  {
    hide Cmac.Mac, Flags, Oct, CtrMode.Size, Splice, Padded;
    var q := 15 - |iv|;
    b[0] := Flags(t, |add|, q);
    StoreIv(b, iv);
    var left := StoreLength(b, q, length);
    if left > 0 {
      return false;
    }
    assert b[..] == FirstBlock(t, |add|, iv, length);
    SetBlock(y, Cmac.ZERO);
    MacStart(c);
    UpdateMac(c, y, b, []);
    ghost var s: seq<Octet> := FirstBlock(t, |add|, iv, length);
    assert [] + s == s;
    if |add| > 0 {
      MacAdditional(c, s, add, y, b);
    } else {
      assert s + [] == s;
    }
    ok := true;
  }

  /** The additional data behind its length. */
  method MacAdditional(c: BlockCipher, ghost s: seq<Octet>, add: seq<Octet>, y: array<Octet>, b: array<Octet>)
    requires y.Length == 16 && b.Length == 16 && y != b && 0 < |add| <= 0xFF00
    requires |s| % 16 == 0 && y[..] == Cmac.Mac(c, s)
    modifies y, b
    ensures y[..] == Cmac.Mac(c, s + Additional(add))
  {
    hide Cmac.Mac, Oct, Fill, Padded, Additional, Narrow;
    var n := if |add| < 14 then |add| else 14;
    Load(b, 2, add[..n]);
    var hi, lo := Narrow(|add| / 256 % 256), Narrow(|add| % 256);
    b[0], b[1] := hi, lo;
    OctTwo(|add|);
    AdditionalFirst(add, n, hi, lo);
    ghost var x := b[..];
    UpdateMac(c, y, b, s);
    MacOctets(c, y, b, s + x, add[n..]);
    assert s + x + Padded(add[n..]) == s + (x + Padded(add[n..]));
  }

  lemma MacStart(c: BlockCipher)
    ensures Cmac.Mac(c, []) == Cmac.ZERO
  {}

  method StoreIv(b: array<Octet>, iv: seq<Octet>)
    requires b.Length == 16 && 7 <= |iv| <= 13
    modifies b
    ensures b[..1 + |iv|] == [old(b[0])] + iv
  {
    StoreNext(b, 1, iv);
  }

  /** The first block of additional data behind the length, and what follows it. */
  lemma AdditionalFirst(add: seq<Octet>, n: nat, hi: Octet, lo: Octet)
    requires add != [] && n == (if |add| < 14 then |add| else 14) && Oct(|add|, 2) == [hi, lo]
    ensures Additional(add) == (Fill(0, 2) + add[..n] + Fill(0, 14 - n))[0 := hi][1 := lo] + Padded(add[n..])
  {
    hide Fill, Oct, Padded, Additional;
    AdditionalIs(add);
    LengthFirst(add[..n], Fill(0, 14 - n), hi, lo);
    PaddedBehind([hi, lo], add, n);
  }

  lemma PaddedBehind(o: seq<Octet>, add: seq<Octet>, n: nat)
    requires |o| == 2 && add != [] && n == (if |add| < 14 then |add| else 14)
    ensures Padded(o + add) == o + (add[..n] + Fill(0, 14 - n)) + Padded(add[n..])
  {
    hide Fill, Padded;
    if |add| < 14 {
      PaddedBehindShort(o, add);
      PaddedWhole(add[n..]);
      assert add[..n] == add && Padded(add[n..]) == [];
    } else {
      PaddedBehindLong(o, add);
      assert add[..n] + Fill(0, 14 - n) == add[..n];
    }
  }

  lemma Assoc(a: seq<Octet>, b: seq<Octet>, c: seq<Octet>)
    ensures a + b + c == a + (b + c)
  {}

  lemma AdditionalIs(add: seq<Octet>)
    requires add != []
    ensures Additional(add) == Padded(Oct(|add|, 2) + add)
  {}

  lemma PaddedBehindShort(o: seq<Octet>, add: seq<Octet>)
    requires |o| == 2 && 0 < |add| < 14
    ensures Padded(o + add) == o + (add + Fill(0, 14 - |add|))
  {
    hide Fill, Padded;
    PaddedShort(o + add);
    Assoc(o, add, Fill(0, 14 - |add|));
  }

  lemma PaddedBehindLong(o: seq<Octet>, add: seq<Octet>)
    requires |o| == 2 && 14 <= |add|
    ensures Padded(o + add) == (o + add[..14]) + Padded(add[14..])
  {
    hide Padded;
    Assoc(o, add[..14], add[14..]);
    assert add[..14] + add[14..] == add;
    PaddedSplit(o + add[..14], add[14..]);
  }

  lemma OctTwo(n: nat)
    ensures Oct(n, 2) == [Narrow(n / 256 % 256), Narrow(n % 256)]
  {
    hide Narrow;
    assert Oct(n / 256, 1) == [Narrow(n / 256 % 256)];
  }

  lemma LengthFirst(v: seq<Octet>, w: seq<Octet>, a: Octet, b: Octet)
    ensures (Fill(0, 2) + v + w)[0 := a][1 := b] == [a, b] + (v + w)
  {}

  lemma PaddedShort(s: seq<Octet>)
    requires 0 < |s| <= 16
    ensures Padded(s) == s + Fill(0, 16 - |s|)
  {}

  // ----- the data -----

  /** Both modes authenticate the plaintext. */
  function Plain(c: BlockCipher, mode: Mode, iv: seq<Octet>, s: seq<Octet>): (r: seq<Octet>)
    requires 7 <= |iv| <= 13
    ensures |r| == |s|
  {
    if mode == Encrypt then s else Crypt(c, iv, s)
  }

  /** One round of the main loop: n octets at pos, in either order of masking and authenticating. */
  method DataBlock(c: BlockCipher, mode: Mode, iv: seq<Octet>, ghost pre: seq<Octet>, ghost s: seq<Octet>, ghost out: seq<Octet>,
                   pos: nat, n: nat, y: array<Octet>, b: array<Octet>, ctr: array<Octet>, input: array<Octet>, output: array<Octet>)
    requires y.Length == 16 && b.Length == 16 && ctr.Length == 16 && y != b && y != ctr && b != ctr
    requires output != y && output != b && output != ctr && input != y && input != b && input != ctr
    requires 7 <= |iv| <= 13 && pos % 16 == 0 && 0 < n <= 16 && |pre| % 16 == 0
    requires pos + n <= |s| && |s| <= input.Length && |s| <= output.Length == |out|
    requires s == if input == output then out[..|s|] else input[..|s|]
    requires output[..] == Splice(out, 0, Crypt(c, iv, s[..pos]))
    requires y[..] == Cmac.Mac(c, pre + Plain(c, mode, iv, s)[..pos])
    requires ctr[..] == CounterBlock(iv, 1 + pos / 16)
    modifies y, b, output
    ensures output[..] == Splice(out, 0, Crypt(c, iv, s[..pos + n]))
    ensures y[..] == Cmac.Mac(c, pre + (Plain(c, mode, iv, s)[..pos] + Padded(Plain(c, mode, iv, s)[pos..pos + n])))
  {
    hide Cmac.Mac, Padded, Crypt, Splice, CounterBlock, Fill, Xor;
    ghost var done, plain := Crypt(c, iv, s[..pos]), Plain(c, mode, iv, s);
    ghost var w := Xor(s[pos..pos + n], KeyBlock(c, iv, 1 + pos / 16));
    CryptNext(c, iv, s, pos, n);
    SpliceRest(out, done, pos, pos + n);
    SliceOfPrefix(if input == output then out else input[..], |s|, pos, pos + n);
    assert input[..][pos..pos + n] == input[pos..pos + n] == s[pos..pos + n];
    SpliceNext(out, done, w);
    SpliceReads(output[..], pos, w, pos);
    ghost var x := plain[pos..pos + n];
    assert pre + plain[..pos] + Padded(x) == pre + (plain[..pos] + Padded(x));
    PaddedLoad(x);
    if mode == Encrypt {
      Load(b, 0, input[pos..pos + n]);
      UpdateMac(c, y, b, pre + plain[..pos]);
    }
    SetBlock(b, c.encrypt(ctr[..]));
    XorInto(output, pos, input, pos, n, b[..]);
    if mode == Decrypt {
      assert output[pos..pos + n] == output[..][pos..pos + n] == x;
      Load(b, 0, output[pos..pos + n]);
      UpdateMac(c, y, b, pre + plain[..pos]);
    }
  }

  /** The counter after a round. */
  method NextCounter(ctr: array<Octet>, iv: seq<Octet>, i: nat)
    requires ctr.Length == 16 && 7 <= |iv| <= 13 && ctr[..] == CounterBlock(iv, i)
    modifies ctr
    ensures ctr[..] == CounterBlock(iv, i + 1)
  {
    hide Oct, Narrow;
    var lo := 1 + |iv|;
    OctNext(i, 15 - |iv|);
    CounterOctets(iv, i);
    assert ctr[..][lo..] == ctr[lo..] && ctr[..][..lo] == ctr[..lo];
    CtrMode.Increment(ctr, lo);
  }

  /** The main loop. */
  method DataLoop(c: BlockCipher, mode: Mode, iv: seq<Octet>, ghost pre: seq<Octet>, length: nat, y: array<Octet>, b: array<Octet>,
                  ctr: array<Octet>, input: array<Octet>, output: array<Octet>)
    requires y.Length == 16 && b.Length == 16 && ctr.Length == 16 && y != b && y != ctr && b != ctr
    requires output != y && output != b && output != ctr && input != y && input != b && input != ctr
    requires 7 <= |iv| <= 13 && |pre| % 16 == 0 && length <= input.Length && length <= output.Length
    requires y[..] == Cmac.Mac(c, pre) && ctr[..] == CounterBlock(iv, 1)
    modifies y, b, ctr, output
    ensures var s := old(input[..length]);
      output[..] == Splice(old(output[..]), 0, Crypt(c, iv, s)) && y[..] == Cmac.Mac(c, pre + Padded(Plain(c, mode, iv, s)))
    ensures ctr[..1 + |iv|] == CounterBlock(iv, 0)[..1 + |iv|]
  {
    hide Cmac.Mac, Padded, Crypt, Splice, CounterBlock, Plain;
    ghost var s, out := input[..length], output[..];
    ghost var plain := Plain(c, mode, iv, s);
    var pos: nat := 0;
    CryptNothing(c, iv, s, out);
    PaddedWhole(plain[..0]);
    assert pre + plain[..0] == pre;
    while pos < length
      invariant pos <= length && (pos % 16 == 0 || pos == length)
      invariant output[..] == Splice(out, 0, Crypt(c, iv, s[..pos]))
      invariant y[..] == Cmac.Mac(c, pre + Padded(plain[..pos]))
      invariant ctr[..] == CounterBlock(iv, 1 + (pos + 15) / 16)
    {
      var n := if length - pos > 16 then 16 else length - pos;
      PaddedWhole(plain[..pos]);
      DataBlock(c, mode, iv, pre, s, out, pos, n, y, b, ctr, input, output);
      NextCounter(ctr, iv, 1 + pos / 16);
      PaddedSplit(plain[..pos], plain[pos..pos + n]);
      assert plain[..pos] + plain[pos..pos + n] == plain[..pos + n];
      pos := pos + n;
    }
    assert s[..length] == s && plain[..length] == plain;
    CounterHead(iv, 1 + (pos + 15) / 16);
  }

  lemma CryptNothing(c: BlockCipher, iv: seq<Octet>, s: seq<Octet>, out: seq<Octet>)
    requires 7 <= |iv| <= 13
    ensures Splice(out, 0, Crypt(c, iv, s[..0])) == out
  {}

  lemma CounterHead(iv: seq<Octet>, i: nat)
    requires 7 <= |iv| <= 13
    ensures CounterBlock(iv, i)[..1 + |iv|] == CounterBlock(iv, 0)[..1 + |iv|]
  {
    hide Oct, Narrow;
  }

  lemma OctZero(q: nat)
    ensures Oct(0, q) == Fill(0, q)
  {
    if q > 0 {
      OctZero(q - 1);
    }
  }

  lemma PlainIs(c: BlockCipher, iv: seq<Octet>, s: seq<Octet>)
    requires 7 <= |iv| <= 13
    ensures Plain(c, Decrypt, iv, s) == Crypt(c, iv, s) && Plain(c, Encrypt, iv, s) == s
  {}

  lemma SplicePrefix(s: seq<Octet>, v: seq<Octet>)
    requires |v| <= |s|
    ensures Splice(s, 0, v)[..|v|] == v && Splice(s, 0, v)[|v|..] == s[|v|..]
  {}

  /** ccm_auth_crypt. Input and output are separate buffers or the same one; the nonce and the
      additional data are values. */
  method AuthCrypt(c: BlockCipher, mode: Mode, length: nat, iv: seq<Octet>, add: seq<Octet>,
                   input: array<Octet>, output: array<Octet>, tag: array<Octet>, t: nat) returns (ret: int)
    requires length <= input.Length && length <= output.Length && t <= tag.Length && tag != output && tag != input
    modifies output, tag
    ensures ret == if Accepted(t, |iv|, |add|, length) then 0 else ERR_BAD_INPUT
    ensures ret != 0 ==> output[..] == old(output[..]) && tag[..] == old(tag[..])
    ensures ret == 0 ==>
      var s := old(input[..length]);
      output[..] == Splice(old(output[..]), 0, Crypt(c, iv, s))
      && tag[..t] == Tag(c, t, iv, add, Plain(c, mode, iv, s))
  {
    hide Cmac.Mac, Padded, Crypt, Splice, Plain, Preamble, KeyBlock, Xor;
    if t == 2 || t > 16 || t % 2 != 0 {
      return ERR_BAD_INPUT;
    }
    if |iv| < 7 || |iv| > 13 {
      return ERR_BAD_INPUT;
    }
    if |add| > 0xFF00 {
      return ERR_BAD_INPUT;
    }
    var b, y, ctr := new Octet[16], new Octet[16], new Octet[16];
    var ok := MacPreamble(c, t, iv, add, length, y, b);
    if !ok {
      return ERR_BAD_INPUT;
    }
    SetCounter(ctr, iv);
    ghost var s := input[..length];
    DataLoop(c, mode, iv, Preamble(t, iv, add, length), length, y, b, ctr, input, output);
    ClearCounter(ctr, iv);
    SetBlock(b, c.encrypt(ctr[..]));
    assert b[..] == KeyBlock(c, iv, 0) by { KeyBlockIs(c, iv, 0); }
    MaskSelf(y, b[..]);
    StoreNext(tag, 0, y[..t]);
    ret := 0;
  }

  lemma KeyBlockIs(c: BlockCipher, iv: seq<Octet>, i: nat)
    requires 7 <= |iv| <= 13
    ensures KeyBlock(c, iv, i) == c.encrypt(CounterBlock(iv, i))
  {}

  method SetCounter(ctr: array<Octet>, iv: seq<Octet>)
    requires ctr.Length == 16 && 7 <= |iv| <= 13
    modifies ctr
    ensures ctr[..] == CounterBlock(iv, 1)
  {
    hide Narrow;
    var q := 15 - |iv|;
    ctr[0] := Narrow(q - 1);
    StoreIv(ctr, iv);
    FillInto(ctr, 1 + |iv|, 16, 0);
    ctr[15] := 1;
    CounterOne(iv);
  }

  lemma CounterOne(iv: seq<Octet>)
    requires 7 <= |iv| <= 13
    ensures CounterBlock(iv, 1) == [Narrow(14 - |iv|)] + iv + Fill(0, 14 - |iv|) + [1]
  {
    hide Narrow;
    OctZero(14 - |iv|);
    WideNarrow(1);
    WideInjective(Narrow(1), 1);
  }

  method ClearCounter(ctr: array<Octet>, iv: seq<Octet>)
    requires ctr.Length == 16 && 7 <= |iv| <= 13 && ctr[..1 + |iv|] == CounterBlock(iv, 0)[..1 + |iv|]
    modifies ctr
    ensures ctr[..] == CounterBlock(iv, 0)
  {
    hide Narrow;
    OctZero(15 - |iv|);
    CounterOctets(iv, 0);
    FillInto(ctr, 1 + |iv|, 16, 0);
  }

  /** mbedtls_ccm_star_encrypt_and_tag. */
  method StarEncryptAndTag(c: BlockCipher, length: nat, iv: seq<Octet>, add: seq<Octet>,
                           input: array<Octet>, output: array<Octet>, tag: array<Octet>, t: nat) returns (ret: int)
    requires length <= input.Length && length <= output.Length && t <= tag.Length && tag != output && tag != input
    modifies output, tag
    ensures ret == if Accepted(t, |iv|, |add|, length) then 0 else ERR_BAD_INPUT
    ensures ret == 0 ==> Sealed(output[..length], tag[..t]) == Seal(c, t, iv, add, old(input[..length]))
    ensures output[length..] == old(output[length..])
  {
    hide Crypt, Tag;
    ret := AuthCrypt(c, Encrypt, length, iv, add, input, output, tag, t);
  }

  /** mbedtls_ccm_encrypt_and_tag: a tag is required. */
  method EncryptAndTag(c: BlockCipher, length: nat, iv: seq<Octet>, add: seq<Octet>,
                       input: array<Octet>, output: array<Octet>, tag: array<Octet>, t: nat) returns (ret: int)
    requires length <= input.Length && length <= output.Length && t <= tag.Length && tag != output && tag != input
    modifies output, tag
    ensures ret == if t != 0 && Accepted(t, |iv|, |add|, length) then 0 else ERR_BAD_INPUT
    ensures ret == 0 ==> Sealed(output[..length], tag[..t]) == Seal(c, t, iv, add, old(input[..length]))
    ensures output[length..] == old(output[length..])
  {
    hide Crypt, Tag;
    if t == 0 {
      return ERR_BAD_INPUT;
    }
    ret := StarEncryptAndTag(c, length, iv, add, input, output, tag, t);
  }

  /** mbedtls_ccm_star_auth_decrypt: the plaintext if the tag is right, otherwise zeros. */
  method StarAuthDecrypt(c: BlockCipher, length: nat, iv: seq<Octet>, add: seq<Octet>,
                         input: array<Octet>, output: array<Octet>, tag: seq<Octet>, t: nat) returns (ret: int)
    requires length <= input.Length && length <= output.Length && |tag| == t
    modifies output
    ensures !Accepted(t, |iv|, |add|, length) ==> ret == ERR_BAD_INPUT && output[..] == old(output[..])
    ensures Accepted(t, |iv|, |add|, length) ==>
      match Open(c, t, iv, add, Sealed(old(input[..length]), tag))
      case Opened(plain) => ret == 0 && output[..length] == plain
      case Rejected => ret == ERR_AUTH_FAILED && output[..length] == Fill(0, length)
    ensures output[length..] == old(output[length..])
  {
    hide Crypt, Tag, Fill, Splice;
    var check := new Octet[if t < 16 then 16 else t];
    ghost var s, out := input[..length], output[..];
    ret := AuthCrypt(c, Decrypt, length, iv, add, input, output, check, t);
    if ret != 0 {
      return;
    }
    ghost var plain := Crypt(c, iv, s);
    SplicePrefix(out, plain);
    assert output[..length] == plain && output[length..] == out[length..];
    var diff: Octet := 0;
    for i := 0 to t
      invariant diff == 0 <==> tag[..i] == check[..i]
      modifies {}
    {
      FlipZero(tag[i], check[i]);
      diff := Accumulate(diff, Flip(tag[i], check[i]));
    }
    assert check[..t] == Tag(c, t, iv, add, plain) by { PlainIs(c, iv, s); }
    assert tag[..t] == tag;
    if diff != 0 {
      FillInto(output, 0, length, 0);
      return ERR_AUTH_FAILED;
    }
  }
}

