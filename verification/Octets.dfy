/** Octet strings, sixteen-octet blocks, and a block cipher taken as an arbitrary pair of inverse
    functions: everything the modes of operation need to know about AES. */
module Octets {
  type Octet = bv8
  type Block = s: seq<Octet> | |s| == 16 witness seq(16, _ => 0)

  /** A block cipher under a fixed key. */
  datatype BlockCipher = BlockCipher(encrypt: Block -> Block, decrypt: Block -> Block)

  ghost predicate Inverse(f: Block -> Block, g: Block -> Block) {
    forall b: Block :: g(f(b)) == b
  }

  function Joined(a: seq<Octet>, b: seq<Octet>): Block
    requires |a| + |b| == 16
  {
    a + b
  }

  /** What a block cipher owes its users: decryption inverts encryption, and the converse. */
  ghost predicate Permutation(c: BlockCipher) {
    Inverse(c.encrypt, c.decrypt) && Inverse(c.decrypt, c.encrypt)
  }

  datatype Mode = Encrypt | Decrypt

  function Ecb(c: BlockCipher, mode: Mode): Block -> Block {
    if mode == Encrypt then c.encrypt else c.decrypt
  }

  function Opposite(mode: Mode): Mode {
    if mode == Encrypt then Decrypt else Encrypt
  }

  /** Octet-wise exclusive or; the second operand may be longer. */
  function Xor(a: seq<Octet>, b: seq<Octet>): (r: seq<Octet>)
    requires |a| <= |b|
    ensures |r| == |a|
  {
    seq(|a|, i requires 0 <= i < |a| => a[i] ^ b[i])
  }

  lemma XorOctet(a: Octet, b: Octet)
    ensures (a ^ b) ^ b == a && a ^ b == b ^ a && a ^ 0 == a && a ^ a == 0
  {}

  /** Adding the same mask twice changes nothing. */
  lemma XorTwice(a: seq<Octet>, b: seq<Octet>)
    requires |a| <= |b|
    ensures Xor(Xor(a, b), b) == a
  {
    forall i | 0 <= i < |a| ensures Xor(Xor(a, b), b)[i] == a[i] {
      XorOctet(a[i], b[i]);
    }
  }

  lemma XorCommutes(a: seq<Octet>, b: seq<Octet>)
    requires |a| == |b|
    ensures Xor(a, b) == Xor(b, a)
  {
    forall i | 0 <= i < |a| ensures Xor(a, b)[i] == Xor(b, a)[i] {
      XorOctet(a[i], b[i]);
    }
  }

  /** The octets of s with those at d.. replaced by v. */
  function Splice(s: seq<Octet>, d: nat, v: seq<Octet>): (r: seq<Octet>)
    requires d + |v| <= |s|
    ensures |r| == |s|
  {
    s[..d] + v + s[d + |v|..]
  }

  lemma SpliceAll(s: seq<Octet>, v: seq<Octet>)
    requires |v| == |s|
    ensures Splice(s, 0, v) == v
  {}

  lemma SpliceNone(s: seq<Octet>)
    ensures Splice(s, 0, []) == s
  {}

  lemma SliceOfSlice(s: seq<Octet>, i: nat, j: nat, k: nat, l: nat)
    requires i <= j <= |s| && k <= l <= j - i
    ensures s[i..j][k..l] == s[i + k..i + l]
  {
    var u := s[i..j];
    forall x | 0 <= x < l - k ensures u[k..l][x] == s[i + k..i + l][x] {
      assert u[k..l][x] == u[k + x];
    }
  }

  lemma SpliceNoneAt(s: seq<Octet>, d: nat)
    requires d <= |s|
    ensures Splice(s, d, []) == s
  {}

  lemma SpliceNextAt(s: seq<Octet>, d: nat, v: seq<Octet>, w: seq<Octet>)
    requires d + |v| + |w| <= |s|
    ensures Splice(Splice(s, d, v), d + |v|, w) == Splice(s, d, v + w)
  {}

  lemma SpliceRestAt(s: seq<Octet>, d: nat, v: seq<Octet>, i: nat, j: nat)
    requires d + |v| <= i <= j <= |s|
    ensures Splice(s, d, v)[i..j] == s[i..j]
  {}

  lemma SpliceTwice(s: seq<Octet>, d: nat, v: seq<Octet>, w: seq<Octet>)
    requires |v| == |w| && d + |v| <= |s|
    ensures Splice(Splice(s, d, v), d, w) == Splice(s, d, w)
  {}

  lemma SpliceDone(s: seq<Octet>, v: seq<Octet>, x: seq<Octet>)
    requires |v| + |x| <= |s|
    ensures Splice(s, 0, v + x)[|v|..|v| + |x|] == x
  {}

  /** Writing next to what has been written. */
  lemma SpliceNext(s: seq<Octet>, v: seq<Octet>, w: seq<Octet>)
    requires |v| + |w| <= |s|
    ensures Splice(Splice(s, 0, v), |v|, w) == Splice(s, 0, v + w)
  {}

  /** Writing over the end of what has been written. */
  lemma SpliceOver(s: seq<Octet>, v: seq<Octet>, x: seq<Octet>, w: seq<Octet>)
    requires |v| + |x| <= |v| + |w| <= |s|
    ensures Splice(Splice(s, 0, v + x), |v|, w) == Splice(s, 0, v + w)
  {}

  lemma SliceOfPrefix(s: seq<Octet>, n: nat, i: nat, j: nat)
    requires i <= j <= n <= |s|
    ensures s[..n][i..j] == s[i..j]
  {}

  lemma XorParts(x: seq<Octet>, y: seq<Octet>, k: seq<Octet>)
    requires |x| + |y| == |k|
    ensures Xor(x, k) + Xor(y, k[|x|..]) == Xor(x + y, k)
  {}

  /** A block masked in two parts. */
  lemma MaskParts(was: Block, x: seq<Octet>, y: seq<Octet>, key: Block)
    requires |x| + |y| == 16
    ensures Splice(Splice(was, 0, Xor(x, key)), |x|, Xor(y, key[|x|..])) == Xor(x + y, key)
  {
    hide Xor, Splice;
    SpliceNext(was, Xor(x, key), Xor(y, key[|x|..]));
    XorParts(x, y, key);
    SpliceAll(was, Xor(x + y, key));
  }

  /** A splice read at the splice, and before it. */
  lemma SpliceReads(s: seq<Octet>, d: nat, v: seq<Octet>, i: nat)
    requires i <= d && d + |v| <= |s|
    ensures Splice(s, d, v)[d..d + |v|] == v
    ensures Splice(s, d, v)[i..d] == s[i..d]
  {}

  /** What has not been written yet. */
  lemma SpliceRest(s: seq<Octet>, v: seq<Octet>, i: nat, j: nat)
    requires |v| <= i <= j <= |s|
    ensures Splice(s, 0, v)[i..j] == s[i..j]
  {}

  /** dst[d..] gets src[s..] masked by key; the buffers are distinct or the positions equal. */
  method XorInto(dst: array<Octet>, d: nat, src: array<Octet>, s: nat, n: nat, key: seq<Octet>)
    requires d + n <= dst.Length && s + n <= src.Length && n <= |key|
    requires dst != src || d == s
    modifies dst
    ensures dst[..] == Splice(old(dst[..]), d, Xor(old(src[s..s + n]), key))
  {
    for i := 0 to n
      invariant forall k :: 0 <= k < i ==> dst[d + k] == old(src[s + k]) ^ key[k]
      invariant forall k :: 0 <= k < d || d + i <= k < dst.Length ==> dst[k] == old(dst[k])
    {
      dst[d + i] := src[s + i] ^ key[i];
    }
  }

  /** memcpy of a value into a buffer. */
  method Store(dst: array<Octet>, d: nat, v: seq<Octet>)
    requires d + |v| <= dst.Length
    modifies dst
    ensures dst[..] == Splice(old(dst[..]), d, v)
  {
    for i := 0 to |v|
      invariant forall k :: 0 <= k < i ==> dst[d + k] == v[k]
      invariant forall k :: 0 <= k < d || d + i <= k < dst.Length ==> dst[k] == old(dst[k])
    {
      dst[d + i] := v[i];
    }
  }

  method SetBlock(dst: array<Octet>, v: Block)
    requires dst.Length == 16
    modifies dst
    ensures dst[..] == v
  {
    Store(dst, 0, v);
  }

  /** A scratch block gets sixteen octets of src under a mask. */
  method MaskBlock(dst: array<Octet>, src: array<Octet>, s: nat, key: Block)
    requires dst.Length == 16 && s + 16 <= src.Length && dst != src
    modifies dst
    ensures dst[..] == Xor(old(src[s..s + 16]), key)
  {
    XorInto(dst, 0, src, s, 16, key);
  }

  /** Store, seen as growth of the prefix already written. */
  method StoreNext(dst: array<Octet>, d: nat, v: seq<Octet>)
    requires d + |v| <= dst.Length
    modifies dst
    ensures dst[..d + |v|] == old(dst[..d]) + v
  {
    Store(dst, d, v);
  }

  method MaskSelf(dst: array<Octet>, key: Block)
    requires dst.Length == 16
    modifies dst
    ensures dst[..] == Xor(old(dst[..]), key)
  {
    hide Xor, Splice;
    SpliceAll(dst[..], Xor(dst[..], key));
    assert dst[0..16] == dst[..];
    XorInto(dst, 0, dst, 0, 16, key);
  }

  // ----- messages in pieces -----

  function Concat(chunks: seq<seq<Octet>>): seq<Octet> {
    if chunks == [] then [] else chunks[0] + Concat(chunks[1..])
  }

  lemma {:induction false} ConcatNext(chunks: seq<seq<Octet>>, i: nat)
    requires i < |chunks|
    ensures Concat(chunks[..i + 1]) == Concat(chunks[..i]) + chunks[i]
  {
    if i == 0 {
      assert chunks[..1] == [chunks[0]];
    } else {
      ConcatNext(chunks[1..], i - 1);
      assert chunks[..i + 1][1..] == chunks[1..][..i] && chunks[..i][1..] == chunks[1..][..i - 1];
    }
  }

  /** A buffer with the octets of a value. */
  method Buffer(v: seq<Octet>) returns (a: array<Octet>)
    ensures fresh(a) && a[..] == v
  {
    a := new Octet[|v|](i requires 0 <= i < |v| => v[i]);
  }
}
