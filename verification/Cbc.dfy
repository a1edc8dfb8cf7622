/** Cipher block chaining (section 6.2 of NIST SP 800-38A), and mbedtls_aes_crypt_cbc. */
module Cbc {
  import opened Octets

  const ERR_INVALID_INPUT_LENGTH := -0x0022

  /** One block: what is put out, and the next chaining value. */
  function Link(c: BlockCipher, mode: Mode, iv: Block, x: Block): (Block, Block) {
    if mode == Encrypt then
      var y: Block := c.encrypt(Xor(x, iv)); (y, y)
    else (Xor(c.decrypt(x), iv), x)
  }

  function Head(s: seq<Octet>): Block
    requires |s| >= 16
  {
    s[..16]
  }

  /** The whole blocks of s. */
  function Chain(c: BlockCipher, mode: Mode, iv: Block, s: seq<Octet>): (r: seq<Octet>)
    ensures |r| == 16 * (|s| / 16)
    decreases |s|
  {
    if |s| < 16 then [] else
      var (y, iv') := Link(c, mode, iv, Head(s));
      y + Chain(c, mode, iv', s[16..])
  }

  /** The chaining value after them. */
  function NextIv(c: BlockCipher, mode: Mode, iv: Block, s: seq<Octet>): Block
    decreases |s|
  {
    if |s| < 16 then iv else NextIv(c, mode, Link(c, mode, iv, Head(s)).1, s[16..])
  }

  lemma {:induction false} ChainSplit(c: BlockCipher, mode: Mode, iv: Block, a: seq<Octet>, b: seq<Octet>)
    requires |a| % 16 == 0
    ensures Chain(c, mode, iv, a + b) == Chain(c, mode, iv, a) + Chain(c, mode, NextIv(c, mode, iv, a), b)
    ensures NextIv(c, mode, iv, a + b) == NextIv(c, mode, NextIv(c, mode, iv, a), b)
    decreases |a|
  {
    hide Link;
    if |a| == 0 {
      assert a + b == b;
    } else {
      assert Head(a + b) == Head(a) && (a + b)[16..] == a[16..] + b;
      ChainSplit(c, mode, Link(c, mode, iv, Head(a)).1, a[16..], b);
    }
  }

  /** Block j of a string. */
  function Part(s: seq<Octet>, j: nat): Block
    requires 16 * (j + 1) <= |s|
  {
    s[16 * j..16 * j + 16]
  }

  lemma PartConcat(y: Block, rest: seq<Octet>, j: nat)
    requires 16 * (j + 1) <= |rest|
    ensures Part(y + rest, j + 1) == Part(rest, j)
  {
    var s, k := y + rest, 16 * j;
    var u, v := Part(s, j + 1), Part(rest, j);
    forall i | 0 <= i < 16 ensures u[i] == v[i] {
      assert s[k + 16 + i] == rest[k + i];
    }
  }

  lemma PartBehind(s: seq<Octet>, j: nat)
    requires 16 * (j + 2) <= |s|
    ensures Part(s, j + 1) == Part(s[16..], j)
  {
    hide Part;
    var y: Block := s[..16];
    assert s == y + s[16..];
    PartConcat(y, s[16..], j);
  }

  /** Block j of what comes out: every block is combined with the block of ciphertext before it, the
      first one with the initialization vector. */
  lemma {:induction false} ChainBlocks(c: BlockCipher, mode: Mode, iv: Block, s: seq<Octet>, j: nat)
    requires 16 * (j + 1) <= |s|
    ensures var y := Chain(c, mode, iv, s);
            Part(y, j) == if mode == Encrypt then c.encrypt(Xor(Part(s, j), if j == 0 then iv else Part(y, j - 1)))
                          else Xor(c.decrypt(Part(s, j)), if j == 0 then iv else Part(s, j - 1))
    decreases |s|
  {
    hide Part;
    var (y, iv') := Link(c, mode, iv, Head(s));
    var rest := Chain(c, mode, iv', s[16..]);
    PartFirst(s, []);
    assert Head(y) == y;
    if j == 0 {
      PartFirst(y, rest);
    } else {
      ChainBlocks(c, mode, iv', s[16..], j - 1);
      PartConcat(y, rest, j - 1);
      PartBehind(s, j - 1);
      if j == 1 {
        PartFirst(y, rest);
      } else {
        PartConcat(y, rest, j - 2);
        PartBehind(s, j - 2);
      }
    }
  }

  lemma PartFirst(y: seq<Octet>, rest: seq<Octet>)
    requires |y| >= 16
    ensures Part(y + rest, 0) == Head(y) && Part(y, 0) == Head(y)
  {}

  lemma LinkInverse(c: BlockCipher, iv: Block, x: Block)
    requires Permutation(c)
    ensures var (y, iv') := Link(c, Encrypt, iv, x); Link(c, Decrypt, iv, y) == (x, iv')
  {
    var z: Block := Xor(x, iv);
    assert c.decrypt(c.encrypt(z)) == z;
    XorTwice(x, iv);
  }

  /** Decryption undoes encryption and follows the same chaining values. */
  lemma {:induction false} ChainInverse(c: BlockCipher, iv: Block, s: seq<Octet>)
    requires Permutation(c) && |s| % 16 == 0
    ensures Chain(c, Decrypt, iv, Chain(c, Encrypt, iv, s)) == s
    decreases |s|
  {
    hide Link;
    if |s| > 0 {
      var (y, iv') := Link(c, Encrypt, iv, Head(s));
      LinkInverse(c, iv, Head(s));
      var rest := Chain(c, Encrypt, iv', s[16..]);
      assert Head(y + rest) == y && (y + rest)[16..] == rest;
      ChainInverse(c, iv', s[16..]);
      assert s == Head(s) + s[16..];
    }
  }

  /** Every loop round: one more block at the end of what has been put out. */
  lemma ChainStep(c: BlockCipher, mode: Mode, iv: Block, s: seq<Octet>)
    requires |s| >= 16
    ensures var (y, iv') := Link(c, mode, iv, Head(s));
            Chain(c, mode, iv, s) == y + Chain(c, mode, iv', s[16..])
            && NextIv(c, mode, iv, s) == NextIv(c, mode, iv', s[16..])
  {}

  /** The loop body. */
  method LinkInto(c: BlockCipher, mode: Mode, iv: array<Octet>, input: array<Octet>, ip: nat, output: array<Octet>, op: nat)
    requires iv.Length == 16 && ip + 16 <= input.Length && op + 16 <= output.Length
    requires iv != input && iv != output && (input == output ==> ip == op)
    modifies iv, output
    ensures var (y, iv') := Link(c, mode, old(iv[..]), old(input[ip..ip + 16]));
            output[..] == Splice(old(output[..]), op, y) && iv[..] == iv'
  {
    hide Xor, Splice;
    ghost var out, x := output[..], input[ip..ip + 16];
    if mode == Decrypt {
      var temp := input[ip..ip + 16];
      Store(output, op, c.decrypt(input[ip..ip + 16]));
      SpliceReads(out, op, c.decrypt(x), op);
      XorInto(output, op, output, op, 16, iv[..]);
      SpliceTwice(out, op, c.decrypt(x), Xor(c.decrypt(x), iv[..]));
      SetBlock(iv, temp);
    } else {
      XorInto(output, op, input, ip, 16, iv[..]);
      SpliceReads(out, op, Xor(x, iv[..]), op);
      Store(output, op, c.encrypt(output[op..op + 16]));
      SpliceTwice(out, op, Xor(x, iv[..]), c.encrypt(Xor(x, iv[..])));
      SpliceReads(out, op, c.encrypt(Xor(x, iv[..])), op);
      SetBlock(iv, output[op..op + 16]);
    }
  }

  /** mbedtls_aes_crypt_cbc. Input and output are separate buffers or the same one. */
  method CryptCbc(c: BlockCipher, mode: Mode, length: nat, iv: array<Octet>, input: array<Octet>, ip: nat,
                  output: array<Octet>, op: nat) returns (ret: int)
    requires iv.Length == 16 && ip + length <= input.Length && op + length <= output.Length
    requires iv != input && iv != output && (input == output ==> ip == op)
    modifies iv, output
    ensures ret == if length % 16 == 0 then 0 else ERR_INVALID_INPUT_LENGTH
    ensures ret != 0 ==> iv[..] == old(iv[..]) && output[..] == old(output[..])
    ensures ret == 0 ==>
      var s := old(input[ip..ip + length]);
      output[..] == Splice(old(output[..]), op, Chain(c, mode, old(iv[..]), s)) && iv[..] == NextIv(c, mode, old(iv[..]), s)
  {
    hide Link, Splice, Chain, NextIv;
    if length % 16 != 0 {
      return ERR_INVALID_INPUT_LENGTH;
    }
    ghost var out, in0, s, iv0 := output[..], input[..], input[ip..ip + length], iv[..];
    var pos, left := 0, length;
    ghost var done: seq<Octet> := [];
    SpliceNoneAt(out, op);
    while left > 0
      invariant pos + left == length && left % 16 == 0 && |done| == pos
      invariant output[..] == Splice(out, op, done)
      invariant Chain(c, mode, iv0, s) == done + Chain(c, mode, iv[..], s[pos..])
      invariant NextIv(c, mode, iv0, s) == NextIv(c, mode, iv[..], s[pos..])
      modifies iv, output
    {
      NextInput(in0, out, input == output, ip, op, length, pos, done);
      assert input[..] == if input == output then Splice(out, op, done) else in0;
      assert input[ip + pos..ip + pos + 16] == input[..][ip + pos..ip + pos + 16];
      ChainStep(c, mode, iv[..], s[pos..]);
      assert s[pos..][16..] == s[pos + 16..];
      ghost var y := Link(c, mode, iv[..], Head(s[pos..])).0;
      LinkInto(c, mode, iv, input, ip + pos, output, op + pos);
      SpliceNextAt(out, op, done, y);
      done := done + y;
      pos := pos + 16;
      left := left - 16;
    }
    ChainNone(c, mode, iv[..], s[pos..]);
    assert done + [] == done;
    return 0;
  }

  /** The block read next is the one the caller supplied, in place or not. */
  lemma NextInput(in0: seq<Octet>, out: seq<Octet>, same: bool, ip: nat, op: nat, length: nat, pos: nat, done: seq<Octet>)
    requires ip + length <= |in0| && op + length <= |out| && (same ==> in0 == out && ip == op)
    requires |done| == pos && pos + 16 <= length
    ensures var cur := if same then Splice(out, op, done) else in0;
            |cur| == |in0| && cur[ip + pos..ip + pos + 16] == Head(in0[ip..ip + length][pos..])
  {
    hide Splice;
    SpliceRestAt(out, op, done, op + pos, op + pos + 16);
    var s := in0[ip..ip + length];
    SliceOfSlice(in0, ip, ip + length, pos, pos + 16);
    SliceOfSlice(s, pos, length, 0, 16);
    assert s[pos..] == s[pos..length];
    assert Head(s[pos..]) == s[pos..pos + 16] == in0[ip + pos..ip + pos + 16];
  }

  lemma ChainNone(c: BlockCipher, mode: Mode, iv: Block, s: seq<Octet>)
    requires |s| == 0
    ensures Chain(c, mode, iv, s) == [] && NextIv(c, mode, iv, s) == iv
  {}
}
