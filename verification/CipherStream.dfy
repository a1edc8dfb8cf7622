/** The buffered CBC interface of cipher.c: any number of updates, then finish. */
module CipherStream {
  import opened Octets
  import opened Cbc
  import opened BlockPadding

  const ERR_BAD_INPUT_DATA := -0x6100
  const ERR_FULL_BLOCK_EXPECTED := -0x6280

  datatype Config = Config(cipher: BlockCipher, mode: Mode, padding: Padding)
  datatype State = State(iv: Block, pending: seq<Octet>)
  datatype Result = Ok(value: seq<Octet>) | Err(code: int)

  // ----- specification -----

  /** Decryption with padding always keeps a block back: it may be the last one. */
  predicate HoldsBack(g: Config) {
    g.mode == Decrypt && g.padding != NoPadding
  }

  /** How many of n octets in hand are processed at once. */
  function Ready(g: Config, n: nat): (r: nat)
    ensures r <= n && r % 16 == 0
  {
    if HoldsBack(g) then (if n == 0 then 0 else 16 * ((n - 1) / 16)) else 16 * (n / 16)
  }

  /** Nothing pending that could have been processed. */
  predicate Settled(g: Config, s: State) {
    Ready(g, |s.pending|) == 0
  }

  function Feed(g: Config, s: State, input: seq<Octet>): (seq<Octet>, State) {
    var all := s.pending + input;
    var k := Ready(g, |all|);
    (Chain(g.cipher, g.mode, s.iv, all[..k]), State(NextIv(g.cipher, g.mode, s.iv, all[..k]), all[k..]))
  }

  function FeedAll(g: Config, s: State, chunks: seq<seq<Octet>>): (seq<Octet>, State)
    decreases |chunks|
  {
    if chunks == [] then ([], s)
    else
      var (out, s') := Feed(g, s, chunks[0]);
      var (outs, end) := FeedAll(g, s', chunks[1..]);
      (out + outs, end)
  }

  function Conclude(g: Config, s: State): Result
    requires |s.pending| <= 16
  {
    if g.mode == Encrypt then
      if g.padding == NoPadding then
        if s.pending == [] then Ok([]) else Err(ERR_FULL_BLOCK_EXPECTED)
      else if |s.pending| == 16 then Err(ERR_FULL_BLOCK_EXPECTED)
      else Ok(Chain(g.cipher, Encrypt, s.iv, s.pending + Pad(g.padding, 16 - |s.pending|)))
    else if |s.pending| != 16 then
      if g.padding == NoPadding && s.pending == [] then Ok([]) else Err(ERR_FULL_BLOCK_EXPECTED)
    else
      var block: Block := Chain(g.cipher, Decrypt, s.iv, s.pending);
      match Unpad(g.padding, block)
      case None => Err(ERR_INVALID_PADDING)
      case Some(n) => Ok(block[..n])
  }

  /** A whole run: updates with the chunks in turn, then finish. */
  function Run(g: Config, iv: Block, chunks: seq<seq<Octet>>): Result {
    FeedAllSettled(g, State(iv, []), chunks);
    var (out, s) := FeedAll(g, State(iv, []), chunks);
    match Conclude(g, s)
    case Ok(last) => Ok(out + last)
    case Err(code) => Err(code)
  }

  // ----- splitting the message does not matter -----

  lemma ReadySplit(g: Config, m: nat, n: nat)
    ensures Ready(g, m + n) == Ready(g, m) + Ready(g, m - Ready(g, m) + n)
  {
    var q := Ready(g, m) / 16;
    var rest := m - 16 * q + n;
    if HoldsBack(g) {
      if m > 0 {
        WholeAfter(rest - 1, q);
      }
    } else {
      WholeAfter(rest, q);
    }
  }

  lemma WholeAfter(n: nat, q: nat)
    ensures (16 * q + n) / 16 == q + n / 16
  {}

  lemma ReadyRest(g: Config, n: nat)
    ensures Ready(g, n - Ready(g, n)) == 0 && n - Ready(g, n) <= 16
    ensures !HoldsBack(g) ==> n - Ready(g, n) < 16
  {}

  lemma FeedSplit(g: Config, s: State, a: seq<Octet>, b: seq<Octet>)
    ensures var (x, t) := Feed(g, s, a); var (y, u) := Feed(g, t, b);
            Feed(g, s, a + b) == (x + y, u)
  {
    hide Chain, NextIv, Ready;
    var p := s.pending + a;
    var k := Ready(g, |p|);
    var (x, t) := Feed(g, s, a);
    var q := t.pending + b;
    var l := Ready(g, |q|);
    ReadySplit(g, |p|, |b|);
    var all := s.pending + (a + b);
    assert all == p + b == p[..k] + q;
    assert all[..k + l] == p[..k] + q[..l] && all[k + l..] == q[l..];
    ChainSplit(g.cipher, g.mode, s.iv, p[..k], q[..l]);
  }

  lemma FeedSettled(g: Config, s: State, a: seq<Octet>)
    ensures Settled(g, Feed(g, s, a).1) && |Feed(g, s, a).1.pending| <= 16
  {
    hide Chain, NextIv;
    ReadyRest(g, |s.pending + a|);
  }

  lemma {:induction false} FeedAllSettled(g: Config, s: State, chunks: seq<seq<Octet>>)
    requires Settled(g, s) && |s.pending| <= 16
    ensures Settled(g, FeedAll(g, s, chunks).1) && |FeedAll(g, s, chunks).1.pending| <= 16
    decreases |chunks|
  {
    hide Feed;
    if chunks != [] {
      FeedSettled(g, s, chunks[0]);
      FeedAllSettled(g, Feed(g, s, chunks[0]).1, chunks[1..]);
    }
  }

  lemma FeedNothing(g: Config, s: State)
    requires Settled(g, s)
    ensures Feed(g, s, []) == ([], s)
  {
    assert s.pending + [] == s.pending;
  }

  /** Any sequence of updates is one update with the whole message. */
  lemma {:induction false} SplitIndependent(g: Config, s: State, chunks: seq<seq<Octet>>)
    requires Settled(g, s)
    ensures FeedAll(g, s, chunks) == Feed(g, s, Concat(chunks))
    decreases |chunks|
  {
    hide Feed;
    if chunks == [] {
      FeedNothing(g, s);
    } else {
      FeedSettled(g, s, chunks[0]);
      SplitIndependent(g, Feed(g, s, chunks[0]).1, chunks[1..]);
      FeedSplit(g, s, chunks[0], Concat(chunks[1..]));
    }
  }

  // ----- whole runs -----

  /** The message as CBC gets to see it. */
  function PaddedMessage(p: Padding, m: seq<Octet>): (r: seq<Octet>)
    ensures p != NoPadding ==> |r| >= 16 && |r| % 16 == 0
  {
    if p == NoPadding then m else m + Pad(p, 16 - |m| % 16)
  }

  /** The octets of the last, incomplete block. */
  function Tail(m: seq<Octet>): seq<Octet> {
    m[16 * (|m| / 16)..]
  }

  lemma PaddedParts(p: Padding, m: seq<Octet>)
    requires p != NoPadding
    ensures var k, z := 16 * (|m| / 16), PaddedMessage(p, m);
            z == m[..k] + (Tail(m) + Pad(p, 16 - |Tail(m)|))
            && z[..|z| - 16] == m[..k] && LastBlock(z) == Joined(Tail(m), Pad(p, 16 - |Tail(m)|))
            && m == m[..k] + Tail(m)
  {
    hide Pad;
    var k, z := 16 * (|m| / 16), PaddedMessage(p, m);
    var last := Tail(m) + Pad(p, 16 - |Tail(m)|);
    assert m == m[..k] + Tail(m);
    assert z == m[..k] + last;
  }

  /** Encryption in any pieces is CBC of the padded message; without padding it wants whole blocks. */
  lemma EncryptionRun(c: BlockCipher, p: Padding, iv: Block, chunks: seq<seq<Octet>>)
    ensures var m := Concat(chunks);
            Run(Config(c, Encrypt, p), iv, chunks) ==
              if p == NoPadding && |m| % 16 != 0 then Err(ERR_FULL_BLOCK_EXPECTED)
              else Ok(Chain(c, Encrypt, iv, PaddedMessage(p, m)))
  {
    hide Chain, NextIv, Pad, PaddedMessage;
    var g, s, m := Config(c, Encrypt, p), State(iv, []), Concat(chunks);
    SplitIndependent(g, s, chunks);
    assert s.pending + m == m;
    var k := 16 * (|m| / 16);
    assert |m[k..]| == |m| % 16;
    if p != NoPadding {
      PaddedParts(p, m);
      ChainSplit(c, Encrypt, iv, m[..k], Tail(m) + Pad(p, 16 - |Tail(m)|));
    } else if |m| % 16 == 0 {
      assert m[..k] == m && PaddedMessage(p, m) == m by { Unpadded(m); }
      assert Chain(c, Encrypt, iv, m) + [] == Chain(c, Encrypt, iv, m);
    }
  }

  /** Decryption in any pieces: CBC, and the padding read off the last block. */
  lemma DecryptionRun(c: BlockCipher, p: Padding, iv: Block, chunks: seq<seq<Octet>>)
    requires |Concat(chunks)| % 16 == 0 && (p != NoPadding ==> Concat(chunks) != [])
    ensures var y := Chain(c, Decrypt, iv, Concat(chunks));
            Run(Config(c, Decrypt, p), iv, chunks) ==
              if p == NoPadding then Ok(y)
              else match Unpad(p, LastBlock(y))
                   case None => Err(ERR_INVALID_PADDING)
                   case Some(n) => Ok(y[..|y| - 16] + LastBlock(y)[..n])
  {
    hide Chain, NextIv, Unpad, Feed, FeedAll, Concat, Ready, LastBlock, Conclude;
    var g, s, m := Config(c, Decrypt, p), State(iv, []), Concat(chunks);
    FeedAllSettled(g, s, chunks) by { SettledStart(g, iv); }
    SplitIndependent(g, s, chunks);
    if p == NoPadding {
      FeedPlain(c, iv, m);
    } else {
      FeedPadded(c, p, iv, m);
    }
  }

  lemma SettledStart(g: Config, iv: Block)
    ensures Settled(g, State(iv, []))
  {}

  lemma FeedPlain(c: BlockCipher, iv: Block, m: seq<Octet>)
    requires |m| % 16 == 0
    ensures var (out, s) := Feed(Config(c, Decrypt, NoPadding), State(iv, []), m);
            |s.pending| <= 16 && Conclude(Config(c, Decrypt, NoPadding), s) == Ok([]) && out + [] == Chain(c, Decrypt, iv, m)
  {
    hide Chain, NextIv;
    assert [] + m == m && m[..|m|] == m;
  }

  lemma FeedPadded(c: BlockCipher, p: Padding, iv: Block, m: seq<Octet>)
    requires |m| % 16 == 0 && m != [] && p != NoPadding
    ensures var y := Chain(c, Decrypt, iv, m);
            var (out, s) := Feed(Config(c, Decrypt, p), State(iv, []), m);
            |s.pending| == 16 && out == y[..|y| - 16]
            && Conclude(Config(c, Decrypt, p), s) ==
                 match Unpad(p, LastBlock(y))
                 case None => Err(ERR_INVALID_PADDING)
                 case Some(n) => Ok(LastBlock(y)[..n])
  {
    hide Chain, NextIv, Unpad, Feed;
    var k := |m| - 16;
    assert m == m[..k] + m[k..];
    ChainSplit(c, Decrypt, iv, m[..k], m[k..]);
    HeldBack(c, p, iv, m);
  }

  /** All but the last block is processed. */
  lemma HeldBack(c: BlockCipher, p: Padding, iv: Block, m: seq<Octet>)
    requires |m| % 16 == 0 && m != [] && p != NoPadding
    ensures var k := |m| - 16;
            Feed(Config(c, Decrypt, p), State(iv, []), m)
            == (Chain(c, Decrypt, iv, m[..k]), State(NextIv(c, Decrypt, iv, m[..k]), m[k..]))
  {
    hide Chain, NextIv;
    assert [] + m == m;
  }

  function LastBlock(y: seq<Octet>): Block
    requires |y| >= 16
  {
    y[|y| - 16..]
  }

  /** The round trip over any division of the message and any division of the ciphertext: it gives
      the message back, except that zero padding swallows zeros at the end of an incomplete block. */
  lemma RoundTrip(c: BlockCipher, p: Padding, iv: Block, chunks: seq<seq<Octet>>, pieces: seq<seq<Octet>>)
    requires Permutation(c)
    requires Run(Config(c, Encrypt, p), iv, chunks) == Ok(Concat(pieces))
    ensures Run(Config(c, Decrypt, p), iv, pieces) == Ok(Concat(chunks)) <==> Recoverable(p, Tail(Concat(chunks)))
  {
    hide Chain, NextIv, Unpad, Run, Recoverable, Pad, PaddedMessage, Tail, Joined, Concat, LastBlock;
    var m := Concat(chunks);
    var z := PaddedMessage(p, m);
    EncryptionRun(c, p, iv, chunks);
    Unpadded(m);
    ChainInverse(c, iv, z);
    DecryptionRun(c, p, iv, pieces);
    if p == NoPadding {
      TailPlain(m);
    } else {
      ReadOff(p, m);
    }
  }

  /** Reading the padding off the padded message gives the message, exactly for recoverable tails. */
  lemma ReadOff(p: Padding, m: seq<Octet>)
    requires p != NoPadding
    ensures var z := PaddedMessage(p, m);
            (match Unpad(p, LastBlock(z)) case None => false case Some(n) => z[..|z| - 16] + LastBlock(z)[..n] == m)
            <==> Recoverable(p, Tail(m))
  {
    hide Unpad, Recoverable, Pad, PaddedMessage, Tail, Joined, LastBlock;
    PaddedParts(p, m);
    UnpadPad(p, Tail(m));
    Recovered(p, m);
  }

  lemma Unpadded(m: seq<Octet>)
    ensures PaddedMessage(NoPadding, m) == m
  {}

  /** Taking n octets of the last block gives the message back for the right n only. */
  lemma Recovered(p: Padding, m: seq<Octet>)
    requires p != NoPadding
    ensures var z := PaddedMessage(p, m);
            forall n: nat :: n <= 16 ==> (z[..|z| - 16] + LastBlock(z)[..n] == m <==> n == |Tail(m)|)
  {
    hide Pad, PaddedMessage;
    PaddedParts(p, m);
    var z := PaddedMessage(p, m);
    forall n: nat | n <= 16 ensures z[..|z| - 16] + LastBlock(z)[..n] == m <==> n == |Tail(m)| {
      if n == |Tail(m)| {
        assert LastBlock(z)[..n] == Tail(m);
      } else {
        assert |z[..|z| - 16] + LastBlock(z)[..n]| != |m|;
      }
    }
  }

  lemma TailPlain(m: seq<Octet>)
    ensures Recoverable(NoPadding, Tail(m))
  {}

  // ----- the context -----

  /** Too little for a block: everything stays pending. */
  lemma FeedCached(g: Config, s: State, input: seq<Octet>)
    requires Ready(g, |s.pending| + |input|) == 0
    ensures Feed(g, s, input) == ([], State(s.iv, s.pending + input))
  {
    assert (s.pending + input)[0..] == s.pending + input;
  }

  /** One block made up from what was pending, whole blocks straight from the input, and what is
      kept for later. */
  lemma FeedParts(g: Config, s: State, input: seq<Octet>, n: nat, m: nat)
    requires n <= n + m <= |input| && (|s.pending| + n) % 16 == 0 && m % 16 == 0
    requires Ready(g, |s.pending| + |input|) == |s.pending| + n + m
    ensures var x, y := s.pending + input[..n], input[n..n + m];
            var iv' := NextIv(g.cipher, g.mode, s.iv, x);
            Feed(g, s, input) == (Chain(g.cipher, g.mode, s.iv, x) + Chain(g.cipher, g.mode, iv', y),
                                  State(NextIv(g.cipher, g.mode, iv', y), input[n + m..]))
  {
    hide Chain, NextIv, Ready;
    var all, x, y := s.pending + input, s.pending + input[..n], input[n..n + m];
    assert all[..|s.pending| + n + m] == x + y && all[|s.pending| + n + m..] == input[n + m..];
    ChainSplit(g.cipher, g.mode, s.iv, x, y);
  }

  lemma ReadyParts(g: Config, pending: nat, n: nat)
    requires pending <= 16 && Ready(g, pending) == 0 && Ready(g, pending + n) > 0
    ensures var ip: nat := if pending == 0 then 0 else 16 - pending;
            ip <= n && (pending + ip) % 16 == 0 && pending + n >= 16
            && Ready(g, n - ip) % 16 == 0 && ip + Ready(g, n - ip) <= n
            && pending + ip + Ready(g, n - ip) == Ready(g, pending + n)
  {}

  lemma ReadyKeeps(g: Config, n: nat)
    ensures var kept := if n != 0 && n % 16 == 0 && g.mode == Decrypt && g.padding != NoPadding then 16 else n % 16;
            Ready(g, n) == n - kept && Ready(g, kept) == 0
  {}

  lemma ChainNothing(g: Config, iv: Block)
    ensures Chain(g.cipher, g.mode, iv, []) == [] && NextIv(g.cipher, g.mode, iv, []) == iv
  {}

  class CipherContext {
    const cipher: BlockCipher
    const mode: Mode
    const padding: Padding
    const iv: array<Octet>
    const unprocessed: array<Octet>
    var unprocessedLen: nat

    function Settings(): Config {
      Config(cipher, mode, padding)
    }

    ghost predicate Valid()
      reads this
    {
      iv.Length == 16 && unprocessed.Length == 16 && iv != unprocessed
      && unprocessedLen <= 16 && Ready(Settings(), unprocessedLen) == 0
    }

    ghost function Contents(): (s: State)
      requires Valid()
      reads this, iv, unprocessed
      ensures Settled(Settings(), s) && |s.pending| <= 16
    {
      State(iv[..], unprocessed[..unprocessedLen])
    }

    /** After the key, the padding mode and the initialisation vector have been set. */
    constructor (cipher: BlockCipher, mode: Mode, padding: Padding, start: Block)
      ensures Valid() && Contents() == State(start, []) && Settings() == Config(cipher, mode, padding)
      ensures fresh(iv) && fresh(unprocessed)
    {
      this.cipher, this.mode, this.padding := cipher, mode, padding;
      iv := new Octet[16](i requires 0 <= i < 16 => start[i]);
      unprocessed := new Octet[16];
      unprocessedLen := 0;
      new;
      assert iv[..] == start;
    }

    /** memcpy of input octets behind the pending ones. */
    method Cache(at: nat, input: array<Octet>, from: nat, n: nat)
      requires Valid() && at + n <= 16 && from + n <= input.Length && input != unprocessed
      modifies unprocessed
      ensures unprocessed[..at] == old(unprocessed[..at]) && unprocessed[at..at + n] == input[from..from + n]
    {
      for i := 0 to n
        invariant forall k :: 0 <= k < at ==> unprocessed[k] == old(unprocessed[k])
        invariant unprocessed[at..at + i] == input[from..from + i]
      {
        unprocessed[at + i] := input[from + i];
      }
    }

    /** Caching the octets an update leaves over: the incomplete block at the end; when decrypting
        with padding, a complete one if there is no incomplete one. */
    method CacheRest(input: array<Octet>, ip: nat, ilen: nat) returns (left: nat)
      requires iv.Length == 16 && unprocessed.Length == 16 && iv != unprocessed && unprocessedLen == 0
      requires ip <= ilen <= input.Length && input != unprocessed
      modifies this`unprocessedLen, unprocessed
      ensures left == Ready(Settings(), ilen - ip)
      ensures Valid() && unprocessed[..unprocessedLen] == input[ip + left..ilen]
    {
      hide Ready;
      left := ilen - ip;
      ReadyKeeps(Settings(), left);
      if left != 0 {
        var copyLen := left % 16;
        if copyLen == 0 && mode == Decrypt && padding != NoPadding {
          copyLen := 16;
        }
        Cache(0, input, ilen - copyLen, copyLen);
        unprocessedLen := unprocessedLen + copyLen;
        left := left - copyLen;
      }
    }

    /** The second half of an update, nothing being pending: the last, incomplete block is cached
        (when decrypting with padding, a complete one too), the whole blocks before it processed. */
    method UpdateRest(input: array<Octet>, ip: nat, ilen: nat, output: array<Octet>, olen: nat) returns (olen': nat)
      requires Valid() && unprocessedLen == 0 && ip <= ilen <= input.Length
      requires olen + Ready(Settings(), ilen - ip) <= output.Length && (input == output ==> ip == olen)
      requires iv != input && iv != output && unprocessed != input && unprocessed != output
      modifies this`unprocessedLen, iv, unprocessed, output
      ensures Valid()
      ensures var k := Ready(Settings(), ilen - ip);
        var y := old(input[ip..ip + k]);
        olen' == olen + k
        && output[..] == Splice(old(output[..]), olen, Chain(cipher, mode, old(iv[..]), y))
        && Contents() == State(NextIv(cipher, mode, old(iv[..]), y), old(input[ip + k..ilen]))
    {
      hide Chain, NextIv, Splice;
      ghost var k := Ready(Settings(), ilen - ip);
      ghost var kept := input[ip + k..ilen];
      olen' := olen;
      var left := CacheRest(input, ip, ilen);
      assert unprocessed[..unprocessedLen] == kept;
      if left != 0 {
        var _ := CryptCbc(cipher, mode, left, iv, input, ip, output, olen);
        olen' := olen + left;
      } else {
        ChainNothing(Settings(), iv[..]);
        SpliceNoneAt(output[..], olen);
      }
    }

    /** The first half: octets of the input complete what is pending, if anything is. */
    method UpdateFirst(input: array<Octet>, ilen: nat, output: array<Octet>) returns (ip: nat, olen: nat)
      requires Valid() && ilen <= input.Length && unprocessedLen + ilen >= 16
      requires unprocessedLen != 0 ==> 16 <= output.Length && input != output
      requires iv != input && iv != output && unprocessed != input && unprocessed != output
      modifies this`unprocessedLen, iv, unprocessed, output
      ensures Valid() && unprocessedLen == 0
      ensures ip == if old(unprocessedLen) == 0 then 0 else 16 - old(unprocessedLen)
      ensures var x := old(Contents()).pending + old(input[..ip]);
        olen == |x| && output[..] == Splice(old(output[..]), 0, Chain(cipher, mode, old(iv[..]), x))
        && iv[..] == NextIv(cipher, mode, old(iv[..]), x)
      ensures old(unprocessedLen) == 0 ==> output[..] == old(output[..])
    {
      hide Chain, NextIv, Splice;
      ip, olen := 0, 0;
      if unprocessedLen != 0 {
        ip := 16 - unprocessedLen;
        Cache(unprocessedLen, input, 0, ip);
        assert unprocessed[0..16] == old(Contents()).pending + input[..ip];
        var _ := CryptCbc(cipher, mode, 16, iv, unprocessed, 0, output, 0);
        olen := 16;
        unprocessedLen := 0;
      } else {
        ChainNothing(Settings(), iv[..]);
        SpliceNone(output[..]);
        assert old(Contents()).pending + input[..ip] == [];
      }
    }

    method UpdateBlocks(input: array<Octet>, ilen: nat, output: array<Octet>) returns (olen: nat)
      requires Valid() && ilen <= input.Length && Ready(Settings(), unprocessedLen + ilen) <= output.Length
      requires Ready(Settings(), unprocessedLen + ilen) > 0 && (input == output ==> unprocessedLen == 0)
      requires iv != input && iv != output && unprocessed != input && unprocessed != output
      modifies this`unprocessedLen, iv, unprocessed, output
      ensures Valid()
      ensures var (out, s) := Feed(Settings(), old(Contents()), old(input[..ilen]));
        olen == |out| && output[..] == Splice(old(output[..]), 0, out) && Contents() == s
    {
      hide Chain, NextIv, Feed, Splice, Ready;
      ghost var g, s, out, m := Settings(), Contents(), output[..], input[..ilen];
      ReadyParts(g, unprocessedLen, ilen);
      var ip: nat;
      ip, olen := UpdateFirst(input, ilen, output);
      ghost var k := Ready(g, ilen - ip);
      ghost var x, y := s.pending + m[..ip], m[ip..ip + k];
      SliceOfPrefix(old(input[..]), ilen, 0, ip);
      SliceOfPrefix(old(input[..]), ilen, ip, ip + k);
      SliceOfPrefix(old(input[..]), ilen, ip + k, ilen);
      assert m[..ip] == old(input[..ip]) && input[ip..ip + k] == y && input[ip + k..ilen] == m[ip + k..];
      FeedParts(g, s, m, ip, k);
      SpliceNextAt(out, 0, Chain(cipher, mode, s.iv, x), Chain(cipher, mode, iv[..], y));
      olen := UpdateRest(input, ip, ilen, output, olen);
    }

    /** mbedtls_cipher_update in CBC mode. Input and output are separate buffers or the same one. */
    method Update(input: array<Octet>, ilen: nat, output: array<Octet>) returns (ret: int, olen: nat)
      requires Valid() && ilen <= input.Length && Ready(Settings(), unprocessedLen + ilen) <= output.Length
      requires iv != input && iv != output && unprocessed != input && unprocessed != output
      modifies this`unprocessedLen, iv, unprocessed, output
      ensures Valid()
      ensures ret == if input == output && (old(unprocessedLen) != 0 || ilen % 16 != 0) then ERR_BAD_INPUT_DATA else 0
      ensures ret != 0 ==> olen == 0 && Contents() == old(Contents()) && output[..] == old(output[..])
      ensures ret == 0 ==>
        var (out, s) := Feed(Settings(), old(Contents()), old(input[..ilen]));
        olen == |out| && output[..] == Splice(old(output[..]), 0, out) && Contents() == s
    {
      hide Chain, NextIv, Feed, Splice;
      if input == output && (unprocessedLen != 0 || ilen % 16 != 0) {
        return ERR_BAD_INPUT_DATA, 0;
      }
      ghost var s, m := Contents(), input[..ilen];
      if (mode == Decrypt && padding != NoPadding && ilen <= 16 - unprocessedLen)
         || (mode == Decrypt && padding == NoPadding && ilen < 16 - unprocessedLen)
         || (mode == Encrypt && ilen < 16 - unprocessedLen)
      {
        Cache(unprocessedLen, input, 0, ilen);
        unprocessedLen := unprocessedLen + ilen;
        FeedCached(Settings(), s, m);
        SpliceNone(output[..]);
        assert unprocessed[..unprocessedLen] == s.pending + m;
        return 0, 0;
      }
      olen := UpdateBlocks(input, ilen, output);
      ret := 0;
    }

    /** The block in hand through the cipher. */
    method LastInto(output: array<Octet>)
      requires iv.Length == 16 && unprocessed.Length == 16 && iv != unprocessed
      requires output.Length >= 16 && output != iv && output != unprocessed
      modifies iv, output
      ensures output[..16] == Chain(cipher, mode, old(iv[..]), old(unprocessed[..]))
      ensures output[16..] == old(output[16..])
    {
      hide Chain, NextIv;
      assert unprocessed[0..16] == unprocessed[..];
      var _ := CryptCbc(cipher, mode, 16, iv, unprocessed, 0, output, 0);
    }

    /** mbedtls_cipher_finish in CBC mode: the last block, padded or with its padding removed. */
    method Finish(output: array<Octet>) returns (ret: int, olen: nat)
      requires Valid() && output.Length >= 16 && output != iv && output != unprocessed
      modifies iv, unprocessed, output
      ensures Valid()
      ensures match Conclude(Settings(), old(Contents()))
              case Ok(last) => ret == 0 && olen == |last| && output[..olen] == last
              case Err(code) => ret == code
      ensures output[16..] == old(output[16..])
    {
      hide Chain, NextIv;
      olen := 0;
      if mode == Encrypt {
        if padding == NoPadding {
          if unprocessedLen != 0 {
            return ERR_FULL_BLOCK_EXPECTED, 0;
          }
          return 0, 0;
        }
        AddPadding(padding, unprocessed, unprocessedLen);
      } else if unprocessedLen != 16 {
        if padding == NoPadding && unprocessedLen == 0 {
          return 0, 0;
        }
        return ERR_FULL_BLOCK_EXPECTED, 0;
      }
      assert mode == Decrypt ==> unprocessed[..] == old(Contents()).pending;
      LastInto(output);
      if mode == Decrypt {
        ret, olen := GetPadding(padding, output);
        return;
      }
      return 0, 16;
    }
  }

  /** A whole run, as a caller makes it: updates with the chunks in turn, then finish. */
  method ProcessChunks(ctx: CipherContext, chunks: seq<seq<Octet>>) returns (r: Result)
    requires ctx.Valid() && ctx.unprocessedLen == 0
    modifies ctx, ctx.iv, ctx.unprocessed
    ensures ctx.Valid() && r == Run(ctx.Settings(), old(ctx.iv[..]), chunks)
  {
    hide Feed, FeedAll, Conclude, Ready, Settled, Splice;
    ghost var g, s := ctx.Settings(), ctx.Contents();
    ghost var iv0 := ctx.iv[..];
    assert s == State(iv0, []);
    var done := [];
    FeedNone(g, s);
    assert chunks[..0] == [];
    for i := 0 to |chunks|
      invariant ctx.Valid()
      invariant (done, ctx.Contents()) == FeedAll(g, s, chunks[..i])
    {
      var buf := Buffer(chunks[i]);
      var output := new Octet[|chunks[i]| + 16];
      ghost var before := output[..];
      var ret, olen := ctx.Update(buf, |chunks[i]|, output);
      FeedNext(g, s, chunks, i);
      assert buf[..|chunks[i]|] == chunks[i];
      FeedSize(g, FeedAll(g, s, chunks[..i]).1, chunks[i]);
      SpliceReads(before, 0, Feed(g, FeedAll(g, s, chunks[..i]).1, chunks[i]).0, 0);
      done := done + output[..olen];
    }
    assert chunks[..|chunks|] == chunks;
    RunIs(g, iv0, chunks, done, ctx.Contents());
    var output := new Octet[16];
    var ret, olen := ctx.Finish(output);
    if ret == 0 {
      r := Ok(done + output[..olen]);
    } else {
      r := Err(ret);
    }
  }

  lemma RunIs(g: Config, iv: Block, chunks: seq<seq<Octet>>, out: seq<Octet>, s: State)
    requires (out, s) == FeedAll(g, State(iv, []), chunks) && |s.pending| <= 16
    ensures Run(g, iv, chunks) == match Conclude(g, s) case Ok(last) => Ok(out + last) case Err(code) => Err(code)
    ensures match Conclude(g, s) case Ok(last) => |last| <= 16 case Err(code) => code != 0
  {
    hide FeedAll, Chain, Unpad;
  }

  lemma FeedSize(g: Config, s: State, input: seq<Octet>)
    ensures |Feed(g, s, input).0| == Ready(g, |s.pending| + |input|)
  {
    hide Chain, NextIv, Ready;
  }

  lemma FeedNone(g: Config, s: State)
    ensures FeedAll(g, s, []) == ([], s)
  {}

  lemma {:induction false} FeedNext(g: Config, s: State, chunks: seq<seq<Octet>>, i: nat)
    requires i < |chunks|
    ensures var (out, t) := FeedAll(g, s, chunks[..i]); var (more, u) := Feed(g, t, chunks[i]);
            FeedAll(g, s, chunks[..i + 1]) == (out + more, u)
    decreases i
  {
    hide Feed;
    if i == 0 {
      var (x, t) := Feed(g, s, chunks[0]);
      FeedNone(g, s);
      FeedNone(g, t);
      assert chunks[..0] == [] && chunks[..1][1..] == [] && chunks[..1][0] == chunks[0];
      assert [] + x == x == x + [];
    } else {
      var (x, t) := Feed(g, s, chunks[0]);
      FeedNext(g, t, chunks[1..], i - 1);
      var (y, u) := FeedAll(g, t, chunks[1..][..i - 1]);
      var (z, _) := Feed(g, u, chunks[i]);
      assert (x + y) + z == x + (y + z);
      assert chunks[1..][i - 1] == chunks[i];
      assert chunks[..i + 1][1..] == chunks[1..][..i] && chunks[..i][1..] == chunks[1..][..i - 1];
    }
  }
}
