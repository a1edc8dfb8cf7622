/** Counter mode (section 6.5 of NIST SP 800-38A) as mbedtls_aes_crypt_ctr runs it: octet by octet,
    with counter, stream block and offset kept by the caller between calls. */
module CtrMode {
  import opened Octets
  import opened Keystream

  const ERR_BAD_INPUT_DATA := -0x0021

  // ----- the counter -----

  function Value(s: seq<Octet>): nat {
    if s == [] then 0 else 256 * Value(s[..|s| - 1]) + (s[|s| - 1] as nat)
  }

  function Size(n: nat): (r: nat)
    ensures r > 0
  {
    if n == 0 then 1 else 256 * Size(n - 1)
  }

  /** The big-endian increment: carry out of an octet only when it wraps to zero. */
  function Next(s: seq<Octet>): (r: seq<Octet>)
    ensures |r| == |s|
  {
    if s == [] then []
    else
      var last := s[|s| - 1] + 1;
      (if last == 0 then Next(s[..|s| - 1]) else s[..|s| - 1]) + [last]
  }

  function Ahead(s: Block, j: nat): Block {
    if j == 0 then s else Next(Ahead(s, j - 1))
  }

  lemma {:induction false} ValueBound(s: seq<Octet>)
    ensures Value(s) < Size(|s|)
  {
    if s != [] {
      ValueBound(s[..|s| - 1]);
    }
  }

  lemma OctetNext(b: Octet)
    ensures (b + 1) as nat == if b == 255 then 0 else b as nat + 1
    ensures b + 1 == 0 <==> b == 255
  {}

  lemma ModNext(v: nat, n: nat)
    requires v < n
    ensures (v + 1) % n == if v + 1 == n then 0 else v + 1
  {}

  /** The increment adds one modulo 256^|s|. */
  lemma {:induction false} NextValue(s: seq<Octet>)
    ensures Value(Next(s)) == (Value(s) + 1) % Size(|s|)
  {
    hide Next;
    if s == [] {
      NextNothing(s);
    } else {
      var init, last := s[..|s| - 1], s[|s| - 1];
      OctetNext(last);
      NextSnoc(s);
      NextValue(init);
      ValueBound(s);
      ValueBound(init);
      ModNext(Value(s), Size(|s|));
      ModNext(Value(init), Size(|init|));
      assert Next(s)[..|s| - 1] == if last == 255 then Next(init) else init;
    }
  }

  lemma ModAgain(v: nat, j: nat, n: nat)
    requires 0 < n
    ensures (v % n + j) % n == (v + j) % n
  {
    Arith.DivUnique(v + j, n, v / n + (v % n + j) / n, (v % n + j) % n);
  }

  lemma {:induction false} AheadValue(s: Block, j: nat)
    ensures Value(Ahead(s, j)) == (Value(s) + j) % Size(16)
  {
    hide Value, Size, Next;
    if j == 0 {
      ValueBound(s);
    } else {
      AheadValue(s, j - 1);
      NextValue(Ahead(s, j - 1));
      ModAgain(Value(s) + j - 1, 1, Size(16));
    }
  }

  lemma {:induction false} AheadOne(s: Block, j: nat)
    ensures Ahead(Next(s), j) == Ahead(s, j + 1)
  {
    if j > 0 {
      AheadOne(s, j - 1);
    }
  }

  /** No counter value, hence no cipher input, recurs within 2^128 blocks. */
  lemma CountersDistinct(s: Block, i: nat, j: nat)
    requires i < j < i + Size(16)
    ensures Ahead(s, i) != Ahead(s, j)
  {
    hide Value, Size, Ahead;
    AheadValue(s, i);
    AheadValue(s, j);
    ModDistinct(Value(s) + i, Value(s) + j, Size(16));
  }

  lemma ModDistinct(v: nat, w: nat, n: nat)
    requires v < w < v + n
    ensures v % n != w % n
  {
    var r := v % n + (w - v);
    if r < n {
      Arith.DivUnique(w, n, v / n, r);
    } else {
      Arith.DivUnique(w, n, v / n + 1, r - n);
    }
  }

  // ----- the operation -----

  /** Block j of the key stream. */
  function CounterBlock(c: BlockCipher, counter: Block, j: nat): Block {
    c.encrypt(Ahead(counter, j))
  }

  function Blocks(c: BlockCipher, counter: Block): nat -> seq<Octet> {
    (j: nat) => CounterBlock(c, counter, j)
  }

  lemma BlocksShift(c: BlockCipher, counter: Block, j: nat)
    ensures Blocks(c, Next(counter))(j) == Blocks(c, counter)(j + 1)
  {
    AheadOne(counter, j);
  }

  /** What the caller's state promises: an offset of zero means that the stream block is used up. */
  ghost function StreamOf(c: BlockCipher, offset: nat, counter: Block, block: Block): (s: Stream)
    requires offset <= 15
    ensures Good(s)
  {
    Stream(16, block, if offset == 0 then 16 else offset, Blocks(c, counter))
  }

  /** What the loop does from octet i - 1 down. */
  function Carry(s: seq<Octet>, lo: nat, i: nat): seq<Octet>
    requires lo <= i <= |s|
    decreases i
  {
    if i == lo then s
    else
      var t := s[i - 1 := s[i - 1] + 1];
      if t[i - 1] != 0 then t else Carry(t, lo, i - 1)
  }

  lemma {:induction false} CarryIsNext(s: seq<Octet>, lo: nat, i: nat)
    requires lo <= i <= |s|
    ensures Carry(s, lo, i) == s[..lo] + Next(s[lo..i]) + s[i..]
    decreases i
  {
    hide Next;
    if i == lo {
      NextNothing(s[lo..i]);
    } else {
      var last := s[i - 1] + 1;
      var t := s[i - 1 := last];
      NextSnoc(s[lo..i]);
      assert s[lo..i][..i - lo - 1] == s[lo..i - 1];
      if last == 0 {
        CarryIsNext(t, lo, i - 1);
        assert t[..lo] == s[..lo] && t[lo..i - 1] == s[lo..i - 1] && t[i - 1..] == [last] + s[i..];
        Regroup(s[..lo], Next(s[lo..i - 1]), last, s[i..]);
      } else {
        Regroup(s[..lo], s[lo..i - 1], last, s[i..]);
        Pieces(s, lo, i, last);
      }
    }
  }

  lemma Regroup(a: seq<Octet>, b: seq<Octet>, x: Octet, c: seq<Octet>)
    ensures a + (b + [x]) + c == a + b + ([x] + c)
  {}

  lemma Pieces(s: seq<Octet>, lo: nat, i: nat, x: Octet)
    requires lo < i <= |s|
    ensures s[i - 1 := x] == s[..lo] + s[lo..i - 1] + ([x] + s[i..])
  {}

  lemma NextNothing(s: seq<Octet>)
    requires s == []
    ensures Next(s) == []
  {}

  lemma NextSnoc(s: seq<Octet>)
    requires s != []
    ensures var last := s[|s| - 1] + 1;
            Next(s) == (if last == 0 then Next(s[..|s| - 1]) else s[..|s| - 1]) + [last]
  {}

  /** The counter in octets lo.. incremented in place, from the last octet until one does not wrap. */
  method Increment(counter: array<Octet>, lo: nat)
    requires lo <= counter.Length
    modifies counter
    ensures counter[..] == old(counter[..lo]) + Next(old(counter[lo..]))
  {
    hide Next;
    ghost var c0 := counter[..];
    CarryIsNext(c0, lo, |c0|);
    assert c0[lo..|c0|] == c0[lo..] && c0[|c0|..] == [];
    var i := counter.Length;
    while i > lo
      invariant lo <= i <= counter.Length
      invariant Carry(c0, lo, |c0|) == Carry(counter[..], lo, i)
    {
      counter[i - 1] := counter[i - 1] + 1;
      if counter[i - 1] != 0 {
        return;
      }
      i := i - 1;
    }
  }

  /** One octet: what the loop body does to the state, and the octet it uses. */
  lemma OneOctet(c: BlockCipher, offset: nat, counter: Block, block: Block)
    requires offset <= 15
    ensures var s := StreamOf(c, offset, counter, block);
            var block' := if offset == 0 then c.encrypt(counter) else block;
            Good(s) && At(s, 0) == block'[offset]
            && After(s, 1, StreamOf(c, (offset + 1) % 16, if offset == 0 then Next(counter) else counter, block'))
  {
    hide Next, Ahead, Blocks;
    var s := StreamOf(c, offset, counter, block);
    if offset == 0 {
      var next := Blocks(c, Next(counter));
      forall j: nat ensures next(j) == s.next(j + 1) {
        BlocksShift(c, counter, j);
      }
      var t := Stream(16, s.next(0), 0, next);
      assert s.next(0) == c.encrypt(counter) by { FirstBlock(c, counter); }
      Generate(s, next);
      Use(t, 1);
      AfterCompose(s, 0, t, 1, t.(used := 1));
    } else {
      Use(s, 1);
    }
  }

  lemma FirstBlock(c: BlockCipher, counter: Block)
    ensures Blocks(c, counter)(0) == c.encrypt(counter)
  {}

  /** mbedtls_aes_crypt_ctr. Input and output are separate buffers or the same one. */
  method CryptCtr(c: BlockCipher, length: nat, offset: nat, counter: array<Octet>, block: array<Octet>,
                  input: array<Octet>, output: array<Octet>) returns (ret: int, offset': nat)
    requires counter.Length == 16 && block.Length == 16 && length <= input.Length && length <= output.Length
    requires counter != block && counter != input && counter != output && block != input && block != output
    modifies counter, block, output
    ensures ret == if offset > 15 then ERR_BAD_INPUT_DATA else 0
    ensures ret != 0 ==> offset' == offset && counter[..] == old(counter[..]) && block[..] == old(block[..]) && output[..] == old(output[..])
    ensures ret == 0 ==> offset' <= 15
    ensures ret == 0 ==>
      After(StreamOf(c, offset, old(counter[..]), old(block[..])), length, StreamOf(c, offset', counter[..], block[..]))
    ensures ret == 0 ==>
      output[..] == Splice(old(output[..]), 0, Mask(StreamOf(c, offset, old(counter[..]), old(block[..])), old(input[..length])))
  {
    hide Next, Ahead, After, Good, At, Mask, StreamOf, Splice;
    offset' := offset;
    if offset > 15 {
      return ERR_BAD_INPUT_DATA, offset;
    }
    ghost var s, out, m := StreamOf(c, offset, counter[..], block[..]), output[..], input[..length];
    var pos, left := 0, length;
    StartMask(s, m, out);
    while left > 0
      invariant 0 <= left <= length && pos == length - left && offset' <= 15
      invariant After(s, pos, StreamOf(c, offset', counter[..], block[..]))
      invariant output[..] == Splice(out, 0, Mask(s, m[..pos]))
      modifies counter, block, output
    {
      left := left - 1;
      OneOctet(c, offset', counter[..], block[..]);
      ghost var t, in0 := StreamOf(c, offset', counter[..], block[..]), input[pos];
      MoreMask(s, t, m, pos, out);
      assert counter[..0] + Next(counter[0..]) == Next(counter[..]) by { assert counter[0..] == counter[..]; }
      if offset' == 0 {
        SetBlock(block, c.encrypt(counter[..]));
        Increment(counter, 0);
      }
      output[pos] := input[pos] ^ block[offset'];
      offset' := (offset' + 1) % 16;
      pos := pos + 1;
      AfterCompose(s, pos - 1, t, 1, StreamOf(c, offset', counter[..], block[..]));
    }
    return 0, offset';
  }

  /** Section 6.5 of SP 800-38A for any sequence of calls that starts with offset 0: octet k of the
      output is octet k of the message under octet k mod 16 of the cipher of the counter block whose
      number is counter + k / 16 mod 2^128. */
  lemma CounterLaw(c: BlockCipher, counter: Block, block: Block, streams: seq<Stream>, chunks: seq<seq<Octet>>, k: nat)
    requires Run(streams, chunks) && streams[0] == StreamOf(c, 0, counter, block) && k < |Concat(chunks)|
    ensures |Outputs(streams, chunks)| == |Concat(chunks)|
    ensures var input := Ahead(counter, k / 16);
            Outputs(streams, chunks)[k] == Concat(chunks)[k] ^ c.encrypt(input)[k % 16]
            && Value(input) == (Value(counter) + k / 16) % Size(16)
  {
    hide Run, Outputs, Ahead, Value, Size, Good;
    RunPosition(streams, chunks, k);
    AheadValue(counter, k / 16);
  }

  /** That sequence of calls, as a caller makes them, each chunk in place. */
  method CryptChunks(c: BlockCipher, counter: array<Octet>, block: array<Octet>, chunks: seq<seq<Octet>>) returns (out: seq<Octet>)
    requires counter.Length == 16 && block.Length == 16 && counter != block
    modifies counter, block
    ensures |out| == |Concat(chunks)|
    ensures forall k: nat :: k < |out| ==> out[k] == Concat(chunks)[k] ^ c.encrypt(Ahead(old(counter[..]), k / 16))[k % 16]
  {
    hide After, Good, At, Mask, StreamOf, Ahead, Splice;
    ghost var start, s := counter[..], StreamOf(c, 0, counter[..], block[..]);
    var offset := 0;
    out := [];
    StartRun(c, start, block[..]);
    assert chunks[..0] == [];
    for i := 0 to |chunks|
      invariant offset <= 15 && After(s, |Concat(chunks[..i])|, StreamOf(c, offset, counter[..], block[..]))
      invariant Good(s) && out == Mask(s, Concat(chunks[..i]))
    {
      ghost var t := StreamOf(c, offset, counter[..], block[..]);
      var buf := Buffer(chunks[i]);
      assert buf[..|chunks[i]|] == buf[..];
      var ret;
      ret, offset := CryptCtr(c, |chunks[i]|, offset, counter, block, buf, buf);
      OneMore(s, chunks, i, t, StreamOf(c, offset, counter[..], block[..]));
      SpliceAll(chunks[i], Mask(t, chunks[i]));
      out := out + buf[..];
    }
    assert chunks[..|chunks|] == chunks;
    forall k: nat | k < |out| ensures out[k] == Concat(chunks)[k] ^ c.encrypt(Ahead(start, k / 16))[k % 16] {
      FirstCall(c, start, s.current, Concat(chunks), k);
    }
  }

  lemma StartRun(c: BlockCipher, counter: Block, block: Block)
    ensures var s := StreamOf(c, 0, counter, block); Good(s) && After(s, 0, s) && Mask(s, Concat([])) == []
    ensures StreamOf(c, 0, counter, block).current == block
  {
    hide Blocks, Ahead;
  }

  lemma FirstCall(c: BlockCipher, counter: Block, block: Block, m: seq<Octet>, k: nat)
    requires k < |m|
    ensures var s := StreamOf(c, 0, counter, block); Good(s) && Mask(s, m)[k] == m[k] ^ c.encrypt(Ahead(counter, k / 16))[k % 16]
  {
    hide Ahead;
    PositionLaw(StreamOf(c, 0, counter, block), m, k);
  }
}
