/** The ChaCha20 stream cipher (RFC 7539): rounds in place on sixteen words, and the buffered
    update that hands out key stream across calls of any size. */
module ChaCha20 {
  import opened Octets
  import opened Keystream

  type Words = s: seq<bv32> | |s| == 16 witness seq(16, _ => 0)

  const CTR_INDEX := 12

  // ----- the block function of section 2.3 -----

  function Rotl(v: bv32, n: nat): bv32
    requires 0 < n < 32
  {
    (v << n) | (v >> (32 - n))
  }

  function Plus(a: bv32, b: bv32): bv32 {
    a + b
  }

  function Turn(d: bv32, a: bv32, n: nat): bv32
    requires 0 < n < 32
  {
    Rotl(d ^ a, n)
  }

  /** Section 2.1, on four words. */
  function Quarter(a: bv32, b: bv32, c: bv32, d: bv32): (bv32, bv32, bv32, bv32) {
    var a1 := Plus(a, b); var d1 := Turn(d, a1, 16);
    var c1 := Plus(c, d1); var b1 := Turn(b, c1, 12);
    var a2 := Plus(a1, b1); var d2 := Turn(d1, a2, 8);
    var c2 := Plus(c1, d2); var b2 := Turn(b1, c2, 7);
    (a2, b2, c2, d2)
  }

  predicate Distinct(i: nat, j: nat, k: nat, l: nat) {
    i < 16 && j < 16 && k < 16 && l < 16 && i != j && i != k && i != l && j != k && j != l && k != l
  }

  function QuarterAt(s: Words, i: nat, j: nat, k: nat, l: nat): Words
    requires Distinct(i, j, k, l)
  {
    var (a, b, c, d) := Quarter(s[i], s[j], s[k], s[l]);
    s[i := a][j := b][k := c][l := d]
  }

  function DoubleRound(s: Words): Words {
    var c0 := QuarterAt(s, 0, 4, 8, 12);
    var c1 := QuarterAt(c0, 1, 5, 9, 13);
    var c2 := QuarterAt(c1, 2, 6, 10, 14);
    var c3 := QuarterAt(c2, 3, 7, 11, 15);
    var d0 := QuarterAt(c3, 0, 5, 10, 15);
    var d1 := QuarterAt(d0, 1, 6, 11, 12);
    var d2 := QuarterAt(d1, 2, 7, 8, 13);
    QuarterAt(d2, 3, 4, 9, 14)
  }

  function Rounds(s: Words, n: nat): Words {
    if n == 0 then s else DoubleRound(Rounds(s, n - 1))
  }

  function Serialize(s: seq<bv32>): (r: seq<Octet>)
    ensures |r| == 4 * |s|
  {
    if s == [] then [] else Serialize(s[..|s| - 1]) + WordOctets(s[|s| - 1])
  }

  function Octet0(w: bv32): Octet { (w & 0xff) as Octet }
  function Octet1(w: bv32): Octet { ((w >> 8) & 0xff) as Octet }
  function Octet2(w: bv32): Octet { ((w >> 16) & 0xff) as Octet }
  function Octet3(w: bv32): Octet { ((w >> 24) & 0xff) as Octet }

  function WordOctets(w: bv32): (r: seq<Octet>)
    ensures |r| == 4
  {
    [Octet0(w), Octet1(w), Octet2(w), Octet3(w)]
  }

  function Sum(s: seq<bv32>, t: seq<bv32>): (r: seq<bv32>)
    requires |s| == |t|
    ensures |r| == |s|
  {
    seq(|s|, i requires 0 <= i < |s| => Plus(s[i], t[i]))
  }

  function KeyBlock(s: Words): (r: seq<Octet>)
    ensures |r| == 64
  {
    Serialize(Sum(Rounds(s, 10), s))
  }

  lemma KeyBlockIs(s: Words)
    ensures KeyBlock(s) == Serialize(Sum(Rounds(s, 10), s))
  {}

  /** The state for block j: the 32-bit counter word advanced j times, wrapping. */
  function Ahead(s: Words, j: nat): Words {
    if j == 0 then s else Bump(Ahead(s, j - 1))
  }

  function Bump(s: Words): Words {
    s[CTR_INDEX := Succ(s[CTR_INDEX])]
  }

  function Weight(b: Octet): nat { b as nat }

  /** The number a word stands for, by octets. */
  function Number(w: bv32): nat {
    Weight(Octet0(w)) + 0x100 * Weight(Octet1(w)) + 0x1_0000 * Weight(Octet2(w)) + 0x100_0000 * Weight(Octet3(w))
  }

  lemma {:induction false} AheadValue(s: Words, j: nat)
    ensures forall i :: 0 <= i < 16 && i != CTR_INDEX ==> Ahead(s, j)[i] == s[i]
    ensures Number(Ahead(s, j)[CTR_INDEX]) == (Number(s[CTR_INDEX]) + j) % 0x1_0000_0000
  {
    hide Number, Succ;
    if j == 0 {
      NumberNext(s[CTR_INDEX]);
    } else {
      AheadValue(s, j - 1);
      NumberNext(Ahead(s, j - 1)[CTR_INDEX]);
    }
  }

  lemma NumberNext(w: bv32)
    ensures Number(w) < 0x1_0000_0000
    ensures Number(Succ(w)) == if Number(w) == 0xffff_ffff then 0 else Number(w) + 1
  {
    hide Octet0, Octet1, Octet2, Octet3, Weight, Full, OctetSucc, Succ;
    Succ0(w);
    Succ1(w);
    Succ2(w);
    Succ3(w);
    OctetNext(Octet0(w));
    OctetNext(Octet1(w));
    OctetNext(Octet2(w));
    OctetNext(Octet3(w));
  }

  function Succ(w: bv32): bv32 { w + 1 }
  function OctetSucc(b: Octet): Octet { b + 1 }
  predicate Full(b: Octet) { b == 255 }

  lemma OctetNext(b: Octet)
    ensures Weight(OctetSucc(b)) == if Full(b) then 0 else Weight(b) + 1
    ensures Weight(b) <= 255 && (Weight(b) == 255 <==> Full(b))
  {}

  lemma Succ0(w: bv32)
    ensures Octet0(Succ(w)) == OctetSucc(Octet0(w))
  {}

  lemma Succ1(w: bv32)
    ensures Octet1(Succ(w)) == if Full(Octet0(w)) then OctetSucc(Octet1(w)) else Octet1(w)
  {}

  lemma Succ2(w: bv32)
    ensures Octet2(Succ(w)) == if Full(Octet0(w)) && Full(Octet1(w)) then OctetSucc(Octet2(w)) else Octet2(w)
  {}

  lemma Succ3(w: bv32)
    ensures Octet3(Succ(w)) ==
      if Full(Octet0(w)) && Full(Octet1(w)) && Full(Octet2(w)) then OctetSucc(Octet3(w)) else Octet3(w)
  {}

  lemma {:induction false} AheadOne(s: Words, j: nat)
    ensures Ahead(Bump(s), j) == Ahead(s, j + 1)
  {
    hide Bump;
    if j > 0 {
      AheadOne(s, j - 1);
    }
  }

  function Blocks(s: Words): nat -> seq<Octet> {
    (j: nat) => KeyBlock(Ahead(s, j))
  }

  // ----- the rounds in place -----

  /** x += y; z ^= x; z <<<= n. */
  method Step(state: array<bv32>, x: nat, y: nat, z: nat, n: nat)
    requires state.Length == 16 && x < 16 && y < 16 && z < 16 && x != y && x != z && y != z && 0 < n < 32
    modifies state
    ensures state[x] == Plus(old(state[x]), old(state[y])) && state[z] == Turn(old(state[z]), state[x], n)
    ensures forall i :: 0 <= i < 16 && i != x && i != z ==> state[i] == old(state[i])
  {
    state[x] := Plus(state[x], state[y]);
    state[z] := state[z] ^ state[x];
    state[z] := Rotl(state[z], n);
  }

  method QuarterRound(state: array<bv32>, a: nat, b: nat, c: nat, d: nat)
    requires state.Length == 16 && Distinct(a, b, c, d)
    modifies state
    ensures state[..] == QuarterAt(old(state[..]), a, b, c, d)
  {
    hide Plus, Turn;
    Step(state, a, b, d, 16);
    Step(state, c, d, b, 12);
    Step(state, a, b, d, 8);
    Step(state, c, d, b, 7);
  }

  method InnerBlock(state: array<bv32>)
    requires state.Length == 16
    modifies state
    ensures state[..] == DoubleRound(old(state[..]))
  {
    hide QuarterAt;
    QuarterRound(state, 0, 4, 8, 12);
    QuarterRound(state, 1, 5, 9, 13);
    QuarterRound(state, 2, 6, 10, 14);
    QuarterRound(state, 3, 7, 11, 15);
    QuarterRound(state, 0, 5, 10, 15);
    QuarterRound(state, 1, 6, 11, 12);
    QuarterRound(state, 2, 7, 8, 13);
    QuarterRound(state, 3, 4, 9, 14);
  }

  method AddInto(working: array<bv32>, initial: array<bv32>)
    requires working.Length == initial.Length && working != initial
    modifies working
    ensures working[..] == Sum(old(working[..]), initial[..])
  {
    for i := 0 to working.Length
      invariant forall k :: 0 <= k < i ==> working[k] == Plus(old(working[k]), initial[k])
      invariant forall k :: i <= k < working.Length ==> working[k] == old(working[k])
    {
      working[i] := Plus(working[i], initial[i]);
    }
  }

  method SerializeInto(working: array<bv32>, keystream: array<Octet>)
    requires keystream.Length == 4 * working.Length
    modifies keystream
    ensures keystream[..] == Serialize(working[..])
  {
    hide WordOctets;
    for i := 0 to working.Length
      invariant keystream[..4 * i] == Serialize(working[..i])
    {
      StoreNext(keystream, 4 * i, WordOctets(working[i]));
      assert working[..i + 1][..i] == working[..i];
    }
    assert working[..working.Length] == working[..] && keystream[..4 * working.Length] == keystream[..];
  }

  method GenerateBlock(initial: array<bv32>, keystream: array<Octet>)
    requires initial.Length == 16 && keystream.Length == 64
    modifies keystream
    ensures keystream[..] == KeyBlock(initial[..])
  {
    hide DoubleRound, Sum, Serialize;
    var working := new bv32[16];
    for i := 0 to 16
      invariant forall k :: 0 <= k < i ==> working[k] == initial[k]
    {
      working[i] := initial[i];
    }
    assert working[..] == initial[..];
    for i := 0 to 10
      invariant working[..] == Rounds(initial[..], i)
      modifies working
    {
      InnerBlock(working);
    }
    AddInto(working, initial);
    SerializeInto(working, keystream);
  }

  // ----- the context -----

  function LoadWord(b: seq<Octet>, i: nat): bv32
    requires i + 4 <= |b|
  {
    (b[i] as bv32) | ((b[i + 1] as bv32) << 8) | ((b[i + 2] as bv32) << 16) | ((b[i + 3] as bv32) << 24)
  }

  class Context {
    const state: array<bv32>
    const keystream: array<Octet>
    var used: nat

    ghost predicate Valid()
      reads this
    {
      state.Length == 16 && keystream.Length == 64 && used <= 64
    }

    /** The key stream still to come. */
    ghost function Stream(): (s: Stream)
      requires Valid()
      reads this, state, keystream
      ensures Good(s)
    {
      Keystream.Stream(64, keystream[..], used, Blocks(state[..]))
    }

    constructor ()
      ensures Valid() && used == 64 && fresh(state) && fresh(keystream)
    {
      state := new bv32[16];
      keystream := new Octet[64];
      used := 64;
    }

    /** mbedtls_chacha20_setkey. */
    method SetKey(key: seq<Octet>)
      requires Valid() && |key| == 32
      modifies state
      ensures state[..4] == [0x61707865, 0x3320646e, 0x79622d32, 0x6b206574]
      ensures forall i :: 0 <= i < 8 ==> state[4 + i] == LoadWord(key, 4 * i)
      ensures state[12..] == old(state[12..])
    {
      hide LoadWord;
      state[0], state[1], state[2], state[3] := 0x61707865, 0x3320646e, 0x79622d32, 0x6b206574;
      for i := 0 to 8
        invariant state[..4] == [0x61707865, 0x3320646e, 0x79622d32, 0x6b206574]
        invariant forall k :: 0 <= k < i ==> state[4 + k] == LoadWord(key, 4 * k)
        invariant state[12..] == old(state[12..])
      {
        state[4 + i] := LoadWord(key, 4 * i);
      }
    }

    /** mbedtls_chacha20_starts: the next octet comes from the block for this counter and nonce. */
    method Starts(nonce: seq<Octet>, counter: bv32)
      requires Valid() && |nonce| == 12
      modifies this, state, keystream
      ensures Valid() && used == 64
      ensures state[..] == old(state[..12]) + [counter, LoadWord(nonce, 0), LoadWord(nonce, 4), LoadWord(nonce, 8)]
    {
      hide LoadWord;
      state[12] := counter;
      state[13], state[14], state[15] := LoadWord(nonce, 0), LoadWord(nonce, 4), LoadWord(nonce, 8);
      Store(keystream, 0, seq(64, _ => 0));
      used := 64;
    }

    /** A new key stream block, counter advanced. */
    method Refill()
      requires Valid() && used == 64
      modifies state, keystream
      ensures After(old(Stream()), 0, Stream().(used := 0))
    {
      hide Bump, KeyBlock, Blocks;
      ghost var s := state[..];
      ghost var before := Stream();
      GenerateBlock(state, keystream);
      state[CTR_INDEX] := state[CTR_INDEX] + 1;
      assert state[..] == Bump(s) by { BumpIs(s); }
      forall j: nat ensures Blocks(Bump(s))(j) == Blocks(s)(j + 1) {
        BlocksShift(s, j);
      }
      FirstBlock(s);
      Generate(before, Blocks(Bump(s)));
    }

    /** mbedtls_chacha20_update: what is left of the current block, whole blocks, a partial one.
        Input and output are separate buffers or the same one. */
    method Update(size: nat, input: array<Octet>, output: array<Octet>)
      requires Valid() && size <= input.Length && size <= output.Length
      requires keystream != input && keystream != output
      modifies this, state, keystream, output
      ensures Valid()
      ensures After(old(Stream()), size, Stream())
      ensures output[..] == Splice(old(output[..]), 0, Mask(old(Stream()), old(input[..size])))
    {
      hide After, Good, At, Mask, Splice, Blocks, Xor;
      ghost var s, out, m := Stream(), output[..], input[..size];
      StartMask(s, m, out);
      var offset, left := 0, size;
      while left > 0 && used < 64
        invariant offset + left == size && Valid()
        invariant After(s, offset, Stream())
        invariant output[..] == Splice(out, 0, Mask(s, m[..offset]))
        modifies this, output
      {
        ghost var t := Stream();
        MoreMask(s, t, m, offset, out);
        NextOctet(t);
        output[offset] := input[offset] ^ keystream[used];
        used := used + 1;
        offset := offset + 1;
        left := left - 1;
        Use(t, 1);
        AfterCompose(s, offset - 1, t, 1, Stream());
      }
      while left >= 64
        invariant offset + left == size && Valid() && (left > 0 ==> used == 64)
        invariant After(s, offset, Stream())
        invariant output[..] == Splice(out, 0, Mask(s, m[..offset]))
        modifies state, keystream, output
      {
        XorBlock(s, out, m, offset, 64, input, output);
        offset := offset + 64;
        left := left - 64;
      }
      if left > 0 {
        XorBlock(s, out, m, offset, left, input, output);
        used := left;
      }
    }

    /** A new block, the next n octets masked with its head. */
    method XorBlock(ghost s: Keystream.Stream, ghost out: seq<Octet>, ghost m: seq<Octet>, offset: nat, n: nat,
                    input: array<Octet>, output: array<Octet>)
      requires Valid() && used == 64 && n <= 64 && offset + n <= |m| <= input.Length && |m| <= output.Length == |out|
      requires keystream != input && keystream != output
      requires After(s, offset, Stream())
      requires output[..] == Splice(out, 0, Mask(s, m[..offset]))
      requires input != output ==> input[..|m|] == m
      requires input == output ==> m == out[..|m|]
      modifies state, keystream, output
      ensures After(s, offset + n, Stream().(used := n))
      ensures output[..] == Splice(out, 0, Mask(s, m[..offset + n]))
    {
      hide After, Good, At, Mask, Splice, Blocks, Xor;
      ghost var t0 := Stream();
      Refill();
      ghost var t := Stream().(used := 0);
      AfterCompose(s, offset, t0, 0, t);
      MoreMaskMany(s, t, m, offset, n, out);
      MaskSource(s, m, offset, n, out);
      SliceOfPrefix(input[..], |m|, offset, offset + n);
      XorInto(output, offset, input, offset, n, keystream[..]);
      Use(t, n);
      AfterCompose(s, offset, t, n, Stream().(used := n));
    }
  }

  lemma BumpIs(s: Words)
    ensures Bump(s) == s[CTR_INDEX := s[CTR_INDEX] + 1]
  {}

  lemma FirstBlock(s: Words)
    ensures Blocks(s)(0) == KeyBlock(s)
  {}

  lemma BlocksShift(s: Words, j: nat)
    ensures Blocks(Bump(s))(j) == Blocks(s)(j + 1)
  {
    AheadOne(s, j);
  }

  /** Section 2.4 of RFC 7539 for any sequence of updates after a start: octet k of the output is
      octet k of the message under octet k mod 64 of the block whose counter is the first one plus
      k / 64, modulo 2^32. */
  lemma CounterLaw(state: Words, block: seq<Octet>, streams: seq<Keystream.Stream>, chunks: seq<seq<Octet>>, k: nat)
    requires |block| == 64 && Run(streams, chunks) && k < |Concat(chunks)|
    requires streams[0] == Keystream.Stream(64, block, 64, Blocks(state))
    ensures |Outputs(streams, chunks)| == |Concat(chunks)|
    ensures var input := Ahead(state, k / 64);
            Outputs(streams, chunks)[k] == Concat(chunks)[k] ^ KeyBlock(input)[k % 64]
            && Number(input[CTR_INDEX]) == (Number(state[CTR_INDEX]) + k / 64) % 0x1_0000_0000
  {
    hide Run, Outputs, Ahead, Number, KeyBlock, Good;
    GoodStart(streams, chunks);
    RunPosition(streams, chunks, k);
    AheadValue(state, k / 64);
  }

  lemma GoodStart(streams: seq<Keystream.Stream>, chunks: seq<seq<Octet>>)
    requires Run(streams, chunks)
    ensures Good(streams[0])
  {}

  /** That sequence of updates, as a caller makes them, each chunk in place. */
  method UpdateChunks(ctx: Context, chunks: seq<seq<Octet>>) returns (out: seq<Octet>)
    requires ctx.Valid() && ctx.used == 64
    modifies ctx, ctx.state, ctx.keystream
    ensures ctx.Valid() && |out| == |Concat(chunks)|
    ensures forall k: nat :: k < |out| ==> out[k] == Concat(chunks)[k] ^ KeyBlock(Ahead(old(ctx.state[..]), k / 64))[k % 64]
  {
    hide After, Good, At, Mask, Blocks, Ahead, KeyBlock, Splice;
    ghost var state, s := ctx.state[..], ctx.Stream();
    out := [];
    StartRun(s);
    assert chunks[..0] == [];
    for i := 0 to |chunks|
      invariant ctx.Valid() && After(s, |Concat(chunks[..i])|, ctx.Stream())
      invariant Good(s) && out == Mask(s, Concat(chunks[..i]))
    {
      ghost var t := ctx.Stream();
      var buf := Buffer(chunks[i]);
      assert buf[..|chunks[i]|] == buf[..];
      ctx.Update(|chunks[i]|, buf, buf);
      OneMore(s, chunks, i, t, ctx.Stream());
      SpliceAll(chunks[i], Mask(t, chunks[i]));
      out := out + buf[..];
    }
    assert chunks[..|chunks|] == chunks;
    forall k: nat | k < |out| ensures out[k] == Concat(chunks)[k] ^ KeyBlock(Ahead(state, k / 64))[k % 64] {
      FirstUpdate(state, s, Concat(chunks), k);
    }
  }

  lemma StartRun(s: Keystream.Stream)
    requires Good(s)
    ensures After(s, 0, s) && Mask(s, Concat([])) == []
  {}

  lemma FirstUpdate(state: Words, s: Keystream.Stream, m: seq<Octet>, k: nat)
    requires k < |m| && Good(s) && s.size == 64 && s.used == 64 && s.next == Blocks(state)
    ensures Mask(s, m)[k] == m[k] ^ KeyBlock(Ahead(state, k / 64))[k % 64]
  {
    hide Ahead, KeyBlock;
    PositionLaw(s, m, k);
  }
}
