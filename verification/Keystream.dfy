/** Key streams cut from successive blocks. A stream in mid-block is described by the current
    block, how much of it is used, and the blocks still to be generated. */
module Keystream {
  import opened Octets
  import Arith

  /** Blocks of `size` octets; octet k of what is still to come. */
  datatype Stream = Stream(size: nat, current: seq<Octet>, used: nat, next: nat -> seq<Octet>)

  ghost predicate Good(s: Stream) {
    0 < s.size && |s.current| == s.size && s.used <= s.size && forall j: nat :: |s.next(j)| == s.size
  }

  ghost function At(s: Stream, k: nat): Octet
    requires Good(s)
  {
    var p := s.used + k;
    if p < s.size then s.current[p] else Fresh(s, p - s.size)
  }

  /** Octet k of the blocks not yet generated: octet k mod size of block k / size. */
  ghost function Fresh(s: Stream, k: nat): Octet
    requires Good(s)
  {
    s.next(k / s.size)[k % s.size]
  }

  /** t is what is left of s after n octets. */
  ghost predicate After(s: Stream, n: nat, t: Stream)
  {
    Good(s) && Good(t) && forall k: nat :: At(t, k) == At(s, n + k)
  }

  /** A message under the stream. */
  ghost function Mask(s: Stream, m: seq<Octet>): (r: seq<Octet>)
    requires Good(s)
    ensures |r| == |m|
  {
    seq(|m|, i requires 0 <= i < |m| => m[i] ^ At(s, i))
  }

  /** The position law: at a block boundary, octet k is octet k mod size of block k / size. */
  lemma PositionLaw(s: Stream, m: seq<Octet>, k: nat)
    requires Good(s) && s.used == s.size && k < |m|
    ensures Mask(s, m)[k] == m[k] ^ s.next(k / s.size)[k % s.size]
  {}

  /** Cutting a message anywhere does not matter. */
  lemma SplitIndependent(s: Stream, t: Stream, a: seq<Octet>, b: seq<Octet>)
    requires After(s, |a|, t)
    ensures Good(s) && Good(t)
    ensures Mask(s, a + b) == Mask(s, a) + Mask(t, b)
  {
    hide At, Good, After;
    Onwards(s, |a|, t, 0);
    forall i: nat | i < |b| ensures Mask(t, b)[i] == Mask(s, a + b)[|a| + i] {
      Onwards(s, |a|, t, i);
    }
    assert Mask(s, a + b)[..|a|] == Mask(s, a);
    assert Mask(s, a + b)[|a|..] == Mask(t, b);
  }

  lemma AfterCompose(s: Stream, m: nat, t: Stream, n: nat, u: Stream)
    requires After(s, m, t) && After(t, n, u)
    ensures After(s, m + n, u)
  {
    forall k: nat ensures At(u, k) == At(s, m + n + k) {
      assert At(u, k) == At(t, n + k) == At(s, m + (n + k));
    }
  }

  // ----- runs of calls -----

  /** Every call leaves the stream where the next one finds it. */
  ghost predicate Run(streams: seq<Stream>, chunks: seq<seq<Octet>>) {
    |streams| == |chunks| + 1 && Good(streams[0])
    && forall i :: 0 <= i < |chunks| ==> After(streams[i], |chunks[i]|, streams[i + 1])
  }

  /** What the calls put out. */
  ghost function Outputs(streams: seq<Stream>, chunks: seq<seq<Octet>>): seq<Octet>
    requires Run(streams, chunks)
  {
    if chunks == [] then [] else
      RunRest(streams, chunks);
      Mask(streams[0], chunks[0]) + Outputs(streams[1..], chunks[1..])
  }

  lemma RunRest(streams: seq<Stream>, chunks: seq<seq<Octet>>)
    requires Run(streams, chunks) && chunks != []
    ensures Good(streams[0]) && After(streams[0], |chunks[0]|, streams[1]) && Run(streams[1..], chunks[1..])
  {
    hide Good, At;
    assert After(streams[0], |chunks[0]|, streams[1]);
    Onwards(streams[0], |chunks[0]|, streams[1], 0);
    forall i | 0 <= i < |chunks| - 1 ensures After(streams[1..][i], |chunks[1..][i]|, streams[1..][i + 1]) {
      assert After(streams[i + 1], |chunks[i + 1]|, streams[i + 2]);
    }
  }

  /** Any sequence of calls of any sizes masks the whole message with one stream. */
  lemma {:induction false} RunIsOneCall(streams: seq<Stream>, chunks: seq<seq<Octet>>)
    requires Run(streams, chunks)
    ensures Outputs(streams, chunks) == Mask(streams[0], Concat(chunks))
    decreases |chunks|
  {
    hide Mask, After, Good;
    if chunks == [] {
      MaskEmpty(streams[0]) by { RunStart(streams, chunks); }
    } else {
      RunRest(streams, chunks);
      RunIsOneCall(streams[1..], chunks[1..]);
      SplitIndependent(streams[0], streams[1], chunks[0], Concat(chunks[1..]));
    }
  }

  lemma RunStart(streams: seq<Stream>, chunks: seq<seq<Octet>>)
    requires Run(streams, chunks)
    ensures Good(streams[0])
  {}

  lemma MaskEmpty(s: Stream)
    requires Good(s)
    ensures Mask(s, []) == []
  {}

  /** The position law over runs: starting at a block boundary, octet k of everything put out is
      octet k of the message under octet k mod size of block k / size. */
  lemma RunPosition(streams: seq<Stream>, chunks: seq<seq<Octet>>, k: nat)
    requires Run(streams, chunks) && Good(streams[0]) && streams[0].used == streams[0].size && k < |Concat(chunks)|
    ensures |Outputs(streams, chunks)| == |Concat(chunks)|
    ensures var s := streams[0];
            Outputs(streams, chunks)[k] == Concat(chunks)[k] ^ s.next(k / s.size)[k % s.size]
  {
    hide Good, After, Outputs;
    RunIsOneCall(streams, chunks);
    PositionLaw(streams[0], Concat(chunks), k);
  }

  /** One more call, and the law for what has been put out so far. */
  lemma OneMore(s: Stream, chunks: seq<seq<Octet>>, i: nat, t: Stream, u: Stream)
    requires i < |chunks| && After(s, |Concat(chunks[..i])|, t) && After(t, |chunks[i]|, u)
    ensures Good(s) && Good(t) && After(s, |Concat(chunks[..i + 1])|, u)
    ensures Mask(s, Concat(chunks[..i + 1])) == Mask(s, Concat(chunks[..i])) + Mask(t, chunks[i])
  {
    hide After, Good, At, Mask;
    var done := Concat(chunks[..i]);
    ConcatNext(chunks, i);
    AfterCompose(s, |done|, t, |chunks[i]|, u);
    SplitIndependent(s, t, done, chunks[i]);
  }

  /** The same operation encrypts and decrypts. */
  lemma MaskTwice(s: Stream, m: seq<Octet>)
    requires Good(s)
    ensures Mask(s, Mask(s, m)) == m
  {
    forall i | 0 <= i < |m| ensures Mask(s, Mask(s, m))[i] == m[i] {
      XorOctet(m[i], At(s, i));
    }
  }

  /** Using octets of the current block. */
  lemma Use(s: Stream, n: nat)
    requires Good(s) && s.used + n <= s.size
    ensures After(s, n, s.(used := s.used + n))
  {}

  /** Generating the next block once the current one is used up. */
  lemma Generate(s: Stream, next: nat -> seq<Octet>)
    requires Good(s) && s.used == s.size
    requires forall j: nat :: next(j) == s.next(j + 1)
    ensures After(s, 0, Stream(s.size, s.next(0), 0, next))
  {
    var t := Stream(s.size, s.next(0), 0, next);
    forall k: nat ensures At(t, k) == At(s, k) {
      if k >= s.size {
        NextBlock(k, s.size);
      } else {
        SameBlock(k, s.size);
      }
    }
  }

  lemma NextBlock(k: nat, n: nat)
    requires 0 < n <= k
    ensures (k - n) / n + 1 == k / n && (k - n) % n == k % n
  {
    Arith.DivUnique(k, n, (k - n) / n + 1, (k - n) % n);
  }

  lemma SameBlock(k: nat, n: nat)
    requires k < n
    ensures k / n == 0 && k % n == k
  {}

  lemma Onwards(s: Stream, n: nat, t: Stream, k: nat)
    requires After(s, n, t)
    ensures Good(s) && Good(t) && At(t, k) == At(s, n + k)
  {}

  // ----- writing the masked message octet by octet -----

  lemma StartMask(s: Stream, m: seq<Octet>, out: seq<Octet>)
    requires Good(s) && |m| <= |out|
    ensures After(s, 0, s) && Splice(out, 0, Mask(s, m[..0])) == out && m[..|m|] == m
  {}

  lemma MoreMask(s: Stream, t: Stream, m: seq<Octet>, pos: nat, out: seq<Octet>)
    requires After(s, pos, t) && pos < |m| <= |out|
    ensures Splice(out, 0, Mask(s, m[..pos]))[pos := m[pos] ^ At(t, 0)] == Splice(out, 0, Mask(s, m[..pos + 1]))
    ensures Splice(out, 0, Mask(s, m[..pos]))[pos] == out[pos]
  {
    hide After, Good, At, Mask, Splice;
    Onwards(s, pos, t, 0);
    MaskNext(s, m, pos);
    SpliceOne(out, Mask(s, m[..pos]), m[pos] ^ At(s, pos));
  }

  lemma MaskNext(s: Stream, m: seq<Octet>, pos: nat)
    requires Good(s) && pos < |m|
    ensures Mask(s, m[..pos + 1]) == Mask(s, m[..pos]) + [m[pos] ^ At(s, pos)]
  {
    hide Good, At;
  }

  lemma SpliceOne(s: seq<Octet>, v: seq<Octet>, x: Octet)
    requires |v| < |s|
    ensures Splice(s, 0, v)[|v| := x] == Splice(s, 0, v + [x])
    ensures Splice(s, 0, v)[|v|] == s[|v|]
  {}

  lemma MoreMaskMany(s: Stream, t: Stream, m: seq<Octet>, pos: nat, n: nat, out: seq<Octet>)
    requires After(s, pos, t) && t.used == 0 && n <= t.size && pos + n <= |m| <= |out|
    ensures var w := Xor(m[pos..pos + n], t.current);
            Splice(Splice(out, 0, Mask(s, m[..pos])), pos, w) == Splice(out, 0, Mask(s, m[..pos + n]))
  {
    var w := Xor(m[pos..pos + n], t.current);
    forall i | 0 <= i < n ensures Mask(s, m[..pos + n])[pos + i] == w[i] {
      assert At(t, i) == At(s, pos + i);
    }
    assert Mask(s, m[..pos + n]) == Mask(s, m[..pos]) + w;
    SpliceNext(out, Mask(s, m[..pos]), w);
  }

  /** Octets not yet reached are still the original ones. */
  lemma MaskSource(s: Stream, m: seq<Octet>, pos: nat, n: nat, out: seq<Octet>)
    requires Good(s) && pos + n <= |m| <= |out|
    ensures Splice(out, 0, Mask(s, m[..pos]))[pos..pos + n] == out[..|m|][pos..pos + n]
  {
    SpliceRest(out, Mask(s, m[..pos]), pos, pos + n);
    SliceOfPrefix(out, |m|, pos, pos + n);
  }

  lemma NextOctet(t: Stream)
    requires Good(t) && t.used < t.size
    ensures At(t, 0) == t.current[t.used]
  {}
}
