/** The formatting of appendix A of SP 800-38C: what is put through CBC-MAC tells the lengths, the
    nonce, the additional data and the plaintext, and none is a prefix of another. */
module CcmFormat {
  import opened Octets
  import opened BlockPadding
  import opened Ccm
  import CtrMode

  /** What the tag is computed over. */
  function Format(t: nat, iv: seq<Octet>, add: seq<Octet>, plain: seq<Octet>): seq<Octet>
    requires 7 <= |iv| <= 13
  {
    Preamble(t, iv, add, |plain|) + Padded(plain)
  }

  // ----- the flags -----

  lemma OrUntagged(a: Octet, q: Octet)
    requires a <= 1 && q <= 7
    ensures Wide(((a << 6) | (0xFF << 3)) | q) == 248 + Wide(q)
  {}

  lemma FlagsZero(a: nat, q: nat)
    requires 2 <= q <= 8
    ensures Wide(Flags(0, a, q)) == 248 + (q - 1)
  {
    hide Narrow, Wide;
    NarrowSmall(q - 1);
    WideNarrow(q - 1);
    WideNarrow(255);
    WideInjective(Narrow(255), 255) by { WideAll(); }
    OrUntagged(if a > 0 then 1 else 0, Narrow(q - 1));
  }

  lemma WideAll()
    ensures Wide(255) == 255
  {}

  predicate TagLength(t: nat) {
    t != 2 && t <= 16 && t % 2 == 0
  }

  /** The flags tell the tag length, the nonce length and, if there is a tag, whether there is
      additional data. */
  lemma FlagsTell(t: nat, a: nat, q: nat, t': nat, a': nat, q': nat)
    requires TagLength(t) && TagLength(t') && 2 <= q <= 8 && 2 <= q' <= 8 && Flags(t, a, q) == Flags(t', a', q')
    ensures t == t' && q == q' && (t != 0 ==> (a > 0 <==> a' > 0))
  {
    hide Flags, Wide;
    if t == 0 { FlagsZero(a, q); } else { FlagsStandard(t, a, q); }
    if t' == 0 { FlagsZero(a', q'); } else { FlagsStandard(t', a', q'); }
  }

  // ----- the parts -----

  /** Two splits at the same place. */
  lemma SameSplit(a: seq<Octet>, b: seq<Octet>, c: seq<Octet>, d: seq<Octet>)
    requires |a| == |c| && a + b == c + d
    ensures a == c && b == d
  {
    assert a == (a + b)[..|a|] && c == (c + d)[..|c|];
    assert b == (a + b)[|a|..] && d == (c + d)[|c|..];
  }

  lemma OctTells(m: nat, n: nat, q: nat)
    requires m < CtrMode.Size(q) && n < CtrMode.Size(q) && Oct(m, q) == Oct(n, q)
    ensures m == n
  {
    hide Oct, CtrMode.Size, CtrMode.Value;
    OctValue(m, q);
    OctValue(n, q);
    Arithmetic(m, CtrMode.Size(q));
    Arithmetic(n, CtrMode.Size(q));
  }

  lemma Arithmetic(m: nat, n: nat)
    requires m < n
    ensures m % n == m
  {}

  lemma FirstTells(t: nat, iv: seq<Octet>, a: nat, n: nat, t': nat, iv': seq<Octet>, a': nat, n': nat)
    requires 7 <= |iv| <= 13 && 7 <= |iv'| <= 13 && TagLength(t) && TagLength(t')
    requires n < CtrMode.Size(15 - |iv|) && n' < CtrMode.Size(15 - |iv'|)
    requires FirstBlock(t, a, iv, n) == FirstBlock(t', a', iv', n')
    ensures t == t' && iv == iv' && n == n' && (t != 0 ==> (a > 0 <==> a' > 0))
  {
    hide Flags, Oct, CtrMode.Size;
    var b := FirstBlock(t, a, iv, n);
    assert b[0] == Flags(t, a, 15 - |iv|) && b[0] == Flags(t', a', 15 - |iv'|);
    FlagsTell(t, a, 15 - |iv|, t', a', 15 - |iv'|);
    var f := [b[0]];
    SameSplit(f + iv, Oct(n, 15 - |iv|), f + iv', Oct(n', 15 - |iv'|));
    SameSplit(f, iv, f, iv');
    OctTells(n, n', 15 - |iv|);
  }

  lemma SizeTwo()
    ensures CtrMode.Size(2) == 0x1_0000
  {
    assert CtrMode.Size(1) == 256;
  }

  lemma PaddedTells(s: seq<Octet>, u: seq<Octet>, s': seq<Octet>, u': seq<Octet>)
    requires |s| == |s'| && Padded(s) + u == Padded(s') + u'
    ensures s == s' && u == u'
  {
    hide Fill;
    SameSplit(Padded(s), u, Padded(s'), u');
    SameSplit(s, Fill(0, (16 - |s| % 16) % 16), s', Fill(0, (16 - |s'| % 16) % 16));
  }

  lemma AdditionalTells(add: seq<Octet>, u: seq<Octet>, add': seq<Octet>, u': seq<Octet>)
    requires (add == [] <==> add' == []) && |add| < 0x1_0000 && |add'| < 0x1_0000
    requires Additional(add) + u == Additional(add') + u'
    ensures add == add' && u == u'
  {
    hide Oct, Padded, CtrMode.Size;
    if add == [] {
      assert [] + u == u && [] + u' == u';
    } else {
      var o, o' := Oct(|add|, 2), Oct(|add'|, 2);
      SizeTwo();
      PaddedHead(o + add, u, 2);
      PaddedHead(o' + add', u', 2);
      assert (o + add)[..2] == o && (o' + add')[..2] == o';
      OctTells(|add|, |add'|, 2);
      PaddedTells(o + add, u, o' + add', u');
      SameSplit(o, add, o', add');
    }
  }

  lemma PaddedHead(s: seq<Octet>, u: seq<Octet>, n: nat)
    requires n <= |s|
    ensures n <= |Padded(s) + u| && (Padded(s) + u)[..n] == s[..n]
  {
    hide Fill;
  }

  /** Inputs of the tag are told apart by what is authenticated, even when more follows. */
  lemma FormatPrefixFree(t: nat, iv: seq<Octet>, add: seq<Octet>, plain: seq<Octet>, u: seq<Octet>,
                         t': nat, iv': seq<Octet>, add': seq<Octet>, plain': seq<Octet>, u': seq<Octet>)
    requires Accepted(t, |iv|, |add|, |plain|) && Accepted(t', |iv'|, |add'|, |plain'|) && t != 0
    requires Format(t, iv, add, plain) + u == Format(t', iv', add', plain') + u'
    ensures t == t' && iv == iv' && add == add' && plain == plain' && u == u'
  {
    hide FirstBlock, Additional, Padded, CtrMode.Size;
    var b, b' := FirstBlock(t, |add|, iv, |plain|), FirstBlock(t', |add'|, iv', |plain'|);
    var w, w' := Padded(plain) + u, Padded(plain') + u';
    FourParts(b, Additional(add), Padded(plain), u);
    FourParts(b', Additional(add'), Padded(plain'), u');
    SameSplit(b, Additional(add) + w, b', Additional(add') + w');
    FirstTells(t, iv, |add|, |plain|, t', iv', |add'|, |plain'|);
    AdditionalTells(add, w, add', w');
    PaddedTells(plain, u, plain', u');
  }

  /** What a tag starts from is never the input of the key stream. */
  lemma FirstIsNoCounter(t: nat, iv: seq<Octet>, a: nat, n: nat, iv': seq<Octet>, i: nat)
    requires 7 <= |iv| <= 13 && 7 <= |iv'| <= 13 && TagLength(t)
    ensures FirstBlock(t, a, iv, n) != CounterBlock(iv', i)
  {
    hide Flags, Oct, Wide, Narrow;
    var q := 15 - |iv|;
    if t == 0 { FlagsZero(a, q); } else { FlagsStandard(t, a, q); }
    WideNarrow(14 - |iv'|);
    assert FirstBlock(t, a, iv, n)[0] == Flags(t, a, q) && CounterBlock(iv', i)[0] == Narrow(14 - |iv'|);
  }

  lemma FourParts(a: seq<Octet>, b: seq<Octet>, c: seq<Octet>, d: seq<Octet>)
    ensures a + b + c + d == a + (b + (c + d))
  {}

  /** Without a tag the flags do not tell whether there is additional data; the lengths do. */
  lemma FormatInjective(t: nat, iv: seq<Octet>, add: seq<Octet>, plain: seq<Octet>,
                        t': nat, iv': seq<Octet>, add': seq<Octet>, plain': seq<Octet>)
    requires Accepted(t, |iv|, |add|, |plain|) && Accepted(t', |iv'|, |add'|, |plain'|)
    requires Format(t, iv, add, plain) == Format(t', iv', add', plain')
    ensures t == t' && iv == iv' && add == add' && plain == plain'
  {
    hide FirstBlock, Additional, Padded, CtrMode.Size;
    var b, b' := FirstBlock(t, |add|, iv, |plain|), FirstBlock(t', |add'|, iv', |plain'|);
    FourParts(b, Additional(add), Padded(plain), []);
    FourParts(b', Additional(add'), Padded(plain'), []);
    var w, w' := Padded(plain) + [], Padded(plain') + [];
    SameSplit(b, Additional(add) + w, b', Additional(add') + w');
    FirstTells(t, iv, |add|, |plain|, t', iv', |add'|, |plain'|);
    PaddedSize(plain, plain');
    AdditionalSize(add);
    AdditionalSize(add');
    AdditionalTells(add, w, add', w');
    PaddedTells(plain, [], plain', []);
  }

  lemma PaddedSize(s: seq<Octet>, s': seq<Octet>)
    requires |s| == |s'|
    ensures |Padded(s)| == |Padded(s')|
  {
    hide Fill;
  }

  lemma AdditionalSize(add: seq<Octet>)
    ensures |Additional(add)| == 0 <==> add == []
  {
    hide Padded, Oct;
  }
}
