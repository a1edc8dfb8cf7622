/** What Base64 text means (section 5.2 of RFC 1521): digits to base 64, three octets in four of them;
    and which texts the decoder accepts. */
module Base64Meaning {
  import opened ByteStrings
  import opened Base64

  /** Table 1 of the RFC. */
  lemma EncodesByAlphabet(k: nat)
    requires k < 64
    ensures EncMap(k) == if k < 26 then 'A' as int + k
                         else if k < 52 then 'a' as int + (k - 26)
                         else if k < 62 then '0' as int + (k - 52)
                         else if k == 62 then '+' as int else '/' as int
    ensures PAD == '=' as int
  {}

  /** Exactly the characters of the alphabet have a digit, and it is their place there. */
  lemma DecodesByAlphabet(c: Byte)
    ensures DecMap(c) < 64 <==> exists k: nat :: k < 64 && EncMap(k) == c
    ensures DecMap(c) < 64 ==> EncMap(DecMap(c)) == c
  {
    assert DecMap(c) < 64 ==> EncMap(DecMap(c)) == c;
    if k: nat :| k < 64 && EncMap(k) == c {
      DecEnc(k);
    }
  }

  /** The number that digits to base 64 stand for. */
  function Digits64(g: seq<nat>): nat {
    if g == [] then 0 else 64 * Digits64(g[..|g| - 1]) + g[|g| - 1]
  }

  lemma DigitsFour(a: nat, b: nat, c: nat, d: nat)
    ensures Digits64([a, b, c, d]) == 0x40000 * a + 0x1000 * b + 0x40 * c + d
  {
    hide Digits64;
    DigitsNext([], a);
    DigitsNext([a], b);
    DigitsNext([a, b], c);
    DigitsNext([a, b, c], d);
    assert [] + [a] == [a] && [a] + [b] == [a, b] && [a, b] + [c] == [a, b, c] && [a, b, c] + [d] == [a, b, c, d];
    NoDigits();
  }

  lemma NoDigits()
    ensures Digits64([]) == 0
  {}

  lemma DigitsNext(g: seq<nat>, d: nat)
    ensures Digits64(g + [d]) == 64 * Digits64(g) + d
  {
    assert (g + [d])[..|g|] == g;
  }

  lemma BigEndianThree(a: Byte, b: Byte, c: Byte)
    ensures BigEndian([a, b, c]) == 0x1_0000 * a + 0x100 * b + c
  {
    hide BigEndian;
    OctetsNext([], a);
    OctetsNext([a], b);
    OctetsNext([a, b], c);
    assert [] + [a] == [a] && [a] + [b] == [a, b] && [a, b] + [c] == [a, b, c];
    NoOctets();
  }

  lemma NoOctets()
    ensures BigEndian([]) == 0
  {}

  lemma OctetsNext(s: seq<Byte>, b: Byte)
    ensures BigEndian(s + [b]) == 256 * BigEndian(s) + b
  {
    assert (s + [b])[..|s|] == s;
  }

  /** The four characters of three octets are the digits of their number. */
  lemma QuadMeans(a: Byte, b: Byte, c: Byte)
    ensures var q := Quad(a, b, c);
            Digits64([DecMap(q[0]), DecMap(q[1]), DecMap(q[2]), DecMap(q[3])]) == BigEndian([a, b, c])
  {
    hide EncMap, DecMap, Digits64, BigEndian;
    DecEnc(a / 4);
    DecEnc(a % 4 * 16 + b / 16);
    DecEnc(b % 16 * 4 + c / 64);
    DecEnc(c % 64);
    DigitsFour(a / 4, a % 4 * 16 + b / 16, b % 16 * 4 + c / 64, c % 64);
    BigEndianThree(a, b, c);
  }

  /** The last group: the octets left, completed with zeros, and a padding character for each octet
      that is missing. */
  lemma LastGroupMeans(s: seq<Byte>)
    requires 0 < |s| < 3
    ensures var q, z := LastGroup(s), Quad(s[0], if |s| > 1 then s[1] else 0, 0);
            |q| == 4 && q[..|s| + 1] == z[..|s| + 1] && forall i :: |s| < i < 4 ==> q[i] == PAD
  {
    hide EncMap;
  }

  /** And a group of four digits is read as the octets of its number. */
  lemma OctetsMean(a: nat, b: nat, c: nat, d: nat)
    requires a < 64 && b < 64 && c < 64 && d < 64
    ensures BigEndian(Octets([a, b, c, d], 3)) == Digits64([a, b, c, d])
  {
    hide Digits64, BigEndian;
    DigitsFour(a, b, c, d);
    BigEndianThree(a * 4 + b / 16, b % 16 * 16 + c / 4, c % 4 * 64 + d);
    assert Octets([a, b, c, d], 3) == [a * 4 + b / 16, b % 16 * 16 + c / 4, c % 4 * 64 + d];
  }

  // ----- what is accepted -----

  /** The characters that are neither line ends nor spaces. */
  function Stripped(s: seq<Byte>): seq<Byte> {
    if s == [] then [] else if Skipped(s[0]) then Stripped(s[1..]) else [s[0]] + Stripped(s[1..])
  }

  /** Characters of the alphabet, then p padding characters. */
  predicate DigitsThenPads(t: seq<Byte>, p: nat) {
    p <= |t| && (forall i :: 0 <= i < |t| - p ==> DecMap(t[i]) < 64) && forall i :: |t| - p <= i < |t| ==> t[i] == PAD
  }

  lemma {:induction false} StrippedSpaces(s: seq<Byte>)
    ensures Stripped(s) == Stripped(s[Spaces(s)..])
  {
    if s == [] || s[0] != SPACE {
      assert s[0..] == s;
    } else {
      StrippedSpaces(s[1..]);
      assert s[Spaces(s)..] == s[1..][Spaces(s[1..])..];
    }
  }

  lemma OneDigit(c: Byte, t: seq<Byte>, p: nat)
    requires DigitsThenPads(t, p) && DecMap(c) < 64
    ensures DigitsThenPads([c] + t, p)
  {}

  lemma OnePad(t: seq<Byte>)
    requires DigitsThenPads(t, |t|)
    ensures DigitsThenPads([PAD] + t, |t| + 1)
  {}

  /** A text is accepted only if it is digits and at most two padding characters behind them; the
      counts are those of the characters and of the padding. */
  lemma {:induction false} ScanSound(s: seq<Byte>, n: nat, j: nat)
    requires Scan(s, n, j).Good? && j <= 2
    ensures var r, t := Scan(s, n, j), Stripped(s);
            r.n == n + |t| && j <= r.j <= 2 && DigitsThenPads(t, r.j - j) && (j > 0 ==> r.j - j == |t|)
    decreases |s|
  {
    hide DecMap, DigitsThenPads, Scan, Stripped, Spaces;
    var t := s[Spaces(s)..];
    StrippedSpaces(s);
    if t == [] {
      NothingMore(s, n, j);
    } else if Skipped(t[0]) {
      SkipOne(s, n, j);
      ScanSound(t[1..], n, j);
    } else {
      SkippedCharacters();
      ScanCharacter(s, n, j);
      var u, r := Stripped(t[1..]), Scan(s, n, j);
      StrippedOne(t);
      if t[0] == PAD {
        ScanSound(t[1..], n + 1, j + 1);
        OnePad(u);
      } else {
        ScanSound(t[1..], n + 1, j);
        OneDigit(t[0], u, r.j - j);
      }
    }
  }

  lemma NothingMore(s: seq<Byte>, n: nat, j: nat)
    requires s[Spaces(s)..] == []
    ensures Scan(s, n, j) == Good(n, j) && Stripped([]) == [] && DigitsThenPads([], 0)
  {}

  lemma SkipOne(s: seq<Byte>, n: nat, j: nat)
    requires Scan(s, n, j).Good? && s[Spaces(s)..] != [] && Skipped(s[Spaces(s)])
    ensures var t := s[Spaces(s)..]; Scan(s, n, j) == Scan(t[1..], n, j) && Stripped(t) == Stripped(t[1..]) && |t| <= |s|
  {
    SkippedCharacters();
  }

  lemma StrippedOne(t: seq<Byte>)
    requires t != [] && !Skipped(t[0])
    ensures Stripped(t) == [t[0]] + Stripped(t[1..])
  {}

  lemma SkippedCharacters()
    ensures DecMap(CR) == 127 && DecMap(LF) == 127 && DecMap(SPACE) == 127 && DecMap(PAD) == 64
  {}

  /** An accepted character that counts. */
  lemma ScanCharacter(s: seq<Byte>, n: nat, j: nat)
    requires Scan(s, n, j).Good? && j <= 2 && s[Spaces(s)..] != [] && !Skipped(s[Spaces(s)])
    ensures var c := s[Spaces(s)]; var j' := if c == PAD then j + 1 else j;
            j' <= 2 && (c != PAD ==> DecMap(c) < 64 && j == 0) && Scan(s, n, j) == Scan(s[Spaces(s)..][1..], n + 1, j')
  {
    hide DecMap;
  }
}
