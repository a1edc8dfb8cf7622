/** Characters of a JSON string: UTF-8 as RFC 3629 defines it, the spellings of section 7 of
    RFC 8259, and what the parser writes for each of them. */
module JsonUnicode {
  import opened Arith
  import opened ByteStrings
  import opened JsonText

  // ----- UTF-8 -----

  /** A code point that is no surrogate. */
  predicate Scalar(u: nat) {
    u < 0x110000 && !(0xD800 <= u < 0xE000)
  }

  /** A continuation octet. */
  predicate Tail(s: seq<Byte>, i: nat) {
    i < |s| && 0x80 <= s[i] <= 0xBF
  }

  datatype Decoded = Malformed | CodePoint(u: nat, rest: seq<Byte>)

  /** The first code point of an octet string, in its shortest form only. */
  function DecodeUtf8(s: seq<Byte>): Decoded {
    if s == [] then Malformed
    else if s[0] < 0x80 then CodePoint(s[0], s[1..])
    else if 0xC2 <= s[0] <= 0xDF && Tail(s, 1) then
      CodePoint((s[0] as int - 0xC0) * 0x40 + (s[1] as int - 0x80), s[2..])
    else if 0xE0 <= s[0] <= 0xEF && Tail(s, 1) && Tail(s, 2) then
      var u := (s[0] as int - 0xE0) * 0x1000 + (s[1] as int - 0x80) * 0x40 + (s[2] as int - 0x80);
      if u >= 0x800 && Scalar(u) then CodePoint(u, s[3..]) else Malformed
    else if 0xF0 <= s[0] <= 0xF4 && Tail(s, 1) && Tail(s, 2) && Tail(s, 3) then
      var u := (s[0] as int - 0xF0) * 0x40000 + (s[1] as int - 0x80) * 0x1000 + (s[2] as int - 0x80) * 0x40 + (s[3] as int - 0x80);
      if u >= 0x10000 && Scalar(u) then CodePoint(u, s[4..]) else Malformed
    else Malformed
  }

  lemma Utf8Short(u: nat, rest: seq<Byte>)
    requires u < 0x800
    ensures DecodeUtf8(Utf8(u) + rest) == CodePoint(u, rest)
  {
    var s := Utf8(u) + rest;
    assert s[|Utf8(u)|..] == rest;
  }

  lemma Utf8Three(u: nat, rest: seq<Byte>)
    requires 0x800 <= u < 0x10000 && Scalar(u)
    ensures DecodeUtf8(Utf8(u) + rest) == CodePoint(u, rest)
  {
    var s := Utf8(u) + rest;
    assert s[3..] == rest;
    assert u == u / 0x1000 * 0x1000 + u / 0x40 % 0x40 * 0x40 + u % 0x40;
  }

  lemma Utf8Four(u: nat, rest: seq<Byte>)
    requires 0x10000 <= u < 0x110000
    ensures DecodeUtf8(Utf8(u) + rest) == CodePoint(u, rest)
  {
    var s := Utf8(u) + rest;
    assert s[4..] == rest;
    Sextets(u);
    SextetsInRange(u);
  }

  lemma Sextets(u: nat)
    ensures u == u / 0x40000 * 0x40000 + u / 0x1000 % 0x40 * 0x1000 + u / 0x40 % 0x40 * 0x40 + u % 0x40
  {
    var v := u / 0x40;
    var w := v / 0x40;
    DivUnique(u, 0x1000, w, 0x40 * (v % 0x40) + u % 0x40);
    DivUnique(u, 0x40000, w / 0x40, 0x1000 * (w % 0x40) + 0x40 * (v % 0x40) + u % 0x40);
  }

  lemma SextetsInRange(u: nat)
    requires u < 0x110000
    ensures u / 0x40000 <= 4 && 0 <= u / 0x1000 % 0x40 < 0x40 && 0 <= u / 0x40 % 0x40 < 0x40 && 0 <= u % 0x40 < 0x40
  {}

  /** The octets written for a code point decode to it. */
  lemma Utf8Decodes(u: nat, rest: seq<Byte>)
    requires Scalar(u)
    ensures DecodeUtf8(Utf8(u) + rest) == CodePoint(u, rest)
  {
    hide DecodeUtf8, Utf8;
    if u < 0x800 { Utf8Short(u, rest); }
    else if u < 0x10000 { Utf8Three(u, rest); }
    else { Utf8Four(u, rest); }
  }

  lemma TwoDigits(a: nat, b: nat)
    requires b < 0x40
    ensures (a * 0x40 + b) / 0x40 == a && (a * 0x40 + b) % 0x40 == b
  {}

  lemma ShortIsUtf8(s: seq<Byte>)
    requires DecodeUtf8(s).CodePoint? && s[0] < 0xE0
    ensures var d := DecodeUtf8(s); Scalar(d.u) && s == Utf8(d.u) + d.rest
  {
    if s[0] < 0x80 {
      assert s == [s[0]] + s[1..];
    } else {
      TwoDigits(s[0] as int - 0xC0, s[1] as int - 0x80);
      assert s == [s[0], s[1]] + s[2..];
    }
  }

  lemma ThreeIsUtf8(s: seq<Byte>)
    requires DecodeUtf8(s).CodePoint? && 0xE0 <= s[0] < 0xF0
    ensures var d := DecodeUtf8(s); Scalar(d.u) && s == Utf8(d.u) + d.rest
  {
    var a, b, c := s[0] as int - 0xE0, s[1] as int - 0x80, s[2] as int - 0x80;
    TwoDigits(a * 0x40 + b, c);
    TwoDigits(a, b);
    assert s == [s[0], s[1], s[2]] + s[3..];
  }

  lemma FourIsUtf8(s: seq<Byte>)
    requires DecodeUtf8(s).CodePoint? && 0xF0 <= s[0]
    ensures var d := DecodeUtf8(s); Scalar(d.u) && s == Utf8(d.u) + d.rest
  {
    var a, b, c, e := s[0] as int - 0xF0, s[1] as int - 0x80, s[2] as int - 0x80, s[3] as int - 0x80;
    TwoDigits((a * 0x40 + b) * 0x40 + c, e);
    TwoDigits(a * 0x40 + b, c);
    TwoDigits(a, b);
    assert s == [s[0], s[1], s[2], s[3]] + s[4..];
  }

  /** And no other octets do. */
  lemma DecodedIsUtf8(s: seq<Byte>)
    requires DecodeUtf8(s).CodePoint?
    ensures var d := DecodeUtf8(s); Scalar(d.u) && s == Utf8(d.u) + d.rest
  {
    hide Utf8;
    if s[0] < 0xE0 { ShortIsUtf8(s); }
    else if s[0] < 0xF0 { ThreeIsUtf8(s); }
    else { FourIsUtf8(s); }
  }

  // ----- hexadecimal digits -----

  function Ascii(c: char): Byte {
    if c as int < 128 then c as int else 0
  }

  /** A digit in small or capital letters. */
  function Hexit(d: nat, capital: bool): Byte
    requires d < 16
  {
    Ascii(if capital then "0123456789ABCDEF"[d] else "0123456789abcdef"[d])
  }

  /** Four digits, each in its own case. */
  function Four(u: nat, capitals: seq<bool>): (r: seq<Byte>)
    requires u < 0x10000 && |capitals| == 4
    ensures |r| == 4
  {
    [Hexit(u / 0x1000, capitals[0]), Hexit(u / 0x100 % 16, capitals[1]), Hexit(u / 0x10 % 16, capitals[2]), Hexit(u % 16, capitals[3])]
  }

  lemma HexitReads(d: nat, capital: bool)
    requires d < 16
    ensures HexValue(Hexit(d, capital)) == d
  {}

  /** The digits mean their number wherever they stand. */
  lemma FourReads(u: nat, capitals: seq<bool>, t: seq<Byte>, i: nat)
    requires u < 0x10000 && |capitals| == 4
    requires i + 4 <= |t| && t[i..i + 4] == Four(u, capitals)
    ensures Hex4(t, i) == u
  {
    hide Hexit, HexValue;
    var f := t[i..i + 4];
    HexitReads(u / 0x1000, capitals[0]);
    HexitReads(u / 0x100 % 16, capitals[1]);
    HexitReads(u / 0x10 % 16, capitals[2]);
    HexitReads(u % 16, capitals[3]);
    assert t[i] == f[0] && t[i + 1] == f[1] && t[i + 2] == f[2] && t[i + 3] == f[3];
    Nibbles(u);
  }

  lemma Nibbles(u: nat)
    ensures u == u / 0x1000 * 0x1000 + u / 0x100 % 16 * 0x100 + u / 0x10 % 16 * 0x10 + u % 16
  {
    var v := u / 16;
    var w := v / 16;
    DivUnique(u, 0x100, w, 16 * (v % 16) + u % 16);
    DivUnique(u, 0x1000, w / 16, 0x100 * (w % 16) + 16 * (v % 16) + u % 16);
  }

  // ----- characters -----

  /** The letters of the two-character escapes, and the code points they stand for. */
  const LETTERS: string := "\"\\/bfnrt"
  const MEANT: seq<nat> := [0x22, 0x5C, 0x2F, 0x08, 0x0C, 0x0A, 0x0D, 0x09]

  /** A character and how it is spelled: as itself, by a letter, by one or two u-escapes; or an octet
      of a text that is not UTF-8, which stands for itself. */
  datatype Character = Raw(u: nat) | Letter(k: nat) | Code(u: nat, capitals: seq<bool>) | Stray(octet: Byte)

  ghost predicate Allowed(c: Character) {
    match c
    case Raw(u) => Scalar(u) && u >= 0x20 && u != 0x22 && u != 0x5C
    case Letter(k) => k < 8
    case Code(u, capitals) => Scalar(u) && |capitals| == if u < 0x10000 then 4 else 8
    case Stray(octet) => octet >= 0x80
  }

  ghost function Spelled(c: Character): seq<Byte>
    requires Allowed(c)
  {
    var escape := [Ascii('\\'), Ascii('u')];
    match c
    case Raw(u) => Utf8(u)
    case Letter(k) => [Ascii('\\'), Ascii(LETTERS[k])]
    case Code(u, capitals) =>
      if u < 0x10000 then escape + Four(u, capitals)
      else escape + Four(0xD800 + (u - 0x10000) / 0x400, capitals[..4]) + escape + Four(0xDC00 + (u - 0x10000) % 0x400, capitals[4..])
    case Stray(octet) => [octet]
  }

  /** What the character means; the parser leaves out the character zero. */
  ghost function Octets(c: Character): seq<Byte>
    requires Allowed(c)
  {
    match c
    case Raw(u) => Utf8(u)
    case Letter(k) => Utf8(MEANT[k])
    case Code(u, _) => if u == 0 then [] else Utf8(u)
    case Stray(octet) => [octet]
  }

  // ----- escapes -----

  /** A two-character escape. */
  lemma LetterReads(k: nat, rest: seq<Byte>)
    requires k < 8
    ensures ReadEscape([Ascii(LETTERS[k])] + rest) == Meaning(Utf8(MEANT[k]), 1)
  {
    hide Hex4;
    assert LETTERS[k] == (if k == 0 then '"' else if k == 1 then '\\' else if k == 2 then '/' else if k == 3 then 'b' else if k == 4 then 'f' else if k == 5 then 'n' else if k == 6 then 'r' else 't');
  }

  /** Any other letter but u stands for itself. */
  lemma OtherReads(c: Byte, rest: seq<Byte>)
    requires c != Ascii('u') && forall k | 0 <= k < 8 :: c != Ascii(LETTERS[k])
    ensures ReadEscape([c] + rest) == Meaning([c], 1)
  {
    hide Hex4;
    assert Ascii(LETTERS[3]) == 98 && Ascii(LETTERS[4]) == 102 && Ascii(LETTERS[5]) == 110 && Ascii(LETTERS[6]) == 114 && Ascii(LETTERS[7]) == 116;
  }

  /** Whether a second u-escape follows. */
  predicate SecondFollows(t: seq<Byte>) {
    |t| >= 2 && t[0] == Ascii('\\') && t[1] == Ascii('u')
  }

  /** A u-escape of four digits: a code point, a pair of surrogates with the escape behind it, or, for
      zero and surrogates without their partner, nothing. */
  lemma CodeReads(u: nat, capitals: seq<bool>, rest: seq<Byte>)
    requires u < 0x10000 && |capitals| == 4
    ensures var e := ReadEscape([Ascii('u')] + Four(u, capitals) + rest);
            if u == 0 || 0xDC00 <= u < 0xE000 then e == Meaning([], 5)
            else if Scalar(u) then e == Meaning(Utf8(u), 5)
            else if !SecondFollows(rest) then e == Meaning([], 5)
            else e == PairMeaning(u, Hex4(rest, 2))
  {
    hide Hex4, Four, Utf8;
    var t := [Ascii('u')] + Four(u, capitals) + rest;
    assert t[1..5] == Four(u, capitals);
    FourReads(u, capitals, t, 1);
    assert t[5..] == rest;
    assert At(t, 5) == At(rest, 0) && At(t, 6) == At(rest, 1);
    Hex4Suffix(t, 5, rest);
  }

  /** Two escapes, the first of which is a high surrogate. */
  ghost function PairMeaning(high: nat, low: nat): Meaning
    requires 0xD800 <= high < 0xDC00
  {
    if 0xDC00 <= low < 0xE000 then Meaning(Utf8(0x10000 + (high - 0xD800) * 0x400 + (low - 0xDC00)), 11) else Meaning([], 11)
  }

  lemma Hex4Suffix(t: seq<Byte>, i: nat, rest: seq<Byte>)
    requires i <= |t| && t[i..] == rest
    ensures Hex4(t, i + 2) == Hex4(rest, 2)
  {
    hide HexValue;
    assert forall k: nat :: k < 8 ==> At(t, i + k) == At(rest, k);
  }

  /** If one of the four is no digit, nothing is written. */
  lemma BadCodeReads(t: seq<Byte>, i: nat)
    requires At(t, 0) == Ascii('u') && 1 <= i <= 4
    requires forall d, capital | 0 <= d < 16 :: At(t, i) != Hexit(d, capital)
    ensures ReadEscape(t) == Meaning([], 5)
  {
    hide HexValue, Hexit;
    if HexValue(At(t, i)) < 16 {
      HexValueIsHexit(At(t, i));
      assert false;
    }
    HexAt(t, i);
  }

  lemma HexAt(t: seq<Byte>, i: nat)
    requires 1 <= i <= 4 && HexValue(At(t, i)) == 16
    ensures Hex4(t, 1) == 0
  {
    hide HexValue;
  }

  lemma HexValueIsHexit(c: Byte)
    requires HexValue(c) < 16
    ensures Hexit(HexValue(c), c < 97) == c
  {}
}
