/** The JSON texts of RFC 8259, with every spelling the standard allows, and the tree the parser makes
    of each of them. */
module JsonGrammar {
  import opened Arith
  import opened ByteStrings
  import opened JsonText
  import opened JsonUnicode

  // ----- strings -----

  ghost predicate AllAllowed(s: seq<Character>) {
    forall i :: 0 <= i < |s| ==> Allowed(s[i])
  }

  ghost function Spelling(s: seq<Character>): seq<Byte>
    requires AllAllowed(s)
  {
    if s == [] then [] else Spelled(s[0]) + Spelling(s[1..])
  }

  /** What a string means. */
  ghost function Contents(s: seq<Character>): seq<Byte>
    requires AllAllowed(s)
  {
    if s == [] then [] else Octets(s[0]) + Contents(s[1..])
  }

  ghost function Quoted(s: seq<Character>): seq<Byte>
    requires AllAllowed(s)
  {
    [Ascii('"')] + Spelling(s) + [Ascii('"')]
  }

  /** Octets that stand for themselves. */
  predicate Ordinary(s: seq<Byte>) {
    forall i :: 0 <= i < |s| ==> s[i] != 0 && s[i] != QUOTE && s[i] != BACKSLASH
  }

  lemma {:induction false} OrdinaryReads(s: seq<Byte>, tail: seq<Byte>, value: seq<Byte>, rest: seq<Byte>)
    requires Ordinary(s) && Unescape(tail) == Parsed(value, rest)
    ensures Unescape(s + tail) == Parsed(s + value, rest)
  {
    hide Unescape;
    if s == [] {
      assert s + tail == tail && s + value == value;
    } else {
      OrdinaryReads(s[1..], tail, value, rest);
      UnescapeNext(s + tail);
      assert (s + tail)[1..] == s[1..] + tail;
      assert [s[0]] + (s[1..] + value) == s + value;
    }
  }

  lemma EscapeReads(t: seq<Byte>, e: Meaning, tail: seq<Byte>, value: seq<Byte>, rest: seq<Byte>)
    requires ReadEscape(t) == e && e.used <= |t| && t[e.used..] == tail && Unescape(tail) == Parsed(value, rest)
    ensures Unescape([BACKSLASH] + t) == Parsed(e.octets + value, rest)
  {
    hide Unescape, ReadEscape;
    UnescapeNext([BACKSLASH] + t);
    assert ([BACKSLASH] + t)[1..] == t;
  }

  lemma RawOrdinary(u: nat)
    requires Scalar(u) && u >= 0x20 && u != 0x22 && u != 0x5C
    ensures Ordinary(Utf8(u))
  {}

  lemma StrayOrdinary(b: Byte)
    requires b >= 0x80
    ensures Ordinary([b])
  {}

  lemma LetterText(k: nat, tail: seq<Byte>)
    requires k < 8
    ensures var t := [Ascii(LETTERS[k])] + tail; Spelled(Letter(k)) + tail == [BACKSLASH] + t && t[1..] == tail
  {}

  lemma CodeText(u: nat, capitals: seq<bool>, tail: seq<Byte>)
    requires u < 0x10000 && Allowed(Code(u, capitals))
    ensures var t := [Ascii('u')] + Four(u, capitals) + tail;
            Spelled(Code(u, capitals)) + tail == [BACKSLASH] + t && t[5..] == tail
  {
    hide Hexit;
  }

  lemma PairText(high: nat, low: nat, c: seq<bool>, d: seq<bool>, tail: seq<Byte>)
    requires high < 0x10000 && low < 0x10000 && |c| == 4 && |d| == 4
    ensures var escape := [Ascii('\\'), Ascii('u')]; var second := escape + Four(low, d) + tail;
            var t := [Ascii('u')] + Four(high, c) + second;
            escape + Four(high, c) + escape + Four(low, d) + tail == [BACKSLASH] + t && t[11..] == tail
            && SecondFollows(second) && second[2..6] == Four(low, d)
  {
    hide Hexit;
  }

  lemma PairReads(u: nat, capitals: seq<bool>, tail: seq<Byte>, value: seq<Byte>, rest: seq<Byte>)
    requires u >= 0x10000 && Allowed(Code(u, capitals)) && Unescape(tail) == Parsed(value, rest)
    ensures Unescape(Spelled(Code(u, capitals)) + tail) == Parsed(Utf8(u) + value, rest)
  {
    hide Unescape, ReadEscape, Four, Utf8, Hex4, SecondFollows;
    var v := u - 0x10000;
    var high, low := 0xD800 + v / 0x400, 0xDC00 + v % 0x400;
    var c, d := capitals[..4], capitals[4..];
    var second := [Ascii('\\'), Ascii('u')] + Four(low, d) + tail;
    PairText(high, low, c, d, tail);
    CodeReads(high, c, second);
    FourReads(low, d, second, 2);
    EscapeReads([Ascii('u')] + Four(high, c) + second, Meaning(Utf8(u), 11), tail, value, rest);
  }

  lemma CharacterReads(c: Character, tail: seq<Byte>, value: seq<Byte>, rest: seq<Byte>)
    requires Allowed(c) && Unescape(tail) == Parsed(value, rest)
    ensures Unescape(Spelled(c) + tail) == Parsed(Octets(c) + value, rest)
  {
    hide Unescape, ReadEscape, Four, Utf8, Ordinary;
    match c
    case Raw(u) =>
      RawOrdinary(u);
      OrdinaryReads(Utf8(u), tail, value, rest);
    case Letter(k) =>
      LetterReads(k, tail);
      LetterText(k, tail);
      EscapeReads([Ascii(LETTERS[k])] + tail, Meaning(Utf8(MEANT[k]), 1), tail, value, rest);
    case Code(u, capitals) =>
      if u < 0x10000 {
        CodeReads(u, capitals, tail);
        CodeText(u, capitals, tail);
        EscapeReads([Ascii('u')] + Four(u, capitals) + tail, Meaning(Octets(c), 5), tail, value, rest);
      } else {
        PairReads(u, capitals, tail, value, rest);
      }
    case Stray(octet) =>
      StrayOrdinary(octet);
      OrdinaryReads([octet], tail, value, rest);
  }

  lemma {:induction false} SpellingReads(s: seq<Character>, tail: seq<Byte>, value: seq<Byte>, rest: seq<Byte>)
    requires AllAllowed(s) && Unescape(tail) == Parsed(value, rest)
    ensures Unescape(Spelling(s) + tail) == Parsed(Contents(s) + value, rest)
  {
    hide Unescape, Octets, Spelled, Allowed;
    if s == [] {
      assert [] + tail == tail && [] + value == value;
    } else {
      SpellingReads(s[1..], tail, value, rest);
      CharacterReads(s[0], Spelling(s[1..]) + tail, Contents(s[1..]) + value, rest);
      assert Spelling(s) + tail == Spelled(s[0]) + (Spelling(s[1..]) + tail);
      assert Contents(s) + value == Octets(s[0]) + (Contents(s[1..]) + value);
    }
  }

  lemma Utf8Plain(u: nat)
    requires 0 < u < 0x110000
    ensures Plain(Utf8(u))
  {}

  lemma {:induction false} ContentsPlain(s: seq<Character>)
    requires AllAllowed(s)
    ensures Plain(Contents(s))
  {
    hide Utf8;
    if s != [] {
      ContentsPlain(s[1..]);
      match s[0]
      case Raw(u) => Utf8Plain(u);
      case Letter(k) => Utf8Plain(MEANT[k]);
      case Code(u, _) => if u != 0 { Utf8Plain(u); }
      case Stray(_) =>
    }
  }

  /** A string of the grammar, whatever its spelling, reads as the octets it means. */
  lemma StringReads(s: seq<Character>, rest: seq<Byte>)
    requires AllAllowed(s)
    ensures ParseString(Quoted(s) + rest) == Parsed(Contents(s), rest)
  {
    hide Unescape, Spelling, Contents, AllAllowed;
    var q := [QUOTE] + rest;
    UnescapeEnd(q);
    SpellingReads(s, q, [], q);
    ContentsPlain(s);
    CutPlain(Contents(s));
    var t := Quoted(s) + rest;
    assert t[1..] == Spelling(s) + q;
    assert Contents(s) + [] == Contents(s);
    assert q[1..] == rest;
  }

  /** The code points a string means. */
  ghost function Points(s: seq<Character>): seq<nat>
    requires AllAllowed(s)
  {
    if s == [] then []
    else
      (match s[0]
       case Raw(u) => [u]
       case Letter(k) => [MEANT[k]]
       case Code(u, _) => if u == 0 then [] else [u]
       case Stray(_) => [])
      + Points(s[1..])
  }

  /** Octets that are the UTF-8 form of code points. */
  ghost predicate Decodes(octets: seq<Byte>, points: seq<nat>)
    decreases |points|
  {
    if points == [] then octets == []
    else
      match DecodeUtf8(octets)
      case Malformed => false
      case CodePoint(u, rest) => u == points[0] && Decodes(rest, points[1..])
  }

  lemma DecodesOne(u: nat, octets: seq<Byte>, points: seq<nat>)
    requires Scalar(u) && Decodes(octets, points)
    ensures Decodes(Utf8(u) + octets, [u] + points)
  {
    hide Utf8, DecodeUtf8;
    Utf8Decodes(u, octets);
    assert ([u] + points)[1..] == points;
  }

  /** The octets are the UTF-8 form of the characters, but for characters zero, if nothing else is not
      UTF-8. */
  lemma {:induction false} ContentsDecode(s: seq<Character>)
    requires AllAllowed(s) && forall i :: 0 <= i < |s| ==> !s[i].Stray?
    ensures Decodes(Contents(s), Points(s))
  {
    hide Utf8, DecodeUtf8, Decodes;
    if s == [] {
      NothingDecodes();
    } else {
      ContentsDecode(s[1..]);
      var octets, points := Contents(s[1..]), Points(s[1..]);
      match s[0]
      case Raw(u) => DecodesOne(u, octets, points);
      case Letter(k) => DecodesOne(MEANT[k], octets, points);
      case Code(u, _) =>
        if u == 0 {
          assert [] + octets == octets && [] + points == points;
        } else {
          DecodesOne(u, octets, points);
        }
    }
  }

  lemma NothingDecodes()
    ensures Decodes([], [])
  {}

  // ----- numbers -----

  datatype Sign = Unsigned | Positive | Negative

  /** A number: digits before the point and, if there are any, behind it and in the exponent. */
  datatype Numeral = Numeral(minus: bool, whole: seq<nat>, fraction: seq<nat>, capital: bool, sign: Sign, exponent: seq<nat>)

  ghost predicate DigitsOf(d: seq<nat>) {
    forall i :: 0 <= i < |d| ==> d[i] < 10
  }

  ghost predicate NumeralAllowed(n: Numeral) {
    DigitsOf(n.whole) && DigitsOf(n.fraction) && DigitsOf(n.exponent)
    && n.whole != [] && (n.whole[0] == 0 ==> |n.whole| == 1)
  }

  function Figure(d: nat): Byte
    requires d < 10
  {
    Ascii("0123456789"[d])
  }

  ghost function Figures(d: seq<nat>): (r: seq<Byte>)
    requires DigitsOf(d)
    ensures |r| == |d|
  {
    if d == [] then [] else [Figure(d[0])] + Figures(d[1..])
  }

  ghost function SignText(sign: Sign): seq<Byte> {
    match sign
    case Unsigned => []
    case Positive => [Ascii('+')]
    case Negative => [Ascii('-')]
  }

  ghost function FractionText(n: Numeral): seq<Byte>
    requires NumeralAllowed(n)
  {
    When(n.fraction != [], [Ascii('.')] + Figures(n.fraction))
  }

  ghost function ExponentText(n: Numeral): seq<Byte>
    requires NumeralAllowed(n)
  {
    When(n.exponent != [], [Ascii(if n.capital then 'E' else 'e')] + SignText(n.sign) + Figures(n.exponent))
  }

  ghost function NumeralText(n: Numeral): seq<Byte>
    requires NumeralAllowed(n)
  {
    When(n.minus, [Ascii('-')]) + Figures(n.whole) + FractionText(n) + ExponentText(n)
  }

  /** The number of a digit string, the last digit worth one. */
  ghost function Amount(d: seq<nat>): nat {
    if d == [] then 0 else 10 * Amount(d[..|d| - 1]) + d[|d| - 1]
  }

  ghost function Magnitude(n: Numeral): int {
    var e := Amount(n.exponent);
    (if n.sign == Negative then 0 - e else e) - |n.fraction|
  }

  /** The integer part of the number: all its digits times a power of ten, cut off toward zero. */
  ghost predicate IntegerPart(n: Numeral, z: int) {
    var a, e := Amount(n.whole + n.fraction), Magnitude(n);
    var m := if z < 0 then 0 - z else z;
    (z > 0 ==> !n.minus) && (z < 0 ==> n.minus)
    && (if e >= 0 then m == a * Pow(10, e) else m * Pow(10, -e) <= a < (m + 1) * Pow(10, -e))
  }

  lemma FigureReads(d: nat)
    requires d < 10
    ensures Figure(d) == ZERO + d
  {}

  lemma {:induction false} FiguresRead(d: seq<nat>, done: seq<nat>, k: nat, rest: seq<Byte>)
    requires DigitsOf(d) && !Digit(At(rest, 0))
    ensures TakeDigits(Figures(d) + rest, Amount(done), k) == Digits(Amount(done + d), k + |d|, rest)
  {
    hide TakeDigits, Figures, Amount;
    if d == [] {
      NoFigures(rest);
      assert done + d == done;
      TakeNone(rest, Amount(done), k);
    } else {
      FiguresStep(d, done, k, rest);
      FiguresRead(d[1..], done + [d[0]], k + 1, rest);
      assert done + [d[0]] + d[1..] == done + d;
    }
  }

  lemma NoFigures(rest: seq<Byte>)
    ensures Figures([]) + rest == rest
  {}

  lemma FiguresStep(d: seq<nat>, done: seq<nat>, k: nat, rest: seq<Byte>)
    requires DigitsOf(d) && d != []
    ensures TakeDigits(Figures(d) + rest, Amount(done), k) == TakeDigits(Figures(d[1..]) + rest, Amount(done + [d[0]]), k + 1)
  {
    hide TakeDigits, Figure, Figures, Amount;
    AmountAppend(done, d[0]);
    FigureReads(d[0]);
    TakeOne(Figure(d[0]), Figures(d[1..]) + rest, Amount(done), k);
    FiguresUnfold(d);
    assert Figures(d) + rest == [Figure(d[0])] + (Figures(d[1..]) + rest);
  }

  lemma AmountAppend(d: seq<nat>, x: nat)
    ensures Amount(d + [x]) == 10 * Amount(d) + x
  {
    assert (d + [x])[..|d + [x]| - 1] == d;
  }

  lemma FiguresUnfold(d: seq<nat>)
    requires DigitsOf(d) && d != []
    ensures Figures(d) == [Figure(d[0])] + Figures(d[1..])
  {}

  lemma FiguresStart(d: seq<nat>, rest: seq<Byte>)
    requires DigitsOf(d) && d != []
    ensures var s := Figures(d) + rest; s[0] == ZERO + d[0] && Digit(s[0]) && (|d| == 1 ==> s[1..] == rest)
  {
    FigureReads(d[0]);
  }

  /** The digits before the point. */
  lemma WholeReads(d: seq<nat>, rest: seq<Byte>)
    requires DigitsOf(d) && d != [] && (d[0] == 0 ==> |d| == 1) && !Digit(At(rest, 0))
    ensures var w := Whole(Figures(d) + rest); w.n == Amount(d) && w.rest == rest
  {
    hide TakeDigits, Figures;
    FiguresStart(d, rest);
    if d[0] == 0 {
      assert d[..0] == [];
    } else {
      FiguresRead(d, [], 0, rest);
      assert [] + d == d;
    }
  }

  lemma FractionReads(n: Numeral, rest: seq<Byte>)
    requires NumeralAllowed(n) && !Digit(At(rest, 0)) && At(rest, 0) != Ascii('.')
    ensures Fraction(Amount(n.whole), FractionText(n) + rest) == Digits(Amount(n.whole + n.fraction), |n.fraction|, rest)
  {
    hide TakeDigits, Figures, Amount;
    if n.fraction == [] {
      assert n.whole + n.fraction == n.whole && [] + rest == rest;
    } else {
      FiguresStart(n.fraction, rest);
      FiguresRead(n.fraction, n.whole, 0, rest);
      assert (FractionText(n) + rest)[1..] == Figures(n.fraction) + rest;
    }
  }

  lemma ExponentReads(n: Numeral, rest: seq<Byte>)
    requires NumeralAllowed(n) && NumberEnds(rest)
    ensures Exponent(ExponentText(n) + rest) == Scale(Magnitude(n) + |n.fraction|, rest)
  {
    hide TakeDigits, Figures, Amount;
    var s := ExponentText(n) + rest;
    if n.exponent == [] {
      assert s == rest;
      AmountNone();
    } else {
      var t := SignText(n.sign) + (Figures(n.exponent) + rest);
      assert s[1..] == t;
      FiguresStart(n.exponent, rest);
      FiguresRead(n.exponent, [], 0, rest);
      AmountNone();
      assert [] + n.exponent == n.exponent;
      if n.sign == Unsigned {
        assert t == Figures(n.exponent) + rest;
      } else {
        assert t[1..] == Figures(n.exponent) + rest;
      }
    }
  }

  lemma AmountNone()
    ensures Amount([]) == 0
  {}

  lemma {:induction false} PowerIsPow(n: nat)
    ensures Power10(n) == Pow(10, n)
  {
    if n > 0 {
      PowerIsPow(n - 1);
    }
  }

  /** Cutting off toward zero. */
  lemma ScaledCuts(n: Numeral)
    requires NumeralAllowed(n)
    ensures IntegerPart(n, Scaled(n.minus, Amount(n.whole + n.fraction), Magnitude(n)))
  {
    hide Amount, Magnitude, Power10, Pow;
    var a, e := Amount(n.whole + n.fraction), Magnitude(n);
    if e >= 0 {
      PowerIsPow(e);
      assert a * Power10(e) >= 0;
    } else {
      PowerIsPow(-e);
      CutOff(a, Power10(-e));
    }
  }

  lemma CutOff(a: nat, p: nat)
    requires p > 0
    ensures var q := a / p; q >= 0 && q * p <= a < (q + 1) * p
  {
    var q := a / p;
    assert a == p * q + a % p;
    assert q * p == p * q && (q + 1) * p == q * p + p;
  }

  lemma FiveParts(a: seq<Byte>, b: seq<Byte>, c: seq<Byte>, d: seq<Byte>, e: seq<Byte>)
    ensures a + b + c + d + e == a + (b + (c + (d + e)))
  {}

  /** What stands behind the exponent's and the fraction's place. */
  lemma NumeralHeads(n: Numeral, rest: seq<Byte>)
    requires NumeralAllowed(n) && NumberEnds(rest)
    ensures var c := ExponentText(n) + rest; !Digit(At(c, 0)) && At(c, 0) != Ascii('.')
    ensures !Digit(At(FractionText(n) + (ExponentText(n) + rest), 0))
  {
    hide Figures;
    var c := ExponentText(n) + rest;
    if n.exponent == [] { assert c == rest; }
    if n.fraction == [] { assert FractionText(n) + c == c; }
  }

  lemma NumeralStart(n: Numeral, b: seq<Byte>)
    requires NumeralAllowed(n)
    ensures var a := Figures(n.whole) + b; var s := When(n.minus, [Ascii('-')]) + a;
            n.minus == (At(s, 0) == MINUS) && (if n.minus then s[1..] else s) == a && Digit(s[if n.minus then 1 else 0])
  {
    FiguresStart(n.whole, b);
  }

  /** A number of the grammar reads as its integer part. */
  lemma NumeralReads(n: Numeral, rest: seq<Byte>)
    requires NumeralAllowed(n) && NumberEnds(rest)
    ensures var r := ParseNumber(NumeralText(n) + rest);
            r.Parsed? && r.rest == rest && r.value.Number? && IntegerPart(n, r.value.value)
  {
    hide Whole, Fraction, Exponent, Scaled, IntegerPart, FractionText, ExponentText, Figures, Amount, Magnitude, NumberEnds, When, DigitsOf, Digit;
    var c := ExponentText(n) + rest;
    var b := FractionText(n) + c;
    NumeralHeads(n, rest);
    NumeralStart(n, b);
    FiveParts(When(n.minus, [Ascii('-')]), Figures(n.whole), FractionText(n), ExponentText(n), rest);
    WholeReads(n.whole, b);
    FractionReads(n, c);
    ExponentReads(n, rest);
    ScaledCuts(n);
  }

  /** There is only one integer part. */
  lemma IntegerPartUnique(n: Numeral, y: int, z: int)
    requires IntegerPart(n, y) && IntegerPart(n, z)
    ensures y == z
  {
    hide Amount, Magnitude, Pow;
    var e := Magnitude(n);
    var k, m := if y < 0 then 0 - y else y, if z < 0 then 0 - z else z;
    if e < 0 {
      var p := Pow(10, -e);
      PowPos(10, -e);
      if k < m { MulMono(k + 1, m, p); }
      if m < k { MulMono(m + 1, k, p); }
    }
  }

  ghost function Integer(n: Numeral): (z: int)
    requires NumeralAllowed(n)
    ensures IntegerPart(n, z)
  {
    ScaledCuts(n);
    Scaled(n.minus, Amount(n.whole + n.fraction), Magnitude(n))
  }

  lemma NumberReads(n: Numeral, rest: seq<Byte>)
    requires NumeralAllowed(n) && NumberEnds(rest)
    ensures ParseNumber(NumeralText(n) + rest) == Parsed(Number(Integer(n)), rest)
  {
    hide ParseNumber, NumeralText, NumberEnds, NumeralAllowed, Integer, IntegerPart;
    NumeralReads(n, rest);
    IntegerPartUnique(n, ParseNumber(NumeralText(n) + rest).value.value, Integer(n));
  }

  // ----- texts -----

  /** Space, tab, line feed and carriage return. */
  predicate Space(s: seq<Byte>) {
    forall i :: 0 <= i < |s| ==> s[i] == Ascii(' ') || s[i] == Ascii('\t') || s[i] == Ascii('\n') || s[i] == Ascii('\r')
  }

  /** A text: a word, a number, a string, or the entries between brackets or braces with the space in
      an empty pair. */
  datatype Document = Word(value: Json) | Numeric(n: Numeral) | Text(chars: seq<Character>) | List(space: seq<Byte>, items: Entries) | Record(space: seq<Byte>, members: Entries)

  /** Entries with the space before them, before and behind the colon, and behind the value. */
  datatype Entries = Nothing | Entry(before: seq<Byte>, name: seq<Character>, gap: seq<Byte>, behind: seq<Byte>, item: Document, after: seq<Byte>, next: Entries)

  ghost predicate WellFormed(d: Document) {
    match d
    case Word(v) => v.Null? || v.False? || v.True?
    case Numeric(n) => NumeralAllowed(n)
    case Text(s) => AllAllowed(s)
    case List(space, c) => Space(space) && EntriesFormed(c)
    case Record(space, c) => Space(space) && EntriesFormed(c)
  }

  ghost predicate EntriesFormed(c: Entries) {
    c.Entry? ==>
      (Space(c.before) && AllAllowed(c.name) && Space(c.gap) && Space(c.behind) && Space(c.after)
       && WellFormed(c.item) && EntriesFormed(c.next))
  }

  function Letters(s: string): seq<Byte> {
    if s == [] then [] else [Ascii(s[0])] + Letters(s[1..])
  }

  ghost function Render(d: Document): seq<Byte>
    requires WellFormed(d)
  {
    match d
    case Word(v) => Letters(if v.Null? then "null" else if v.False? then "false" else "true")
    case Numeric(n) => NumeralText(n)
    case Text(s) => Quoted(s)
    case List(space, c) => [Ascii('[')] + (if c.Nothing? then space else Items(c)) + [Ascii(']')]
    case Record(space, c) => [Ascii('{')] + (if c.Nothing? then space else Members(c)) + [Ascii('}')]
  }

  ghost function Items(c: Entries): seq<Byte>
    requires EntriesFormed(c)
  {
    if c.Nothing? then []
    else c.before + Render(c.item) + c.after + When(c.next.Entry?, [Ascii(',')]) + Items(c.next)
  }

  ghost function Members(c: Entries): seq<Byte>
    requires EntriesFormed(c)
  {
    if c.Nothing? then []
    else
      c.before + Quoted(c.name) + c.gap + [Ascii(':')] + c.behind + Render(c.item) + c.after
      + When(c.next.Entry?, [Ascii(',')]) + Members(c.next)
  }

  /** The tree a text means. */
  ghost function Value(d: Document): Json
    requires WellFormed(d)
  {
    match d
    case Word(v) => v
    case Numeric(n) => Number(Integer(n))
    case Text(s) => String(Contents(s))
    case List(_, c) => Array(Values(c, false))
    case Record(_, c) => Object(Values(c, true))
  }

  ghost function Values(c: Entries, named: bool): Chain
    requires EntriesFormed(c)
  {
    if c.Nothing? then End
    else Link(if named then Contents(c.name) else [], Value(c.item), Values(c.next, named))
  }

  lemma {:induction false} SkipSpace(w: seq<Byte>, s: seq<Byte>)
    requires Space(w)
    ensures Skip(w + s) == Skip(s)
  {
    if w == [] {
      assert w + s == s;
    } else {
      SkipSpace(w[1..], s);
      SkipOne(w[0], w[1..] + s);
      assert w + s == [w[0]] + (w[1..] + s);
    }
  }

  /** How a text starts. */
  lemma RenderStart(d: Document)
    requires WellFormed(d)
    ensures var s := Render(d);
            s != [] && s[0] > 32 && s[0] != CLOSE
            && (d.Numeric? ==> s[0] == MINUS || Digit(s[0]))
            && (d.Text? ==> s[0] == QUOTE) && (d.List? ==> s[0] == OPEN) && (d.Record? ==> s[0] == BEGIN)
  {
    hide Spelling, Items, Members, NumeralText;
    if d.Numeric? {
      NumeralHead(d.n);
    }
  }

  lemma NumeralHead(n: Numeral)
    requires NumeralAllowed(n)
    ensures var s := NumeralText(n); s != [] && (s[0] == MINUS || Digit(s[0]))
  {
    hide FractionText, ExponentText, Figures;
    FiguresStart(n.whole, []);
  }

  lemma WordReads(v: Json, rest: seq<Byte>)
    requires WellFormed(Word(v))
    ensures ParseValue(Render(Word(v)) + rest) == Parsed(v, rest)
  {
    assert Letters("null") == NULL && Letters("false") == FALSE && Letters("true") == TRUE by { Words(); }
    Keywords(rest);
  }

  lemma Words()
    ensures Letters("null") == NULL && Letters("false") == FALSE && Letters("true") == TRUE
  {}

  /** Every text of the grammar parses as the tree it means, and what follows is left. */
  lemma {:induction false} DocumentReads(d: Document, rest: seq<Byte>)
    requires WellFormed(d) && (d.Numeric? ==> NumberEnds(rest))
    ensures ParseValue(Render(d) + rest) == Parsed(Value(d), rest)
    decreases d, 0
  {
    hide Skip, ParseNumber, ParseString, NumeralText, Quoted, StartsWith, Items, Members, FinishArray, FinishObject, Integer, Space,
         NumeralAllowed, AllAllowed, NumberEnds, Contents;
    var s := Render(d) + rest;
    RenderStart(d);
    assert s[0] == Render(d)[0];
    match d
    case Word(v) => WordReads(v, rest);
    case Numeric(n) =>
      NoKeyword(s);
      NumberReads(n, rest);
    case Text(t) =>
      NoKeyword(s);
      StringReads(t, rest);
    case List(space, c) =>
      NoKeyword(s);
      ListReads(space, c, rest);
    case Record(space, c) =>
      NoKeyword(s);
      RecordReads(space, c, rest);
  }

  lemma ListReads(space: seq<Byte>, c: Entries, rest: seq<Byte>)
    requires Space(space) && EntriesFormed(c)
    ensures var s := Render(List(space, c)) + rest; FinishArray(Skip(s[1..])) == Parsed(Array(Values(c, false)), rest)
    decreases c, 2
  {
    hide Skip, ParseItems, EntriesFormed, Space, Items, Values;
    var end := [CLOSE] + rest;
    var s := Render(List(space, c)) + rest;
    assert end[1..] == rest;
    SkipNone(end);
    if c.Nothing? {
      assert s[1..] == space + end;
      SkipSpace(space, end);
      ValuesEnd(c, false);
    } else {
      var body := Items(c) + end;
      assert s[1..] == body;
      ItemsHead(c, end);
      ItemsRead(c, end);
      SkipTwice(body);
      ItemsSkip(Skip(body), body);
    }
  }

  lemma ValuesEnd(c: Entries, named: bool)
    requires c.Nothing?
    ensures Values(c, named) == End
  {}

  /** The text behind an entry's value. */
  ghost function AfterItem(c: Entries, more: seq<Byte>): seq<Byte>
    requires c.Entry?
  {
    c.after + (When(c.next.Entry?, [COMMA]) + more)
  }

  lemma ItemsText(c: Entries, end: seq<Byte>)
    requires c.Entry? && EntriesFormed(c)
    ensures Items(c) + end == c.before + (Render(c.item) + AfterItem(c, Items(c.next) + end))
  {
    hide Render, When, Space, AllAllowed, WellFormed;
    FiveParts(c.before, Render(c.item), c.after, When(c.next.Entry?, [COMMA]), Items(c.next) + end);
  }

  lemma ItemsHead(c: Entries, end: seq<Byte>)
    requires c.Entry? && EntriesFormed(c)
    ensures var t := Render(c.item) + AfterItem(c, Items(c.next) + end); Skip(Items(c) + end) == t && t[0] > 32 && t[0] != CLOSE
  {
    hide Skip, Items, Render, AfterItem;
    var t := Render(c.item) + AfterItem(c, Items(c.next) + end);
    ItemsText(c, end);
    RenderStart(c.item);
    SkipSpace(c.before, t);
    SkipNone(t);
  }

  /** Behind a value stands space, then a comma or what ends the entries. */
  lemma AfterItemEnds(c: Entries, more: seq<Byte>, close: Byte)
    requires c.Entry? && Space(c.after) && (close == CLOSE || close == FINISH)
    requires c.next.Nothing? ==> At(more, 0) == close
    ensures var t := AfterItem(c, more);
            NumberEnds(t) && Skip(t) == (if c.next.Nothing? then more else [COMMA] + more)
  {
    hide Skip;
    var tail := When(c.next.Entry?, [COMMA]) + more;
    assert tail == if c.next.Nothing? then more else [COMMA] + more;
    SkipSpace(c.after, tail);
    SkipNone(tail);
    if c.after == [] {
      assert AfterItem(c, more) == tail;
    } else {
      assert AfterItem(c, more)[0] == c.after[0];
    }
  }

  lemma {:induction false} ItemsRead(c: Entries, end: seq<Byte>)
    requires c.Entry? && EntriesFormed(c) && At(end, 0) == CLOSE
    ensures ParseItems(Items(c) + end) == Parsed(Values(c, false), end)
    decreases c, 1
  {
    hide Skip, ParseValue, Render, Value, NumberEnds, Items, AfterItem, Space, AllAllowed;
    var more := Items(c.next) + end;
    ItemsHead(c, end);
    if c.next.Nothing? { assert more == end by { NoItems(c.next); } }
    AfterItemEnds(c, more, CLOSE);
    DocumentReads(c.item, AfterItem(c, more));
    if c.next.Entry? {
      ItemsRead(c.next, end);
      assert ([COMMA] + more)[1..] == more;
    }
  }

  lemma NoItems(c: Entries)
    requires c.Nothing?
    ensures Items(c) == [] && Members(c) == []
  {}

  lemma RecordReads(space: seq<Byte>, c: Entries, rest: seq<Byte>)
    requires Space(space) && EntriesFormed(c)
    ensures var s := Render(Record(space, c)) + rest; FinishObject(Skip(s[1..])) == Parsed(Object(Values(c, true)), rest)
    decreases c, 2
  {
    hide Skip, ParseMembers, EntriesFormed, Space, Members, Values;
    var end := [FINISH] + rest;
    var s := Render(Record(space, c)) + rest;
    assert end[1..] == rest;
    SkipNone(end);
    if c.Nothing? {
      assert s[1..] == space + end;
      SkipSpace(space, end);
      ValuesEnd(c, true);
    } else {
      var body := Members(c) + end;
      assert s[1..] == body;
      MembersHead(c, end);
      MembersRead(c, end);
      SkipTwice(body);
      MembersSkip(Skip(body), body);
    }
  }

  /** The text behind a member's name. */
  ghost function AfterColon(c: Entries, more: seq<Byte>): seq<Byte>
    requires c.Entry? && WellFormed(c.item)
  {
    c.behind + (Render(c.item) + AfterItem(c, more))
  }

  lemma NineParts(a: seq<Byte>, b: seq<Byte>, c: seq<Byte>, d: seq<Byte>, e: seq<Byte>, f: seq<Byte>, g: seq<Byte>, h: seq<Byte>, i: seq<Byte>, j: seq<Byte>)
    ensures a + b + c + d + e + f + g + h + i + j == a + (b + (c + (d + (e + (f + (g + (h + (i + j))))))))
  {}

  lemma MembersText(c: Entries, end: seq<Byte>)
    requires c.Entry? && EntriesFormed(c)
    ensures Members(c) + end == c.before + (Quoted(c.name) + (c.gap + ([COLON] + AfterColon(c, Members(c.next) + end))))
  {
    hide EntriesFormed, Render, When, Quoted, Space, AllAllowed, WellFormed;
    MembersUnfold(c);
    NineParts(c.before, Quoted(c.name), c.gap, [COLON], c.behind, Render(c.item), c.after, When(c.next.Entry?, [COMMA]), Members(c.next), end);
  }

  lemma MembersUnfold(c: Entries)
    requires c.Entry? && EntriesFormed(c)
    ensures AllAllowed(c.name) && WellFormed(c.item) && EntriesFormed(c.next)
    ensures Members(c) == c.before + Quoted(c.name) + c.gap + [COLON] + c.behind + Render(c.item) + c.after
                          + When(c.next.Entry?, [COMMA]) + Members(c.next)
  {
    hide Quoted, Render, When, AllAllowed, WellFormed;
  }

  lemma QuotedStart(s: seq<Character>, t: seq<Byte>)
    requires AllAllowed(s)
    ensures (Quoted(s) + t)[0] == QUOTE
  {
    hide Spelling;
  }

  lemma MembersHead(c: Entries, end: seq<Byte>)
    requires c.Entry? && EntriesFormed(c)
    ensures var t := Quoted(c.name) + (c.gap + ([COLON] + AfterColon(c, Members(c.next) + end)));
            Skip(Members(c) + end) == t && At(t, 0) == QUOTE
  {
    hide Skip, Members, Quoted, AfterColon, AllAllowed;
    var t := Quoted(c.name) + (c.gap + ([COLON] + AfterColon(c, Members(c.next) + end)));
    MembersText(c, end);
    QuotedStart(c.name, c.gap + ([COLON] + AfterColon(c, Members(c.next) + end)));
    SkipSpace(c.before, t);
    SkipNone(t);
  }

  lemma ColonHead(c: Entries, more: seq<Byte>)
    requires c.Entry? && Space(c.gap) && Space(c.behind) && WellFormed(c.item)
    ensures var t := [COLON] + AfterColon(c, more); Skip(c.gap + t) == t && t[1..] == AfterColon(c, more)
    ensures Skip(AfterColon(c, more)) == Render(c.item) + AfterItem(c, more)
  {
    hide Skip, Render, AfterItem;
    var t := [COLON] + AfterColon(c, more);
    SkipSpace(c.gap, t);
    SkipNone(t);
    var v := Render(c.item) + AfterItem(c, more);
    RenderStart(c.item);
    SkipSpace(c.behind, v);
    SkipNone(v);
  }

  lemma {:induction false} MembersRead(c: Entries, end: seq<Byte>)
    requires c.Entry? && EntriesFormed(c) && At(end, 0) == FINISH
    ensures ParseMembers(Members(c) + end) == Parsed(Values(c, true), end)
    decreases c, 1
  {
    hide Skip, ParseValue, ParseString, Render, Value, NumberEnds, Members, AfterItem, AfterColon, Quoted, Contents, Space, AllAllowed;
    var more := Members(c.next) + end;
    MembersHead(c, end);
    StringReads(c.name, c.gap + ([COLON] + AfterColon(c, more)));
    ColonHead(c, more);
    if c.next.Nothing? { assert more == end by { NoItems(c.next); } }
    AfterItemEnds(c, more, FINISH);
    DocumentReads(c.item, AfterItem(c, more));
    if c.next.Entry? {
      MembersRead(c.next, end);
      assert ([COMMA] + more)[1..] == more;
    }
  }

  /** cJSON_Parse of any text of the grammar with space before it. */
  lemma TextReads(space: seq<Byte>, d: Document, rest: seq<Byte>)
    requires Space(space) && WellFormed(d) && (d.Numeric? ==> NumberEnds(rest))
    ensures ParseValue(Skip(space + (Render(d) + rest))) == Parsed(Value(d), rest)
  {
    hide ParseValue, Render, Skip, Space, WellFormed, NumberEnds;
    RenderStart(d);
    SkipSpace(space, Render(d) + rest);
    SkipNone(Render(d) + rest);
    DocumentReads(d, rest);
  }

  // ----- what is printed is a text of the grammar -----

  /** How print_string_ptr spells an octet. */
  function CharacterOf(c: Byte): Character
    requires c != 0
  {
    if c >= 0x80 then Stray(c)
    else if c == 0x22 then Letter(0)
    else if c == 0x5C then Letter(1)
    else if c == 0x08 then Letter(3)
    else if c == 0x0C then Letter(4)
    else if c == 0x0A then Letter(5)
    else if c == 0x0D then Letter(6)
    else if c == 0x09 then Letter(7)
    else if c < 0x20 then Code(c, [false, false, false, false])
    else Raw(c)
  }

  function Characters(s: seq<Byte>): seq<Character>
    requires Plain(s)
  {
    if s == [] then [] else [CharacterOf(s[0])] + Characters(s[1..])
  }

  lemma CharacterPrinted(c: Byte)
    requires c != 0
    ensures Allowed(CharacterOf(c)) && Octets(CharacterOf(c)) == [c] && Spelled(CharacterOf(c)) == Escape(c)
  {
    hide Four, HexDigit;
    if c < 0x20 { ControlPrinted(c); }
  }

  lemma ControlPrinted(c: Byte)
    requires c < 0x20
    ensures Four(c, [false, false, false, false]) == [ZERO, ZERO, HexDigit(c / 16), HexDigit(c % 16)]
  {
    hide Hexit, HexDigit;
    HexitIsDigit(0);
    HexitIsDigit(c / 16);
    HexitIsDigit(c % 16);
    assert HexDigit(0) == ZERO by { ZeroDigit(); }
  }

  lemma ZeroDigit()
    ensures HexDigit(0) == ZERO
  {}

  lemma HexitIsDigit(d: nat)
    requires d < 16
    ensures Hexit(d, false) == HexDigit(d)
  {}

  lemma {:induction false} StringPrinted(s: seq<Byte>)
    requires Plain(s)
    ensures AllAllowed(Characters(s)) && Contents(Characters(s)) == s && Spelling(Characters(s)) == Escaped(s)
  {
    hide Escape, Octets, Spelled, Allowed, CharacterOf;
    if s != [] {
      var c, t := CharacterOf(s[0]), Characters(s[1..]);
      CharacterPrinted(s[0]);
      StringPrinted(s[1..]);
      assert Characters(s)[1..] == t;
      assert [s[0]] + s[1..] == s;
    }
  }

  lemma QuotePrinted(s: seq<Byte>)
    requires Plain(s)
    ensures AllAllowed(Characters(s)) && Quoted(Characters(s)) == Quote(s) && Contents(Characters(s)) == s
  {
    hide Spelling, Escaped, AllAllowed, Characters;
    StringPrinted(s);
  }

  /** The digits of "%d". */
  function DigitsFor(n: nat): (r: seq<nat>)
    ensures r != []
  {
    if n < 10 then [n] else DigitsFor(n / 10) + [n % 10]
  }

  lemma {:induction false} FiguresAppend(d: seq<nat>, x: nat)
    requires DigitsOf(d) && x < 10
    ensures DigitsOf(d + [x]) && Figures(d + [x]) == Figures(d) + [Figure(x)]
  {
    hide Figure;
    if d == [] {
      assert [] + [x] == [x];
      assert [x][1..] == [];
    } else {
      FiguresAppend(d[1..], x);
      assert (d + [x])[1..] == d[1..] + [x];
    }
  }

  lemma {:induction false} DecimalPrinted(n: nat)
    ensures var d := DigitsFor(n);
            DigitsOf(d) && Figures(d) == Decimal(n) && Amount(d) == n && (d[0] == 0 ==> n == 0 && |d| == 1)
  {
    hide Figure, Figures, Amount;
    if n < 10 {
      OneFigure(n);
    } else {
      DecimalPrinted(n / 10);
      FiguresAppend(DigitsFor(n / 10), n % 10);
      FigureReads(n % 10);
      AmountAppend(DigitsFor(n / 10), n % 10);
    }
  }

  lemma OneFigure(n: nat)
    requires n < 10
    ensures Figures([n]) == [ZERO + n] && Amount([n]) == n
  {
    FigureReads(n);
    assert [n][1..] == [] && [n][..0] == [];
  }

  function NumeralFor(z: int): Numeral {
    Numeral(z < 0, DigitsFor(if z < 0 then -z else z), [], false, Unsigned, [])
  }

  lemma NumberPrinted(z: int)
    ensures NumeralAllowed(NumeralFor(z)) && NumeralText(NumeralFor(z)) == PrintNumber(z) && Integer(NumeralFor(z)) == z
  {
    hide Figures, Amount, Decimal, DigitsFor, Integer;
    var n := NumeralFor(z);
    var m: nat := if z < 0 then -z else z;
    DecimalPrinted(m);
    AmountNone();
    assert n.whole + n.fraction == DigitsFor(m);
    assert Pow(10, 0) == 1;
    IntegerPartUnique(n, Integer(n), z);
  }

  /** The text printed for a tree, as a text of the grammar. */
  ghost function Written(v: Json, depth: nat, fmt: bool): Document
    requires Printable(v)
    decreases v, 0
  {
    match v
    case Number(z) => Numeric(NumeralFor(z))
    case String(s) => Text(Characters(s))
    case Array(c) => List([], WrittenItems(c, depth + 1, fmt, []))
    case Object(c) => Record(When(fmt, [NEWLINE] + Tabs(depth - 1)), WrittenMembers(c, depth + 1, fmt))
    case _ => Word(v)
  }

  ghost function WrittenItems(c: Chain, depth: nat, fmt: bool, before: seq<Byte>): Entries
    requires PrintableChain(c, false)
    decreases c, 1
  {
    if c == End then Nothing
    else Entry(before, [], [], [], Written(c.item, depth, fmt), [], WrittenItems(c.next, depth, fmt, When(fmt, [BLANK])))
  }

  ghost function WrittenMembers(c: Chain, depth: nat, fmt: bool): Entries
    requires PrintableChain(c, true)
    decreases c, 1
  {
    if c == End then Nothing
    else
      Entry(When(fmt, [NEWLINE] + Tabs(depth)), Characters(c.name), [], When(fmt, [TAB]), Written(c.item, depth, fmt),
            When(fmt && c.next == End, [NEWLINE] + Tabs(depth - 1)), WrittenMembers(c.next, depth, fmt))
  }

  lemma {:induction false} TabsSpace(n: int)
    ensures Space(Tabs(n)) && Space(When(true, [NEWLINE] + Tabs(n)))
  {
    if n > 0 { TabsSpace(n - 1); }
  }

  /** Whatever is printed is a text of the grammar that means the tree. */
  lemma {:induction false} PrintedIsText(v: Json, depth: nat, fmt: bool)
    requires Printable(v)
    ensures var d := Written(v, depth, fmt); WellFormed(d) && Render(d) == Print(v, depth, fmt) && Value(d) == v
    decreases v, 0
  {
    hide NumeralText, Integer, NumeralFor, NumeralAllowed, Quoted, Quote, AllAllowed, Contents, Characters, Items, Members, Values,
         WrittenItems, WrittenMembers, EntriesFormed, PrintItems, PrintMembers, Space, Tabs, PrintNumber;
    match v
    case Number(z) => NumberPrinted(z);
    case String(s) => QuotePrinted(s);
    case Array(c) =>
      NoSpace();
      ItemsPrinted(c, depth + 1, fmt, []);
      NoneWritten(c, depth + 1, fmt);
    case Object(c) =>
      MembersPrinted(c, depth + 1, fmt);
      ObjectPrinted(c, depth, fmt);
    case _ => Words();
  }

  lemma ObjectPrinted(c: Chain, depth: nat, fmt: bool)
    requires PrintableChain(c, true)
    requires var e := WrittenMembers(c, depth + 1, fmt);
             EntriesFormed(e) && Values(e, true) == c
             && (c != End ==> Members(e) == When(fmt, [NEWLINE]) + PrintMembers(c, depth + 1, fmt) + When(fmt, Tabs(depth)))
    ensures var d := Written(Object(c), depth, fmt); WellFormed(d) && Render(d) == Print(Object(c), depth, fmt) && Value(d) == Object(c)
  {
    hide Members, Values, WrittenMembers, EntriesFormed, PrintMembers, Space, Tabs, When, Render, Print;
    var e := WrittenMembers(c, depth + 1, fmt);
    var space := When(fmt, [NEWLINE] + Tabs(depth - 1));
    ObjectSpace(depth, fmt);
    NoneWritten(c, depth + 1, fmt);
    RenderRecord(space, e);
    PrintObject(c, depth, fmt);
    if c != End {
      Braced(When(fmt, [NEWLINE]), PrintMembers(c, depth + 1, fmt), When(fmt, Tabs(depth)));
    }
  }

  lemma ObjectSpace(depth: nat, fmt: bool)
    ensures Space(When(fmt, [NEWLINE] + Tabs(depth - 1)))
  {
    hide Space, Tabs;
    TabsSpace(depth - 1);
    NoSpace();
  }

  lemma RenderRecord(space: seq<Byte>, e: Entries)
    requires Space(space) && EntriesFormed(e)
    ensures Render(Record(space, e)) == [BEGIN] + (if e.Nothing? then space else Members(e)) + [FINISH]
  {
    hide Members, EntriesFormed, Space;
  }

  lemma PrintObject(c: Chain, depth: nat, fmt: bool)
    ensures Print(Object(c), depth, fmt)
            == if c == End then [BEGIN] + When(fmt, [NEWLINE] + Tabs(depth - 1)) + [FINISH]
               else [BEGIN] + When(fmt, [NEWLINE]) + PrintMembers(c, depth + 1, fmt) + When(fmt, Tabs(depth)) + [FINISH]
  {
    hide When, Tabs, PrintMembers;
  }

  lemma Braced(a: seq<Byte>, b: seq<Byte>, c: seq<Byte>)
    ensures [BEGIN] + (a + b + c) + [FINISH] == [BEGIN] + a + b + c + [FINISH]
  {}

  lemma NoSpace()
    ensures Space([])
  {}

  lemma NoneWritten(c: Chain, depth: nat, fmt: bool)
    ensures PrintableChain(c, false) ==> (WrittenItems(c, depth, fmt, []).Nothing? <==> c == End)
    ensures PrintableChain(c, true) ==> (WrittenMembers(c, depth, fmt).Nothing? <==> c == End)
    ensures c == End ==> PrintItems(c, depth, fmt) == []
  {}

  lemma {:induction false} ItemsPrinted(c: Chain, depth: nat, fmt: bool, before: seq<Byte>)
    requires PrintableChain(c, false) && Space(before)
    ensures var e := WrittenItems(c, depth, fmt, before);
            EntriesFormed(e) && Values(e, false) == c && Items(e) == When(c != End, before) + PrintItems(c, depth, fmt)
    decreases c, 1
  {
    hide Print, Render, Written, WellFormed, Value, Printable;
    if c != End {
      var blank := When(fmt, [BLANK]);
      PrintedIsText(c.item, depth, fmt);
      ItemsPrinted(c.next, depth, fmt, blank);
    }
  }

  lemma LastMember(nl: seq<Byte>, tabs: seq<Byte>, q: seq<Byte>, tab: seq<Byte>, r: seq<Byte>, t: seq<Byte>)
    ensures nl + tabs + q + [] + [COLON] + tab + r + (nl + t) + [] + []
            == nl + (tabs + q + [COLON] + tab + r + [] + nl + []) + t
  {}

  lemma OneMember(nl: seq<Byte>, tabs: seq<Byte>, q: seq<Byte>, tab: seq<Byte>, r: seq<Byte>, more: seq<Byte>, t: seq<Byte>)
    ensures nl + tabs + q + [] + [COLON] + tab + r + [] + [COMMA] + (nl + more + t)
            == nl + (tabs + q + [COLON] + tab + r + [COMMA] + nl + more) + t
  {}

  lemma WhenBoth(p: bool, s: seq<Byte>, t: seq<Byte>)
    ensures When(p, s + t) == When(p, s) + When(p, t)
  {}

  lemma PrintMembersStep(c: Chain, depth: nat, fmt: bool)
    requires c.Link?
    ensures PrintMembers(c, depth, fmt)
            == When(fmt, Tabs(depth)) + Quote(c.name) + [COLON] + When(fmt, [TAB]) + Print(c.item, depth, fmt)
            + When(c.next != End, [COMMA]) + When(fmt, [NEWLINE]) + PrintMembers(c.next, depth, fmt)
    ensures PrintMembers(End, depth, fmt) == []
  {
    hide Print, Quote, Tabs, When;
  }

  lemma {:induction false} MembersPrinted(c: Chain, depth: nat, fmt: bool)
    requires PrintableChain(c, true) && depth > 0
    ensures var e := WrittenMembers(c, depth, fmt);
            EntriesFormed(e) && Values(e, true) == c
            && (c != End ==> Members(e) == When(fmt, [NEWLINE]) + PrintMembers(c, depth, fmt) + When(fmt, Tabs(depth - 1)))
    decreases c, 1
  {
    hide Print, Render, Written, WellFormed, Value, Printable, Quoted, Quote, AllAllowed, Contents, Tabs, Plain, PrintMembers, Members, Space, Characters;
    if c != End {
      var e := WrittenMembers(c, depth, fmt);
      PrintedIsText(c.item, depth, fmt);
      MembersPrinted(c.next, depth, fmt);
      QuotePrinted(c.name);
      TabsSpace(depth);
      TabsSpace(depth - 1);
      NoSpace();
      TabSpace();
      PrintMembersStep(c, depth, fmt);
      MembersUnfold(e);
      NoItems(Nothing);
      WhenBoth(fmt, [NEWLINE], Tabs(depth));
      WhenBoth(fmt, [NEWLINE], Tabs(depth - 1));
      var nl, tabs, q, tab := When(fmt, [NEWLINE]), When(fmt, Tabs(depth)), Quote(c.name), When(fmt, [TAB]);
      var r, t := Print(c.item, depth, fmt), When(fmt, Tabs(depth - 1));
      if c.next == End {
        LastMember(nl, tabs, q, tab, r, t);
      } else {
        OneMember(nl, tabs, q, tab, r, PrintMembers(c.next, depth, fmt), t);
      }
    }
  }

  lemma TabSpace()
    ensures Space([TAB])
  {}

  // ----- parsing undoes printing -----

  lemma StringRoundTrip(s: seq<Byte>, rest: seq<Byte>)
    requires Plain(s)
    ensures ParseString(Quote(s) + rest) == Parsed(s, rest)
  {
    hide ParseString, Quote, Quoted, Contents, Characters, AllAllowed;
    QuotePrinted(s);
    StringReads(Characters(s), rest);
  }

  lemma NumberRoundTrip(z: int, rest: seq<Byte>)
    requires NumberEnds(rest)
    ensures ParseNumber(PrintNumber(z) + rest) == Parsed(Number(z), rest)
  {
    hide ParseNumber, PrintNumber, NumeralText, NumeralAllowed, NumeralFor, Integer, NumberEnds;
    NumberPrinted(z);
    NumberReads(NumeralFor(z), rest);
  }

  /** Parsing a printed tree gives the tree back and leaves what follows, formatted or not, at any
      depth. */
  lemma RoundTrip(v: Json, depth: nat, fmt: bool, rest: seq<Byte>)
    requires Printable(v) && (v.Number? ==> NumberEnds(rest))
    ensures ParseValue(Print(v, depth, fmt) + rest) == Parsed(v, rest)
  {
    hide ParseValue, Print, Printable, WellFormed, Render, Value, NumberEnds;
    PrintedIsText(v, depth, fmt);
    DocumentReads(Written(v, depth, fmt), rest);
  }

  /** cJSON_Parse of cJSON_Print and of cJSON_PrintUnformatted. */
  lemma ParsePrinted(v: Json, fmt: bool)
    requires Printable(v)
    ensures ParseValue(Skip(Print(v, 0, fmt))) == Parsed(v, [])
  {
    hide ParseValue, Print, Printable, WellFormed, Render, Value, Skip;
    var d := Written(v, 0, fmt);
    PrintedIsText(v, 0, fmt);
    NoSpace();
    TextReads([], d, []);
    assert [] + (Render(d) + []) == Render(d);
  }
}
