/** cJSON's text form: what is printed for a tree, and what the parser makes of a text. Text is a
    sequence of octets that ends where C's terminating zero stands. */
module JsonText {
  import opened ByteStrings

  /** A tree; the children of arrays and objects are the linked list of the source. */
  datatype Json = Null | False | True | Number(value: int) | String(text: seq<Byte>) | Array(items: Chain) | Object(members: Chain)
  datatype Chain = End | Link(name: seq<Byte>, item: Json, next: Chain)

  const QUOTE: Byte := 34
  const BACKSLASH: Byte := 92
  const COMMA: Byte := 44
  const COLON: Byte := 58
  const TAB: Byte := 9
  const NEWLINE: Byte := 10
  const BLANK: Byte := 32
  const MINUS: Byte := 45
  const ZERO: Byte := 48
  const OPEN: Byte := 91
  const CLOSE: Byte := 93
  const BEGIN: Byte := 123
  const FINISH: Byte := 125

  const NULL: seq<Byte> := [110, 117, 108, 108]
  const FALSE: seq<Byte> := [102, 97, 108, 115, 101]
  const TRUE: seq<Byte> := [116, 114, 117, 101]

  // ----- printing -----

  /** "%d". */
  function Decimal(n: nat): (r: seq<Byte>)
    ensures r != []
  {
    if n < 10 then [ZERO + n] else Decimal(n / 10) + [ZERO + n % 10]
  }

  function PrintNumber(z: int): (r: seq<Byte>)
    ensures r != []
  {
    if z < 0 then [MINUS] + Decimal(-z) else Decimal(z)
  }

  function HexDigit(d: nat): Byte
    requires d < 16
  {
    if d < 10 then ZERO + d else 97 + (d - 10)
  }

  /** One character of a string: as it is, or escaped. */
  function Escape(c: Byte): (r: seq<Byte>)
    ensures r != []
  {
    if c > 31 && c != QUOTE && c != BACKSLASH then [c]
    else if c == BACKSLASH || c == QUOTE then [BACKSLASH, c]
    else if c == 8 then [BACKSLASH, 98]
    else if c == 12 then [BACKSLASH, 102]
    else if c == 10 then [BACKSLASH, 110]
    else if c == 13 then [BACKSLASH, 114]
    else if c == 9 then [BACKSLASH, 116]
    else [BACKSLASH, 117, ZERO, ZERO, HexDigit(c / 16), HexDigit(c % 16)]
  }

  function Escaped(s: seq<Byte>): seq<Byte> {
    if s == [] then [] else Escape(s[0]) + Escaped(s[1..])
  }

  /** print_string_ptr. */
  function Quote(s: seq<Byte>): seq<Byte> {
    [QUOTE] + Escaped(s) + [QUOTE]
  }

  function Tabs(n: int): (r: seq<Byte>)
    ensures |r| == if n > 0 then n else 0
  {
    if n <= 0 then [] else [TAB] + Tabs(n - 1)
  }

  function When(p: bool, s: seq<Byte>): seq<Byte> {
    if p then s else []
  }

  /** print_value at a nesting depth, formatted or not. */
  function Print(v: Json, depth: nat, fmt: bool): seq<Byte> {
    match v
    case Null => NULL
    case False => FALSE
    case True => TRUE
    case Number(z) => PrintNumber(z)
    case String(s) => Quote(s)
    case Array(c) => [OPEN] + PrintItems(c, depth + 1, fmt) + [CLOSE]
    case Object(c) =>
      if c == End then [BEGIN] + When(fmt, [NEWLINE] + Tabs(depth - 1)) + [FINISH]
      else [BEGIN] + When(fmt, [NEWLINE]) + PrintMembers(c, depth + 1, fmt) + When(fmt, Tabs(depth)) + [FINISH]
  }

  function PrintItems(c: Chain, depth: nat, fmt: bool): seq<Byte> {
    match c
    case End => []
    case Link(_, v, next) =>
      Print(v, depth, fmt) + When(next != End, [COMMA] + When(fmt, [BLANK])) + PrintItems(next, depth, fmt)
  }

  function PrintMembers(c: Chain, depth: nat, fmt: bool): seq<Byte> {
    match c
    case End => []
    case Link(name, v, next) =>
      When(fmt, Tabs(depth)) + Quote(name) + [COLON] + When(fmt, [TAB]) + Print(v, depth, fmt)
      + When(next != End, [COMMA]) + When(fmt, [NEWLINE]) + PrintMembers(next, depth, fmt)
  }

  // ----- parsing -----

  /** A value and the text that follows it. */
  datatype Parsed<T> = Failed | Parsed(value: T, rest: seq<Byte>)

  /** The character at position i, or the terminating zero. */
  function At(s: seq<Byte>, i: nat): Byte {
    if i < |s| then s[i] else 0
  }

  function Drop(s: seq<Byte>, n: nat): (r: seq<Byte>)
    ensures |r| <= |s|
    ensures n > 0 && s != [] ==> |r| < |s|
  {
    if n <= |s| then s[n..] else []
  }

  /** skip. */
  function Skip(s: seq<Byte>): (r: seq<Byte>)
    ensures |r| <= |s|
  {
    if s != [] && 0 < s[0] <= 32 then Skip(s[1..]) else s
  }

  predicate StartsWith(s: seq<Byte>, p: seq<Byte>) {
    |p| <= |s| && s[..|p|] == p
  }

  predicate Digit(c: Byte) {
    ZERO <= c <= ZERO + 9
  }

  /** Digits accumulated onto n, how many of them, and what follows. */
  datatype Digits = Digits(n: nat, count: nat, rest: seq<Byte>)

  function TakeDigits(s: seq<Byte>, n: nat, count: nat): (r: Digits)
    ensures |r.rest| <= |s|
  {
    if s != [] && Digit(s[0]) then TakeDigits(s[1..], 10 * n + (s[0] - ZERO), count + 1) else Digits(n, count, s)
  }

  function Power10(n: nat): (r: nat)
    ensures r > 0
  {
    if n == 0 then 1 else 10 * Power10(n - 1)
  }

  /** The integer part, toward zero, of +-n * 10^e. */
  function Scaled(negative: bool, n: nat, e: int): int {
    var m := if e >= 0 then n * Power10(e) else n / Power10(-e);
    if negative then -m else m
  }

  /** The digits before the point. */
  function Whole(s: seq<Byte>): (r: Digits)
    ensures |r.rest| <= |s|
    ensures s != [] && Digit(s[0]) ==> |r.rest| < |s|
  {
    var s1 := if At(s, 0) == ZERO then s[1..] else s;
    if ZERO < At(s1, 0) <= ZERO + 9 then TakeDigits(s1, 0, 0) else Digits(0, 0, s1)
  }

  /** More digits, behind the point; the count is of those. */
  function Fraction(n: nat, s: seq<Byte>): (r: Digits)
    ensures |r.rest| <= |s|
  {
    if At(s, 0) == 46 && Digit(At(s, 1)) then TakeDigits(s[1..], n, 0) else Digits(n, 0, s)
  }

  datatype Scale = Scale(e: int, rest: seq<Byte>)

  /** The exponent, if there is one. */
  function Exponent(s: seq<Byte>): (r: Scale)
    ensures |r.rest| <= |s|
  {
    if At(s, 0) == 101 || At(s, 0) == 69 then
      var t := s[1..];
      var d := TakeDigits(if At(t, 0) == 43 || At(t, 0) == MINUS then t[1..] else t, 0, 0);
      Scale(if At(t, 0) == MINUS then 0 - d.n else d.n, d.rest)
    else Scale(0, s)
  }

  /** parse_number: the integer the item gets, the double taken as an exact number. */
  function ParseNumber(s: seq<Byte>): (r: Parsed<Json>)
    ensures r.Parsed? && |r.rest| <= |s|
    ensures s != [] && (s[0] == MINUS || Digit(s[0])) ==> |r.rest| < |s|
  {
    var negative := At(s, 0) == MINUS;
    var whole := Whole(if negative then s[1..] else s);
    var m := Fraction(whole.n, whole.rest);
    var x := Exponent(m.rest);
    Parsed(Number(Scaled(negative, m.n, x.e - m.count)), x.rest)
  }

  /** One hexadecimal digit, or 16. */
  function HexValue(c: Byte): (r: nat)
    ensures r <= 16
  {
    if Digit(c) then c - ZERO else if 65 <= c <= 70 then 10 + (c - 65) else if 97 <= c <= 102 then 10 + (c - 97) else 16
  }

  /** parse_hex4 at position i: zero if any of the four is not a digit. */
  function Hex4(s: seq<Byte>, i: nat): (r: nat)
    ensures r < 0x10000
  {
    var a, b, c, d := HexValue(At(s, i)), HexValue(At(s, i + 1)), HexValue(At(s, i + 2)), HexValue(At(s, i + 3));
    if a == 16 || b == 16 || c == 16 || d == 16 then 0 else a * 0x1000 + b * 0x100 + c * 0x10 + d
  }

  /** The UTF-8 form of a code point. */
  function Utf8(u: nat): seq<Byte>
    requires u < 0x110000
  {
    if u < 0x80 then [u]
    else if u < 0x800 then [0xC0 + u / 0x40, 0x80 + u % 0x40]
    else if u < 0x10000 then [0xE0 + u / 0x1000, 0x80 + u / 0x40 % 0x40, 0x80 + u % 0x40]
    else [0xF0 + u / 0x40000, 0x80 + u / 0x1000 % 0x40, 0x80 + u / 0x40 % 0x40, 0x80 + u % 0x40]
  }

  predicate HighSurrogate(u: nat) { 0xD800 <= u <= 0xDBFF }
  predicate LowSurrogate(u: nat) { 0xDC00 <= u <= 0xDFFF }

  /** What an escape stands for; t starts behind the backslash. The second part says how many
      characters of t it takes. */
  datatype Meaning = Meaning(octets: seq<Byte>, used: nat)

  function ReadEscape(t: seq<Byte>): (r: Meaning)
    ensures r.used > 0
  {
    var c := At(t, 0);
    if c == 98 then Meaning([8], 1)
    else if c == 102 then Meaning([12], 1)
    else if c == 110 then Meaning([10], 1)
    else if c == 114 then Meaning([13], 1)
    else if c == 116 then Meaning([9], 1)
    else if c != 117 then Meaning([c], 1)
    else
      var u := Hex4(t, 1);
      if LowSurrogate(u) || u == 0 then Meaning([], 5)
      else if !HighSurrogate(u) then Meaning(Utf8(u), 5)
      else if At(t, 5) != BACKSLASH || At(t, 6) != 117 then Meaning([], 5)
      else
        var u2 := Hex4(t, 7);
        if !LowSurrogate(u2) then Meaning([], 11)
        else Meaning(Utf8(0x10000 + (u - 0xD800) * 0x400 + (u2 - 0xDC00)), 11)
  }

  /** Where the loops over a string's characters end: at a quote or a zero. */
  predicate Stops(s: seq<Byte>) {
    s == [] || s[0] == QUOTE || s[0] == 0
  }

  /** The octets written for the characters up to there, and what is left from there. */
  function Unescape(s: seq<Byte>): (r: Parsed<seq<Byte>>)
    ensures r.Parsed? && |r.rest| <= |s|
    decreases |s|
  {
    if Stops(s) then Parsed([], s)
    else if s[0] != BACKSLASH then
      var tail := Unescape(s[1..]);
      Parsed([s[0]] + tail.value, tail.rest)
    else
      var e := ReadEscape(s[1..]);
      var tail := Unescape(Drop(s[1..], e.used));
      Parsed(e.octets + tail.value, tail.rest)
  }

  /** The string that starts an array of octets: up to the first zero. */
  function Cut(s: seq<Byte>): seq<Byte> {
    if s == [] || s[0] == 0 then [] else [s[0]] + Cut(s[1..])
  }

  /** parse_string. A missing closing quote is not an error. */
  function ParseString(s: seq<Byte>): (r: Parsed<seq<Byte>>)
    ensures r.Parsed? ==> |r.rest| < |s|
  {
    if At(s, 0) != QUOTE then Failed
    else
      var body := Unescape(s[1..]);
      Parsed(Cut(body.value), if At(body.rest, 0) == QUOTE then body.rest[1..] else body.rest)
  }

  /** parse_value. */
  function ParseValue(s: seq<Byte>): (r: Parsed<Json>)
    ensures r.Parsed? ==> |r.rest| < |s|
    decreases |s|, 0
  {
    if StartsWith(s, NULL) then Parsed(Null, s[4..])
    else if StartsWith(s, FALSE) then Parsed(False, s[5..])
    else if StartsWith(s, TRUE) then Parsed(True, s[4..])
    else if At(s, 0) == QUOTE then
      var text := ParseString(s);
      Parsed(String(text.value), text.rest)
    else if At(s, 0) == MINUS || Digit(At(s, 0)) then ParseNumber(s)
    else if At(s, 0) == OPEN then FinishArray(Skip(s[1..]))
    else if At(s, 0) == BEGIN then FinishObject(Skip(s[1..]))
    else Failed
  }

  /** What parse_array does behind the opening bracket. */
  function FinishArray(t: seq<Byte>): (r: Parsed<Json>)
    ensures r.Parsed? ==> |r.rest| < |t|
    decreases |t|, 2
  {
    if At(t, 0) == CLOSE then Parsed(Array(End), t[1..])
    else
      match ParseItems(t)
      case Failed => Failed
      case Parsed(c, rest) => if At(rest, 0) == CLOSE then Parsed(Array(c), rest[1..]) else Failed
  }

  /** What parse_object does behind the opening brace. */
  function FinishObject(t: seq<Byte>): (r: Parsed<Json>)
    ensures r.Parsed? ==> |r.rest| < |t|
    decreases |t|, 2
  {
    if At(t, 0) == FINISH then Parsed(Object(End), t[1..])
    else
      match ParseMembers(t)
      case Failed => Failed
      case Parsed(c, rest) => if At(rest, 0) == FINISH then Parsed(Object(c), rest[1..]) else Failed
  }

  /** The loop of parse_array over the elements; what is left is skipped to the next character. */
  function ParseItems(s: seq<Byte>): (r: Parsed<Chain>)
    ensures r.Parsed? ==> |r.rest| < |s|
    decreases |s|, 1
  {
    match ParseValue(Skip(s))
    case Failed => Failed
    case Parsed(v, rest) =>
      var t := Skip(rest);
      if At(t, 0) != COMMA then Parsed(Link([], v, End), t)
      else
        match ParseItems(t[1..])
        case Failed => Failed
        case Parsed(next, end) => Parsed(Link([], v, next), end)
  }

  /** The loop of parse_object over the members. */
  function ParseMembers(s: seq<Byte>): (r: Parsed<Chain>)
    ensures r.Parsed? ==> |r.rest| < |s|
    decreases |s|, 1
  {
    match ParseString(Skip(s))
    case Failed => Failed
    case Parsed(name, afterName) =>
      var t := Skip(afterName);
      if At(t, 0) != COLON then Failed
      else
        match ParseValue(Skip(t[1..]))
        case Failed => Failed
        case Parsed(v, rest) =>
          var q := Skip(rest);
          if At(q, 0) != COMMA then Parsed(Link(name, v, End), q)
          else
            match ParseMembers(q[1..])
            case Failed => Failed
            case Parsed(next, end) => Parsed(Link(name, v, next), end)
  }

  // ----- single steps -----

  predicate Plain(s: seq<Byte>) {
    forall i :: 0 <= i < |s| ==> s[i] != 0
  }

  /** Trees that C can hold: strings end at their first zero, numbers are ints; array elements have
      no names. */
  predicate Printable(v: Json) {
    match v
    case Number(z) => -0x8000_0000 <= z < 0x8000_0000
    case String(s) => Plain(s)
    case Array(c) => PrintableChain(c, false)
    case Object(c) => PrintableChain(c, true)
    case _ => true
  }

  predicate PrintableChain(c: Chain, named: bool) {
    c.Link? ==> Plain(c.name) && (named || c.name == []) && Printable(c.item) && PrintableChain(c.next, named)
  }

  lemma HexRoundTrip(d: nat)
    requires d < 16
    ensures HexValue(HexDigit(d)) == d
  {}

  lemma HexZero()
    ensures HexValue(ZERO) == 0
  {}

  lemma UnescapeEnd(q: seq<Byte>)
    requires q != [] && q[0] == QUOTE
    ensures Unescape(q) == Parsed([], q)
  {}

  lemma UnescapeNext(s: seq<Byte>)
    requires !Stops(s)
    ensures s[0] != BACKSLASH ==> Unescape(s) == Parsed([s[0]] + Unescape(s[1..]).value, Unescape(s[1..]).rest)
    ensures var e := ReadEscape(s[1..]); var t := Drop(s[1..], e.used);
            s[0] == BACKSLASH ==> Unescape(s) == Parsed(e.octets + Unescape(t).value, Unescape(t).rest)
  {
    hide ReadEscape;
  }

  lemma {:induction false} CutPlain(s: seq<Byte>)
    requires Plain(s)
    ensures Cut(s) == s
  {
    if s != [] {
      CutPlain(s[1..]);
      assert s == [s[0]] + s[1..];
    }
  }

  /** Where a printed number can end. */
  predicate NumberEnds(s: seq<Byte>) {
    !Digit(At(s, 0)) && At(s, 0) != 46 && At(s, 0) != 69 && At(s, 0) != 101
  }

  lemma TakeOne(d: Byte, rest: seq<Byte>, n: nat, k: nat)
    requires Digit(d)
    ensures TakeDigits([d] + rest, n, k) == TakeDigits(rest, 10 * n + (d - ZERO), k + 1)
  {
    assert ([d] + rest)[1..] == rest;
  }

  lemma TakeNone(s: seq<Byte>, n: nat, k: nat)
    requires !Digit(At(s, 0))
    ensures TakeDigits(s, n, k) == Digits(n, k, s)
  {}

  lemma SkipNone(s: seq<Byte>)
    requires s == [] || s[0] > 32
    ensures Skip(s) == s
  {}

  lemma SkipOne(c: Byte, s: seq<Byte>)
    requires 0 < c <= 32
    ensures Skip([c] + s) == Skip(s)
  {
    assert ([c] + s)[1..] == s;
  }

  lemma Keywords(rest: seq<Byte>)
    ensures StartsWith(NULL + rest, NULL) && (NULL + rest)[4..] == rest
    ensures !StartsWith(FALSE + rest, NULL) && StartsWith(FALSE + rest, FALSE) && (FALSE + rest)[5..] == rest
    ensures !StartsWith(TRUE + rest, NULL) && !StartsWith(TRUE + rest, FALSE) && StartsWith(TRUE + rest, TRUE) && (TRUE + rest)[4..] == rest
  {
    assert (NULL + rest)[..4] == NULL && (FALSE + rest)[..5] == FALSE && (TRUE + rest)[..4] == TRUE;
    assert (FALSE + rest)[..4][0] == 102 && (TRUE + rest)[..4][0] == 116 && (|TRUE + rest| >= 5 ==> (TRUE + rest)[..5][0] == 116);
  }

  lemma NoKeyword(s: seq<Byte>)
    requires s != [] && s[0] != 110 && s[0] != 102 && s[0] != 116
    ensures !StartsWith(s, NULL) && !StartsWith(s, FALSE) && !StartsWith(s, TRUE)
  {
    assert |s| >= 4 ==> s[..4][0] == s[0];
    assert |s| >= 5 ==> s[..5][0] == s[0];
  }

  /** Leading space does not matter to the loops. */
  lemma ItemsSkip(s: seq<Byte>, t: seq<Byte>)
    requires Skip(s) == Skip(t)
    ensures ParseItems(s) == ParseItems(t)
  {
    hide ParseValue;
  }

  lemma MembersSkip(s: seq<Byte>, t: seq<Byte>)
    requires Skip(s) == Skip(t)
    ensures ParseMembers(s) == ParseMembers(t)
  {
    hide ParseValue, ParseString;
  }

  lemma {:induction false} SkipTwice(s: seq<Byte>)
    ensures Skip(Skip(s)) == Skip(s)
  {
    if s != [] && 0 < s[0] <= 32 {
      SkipTwice(s[1..]);
    }
  }
}
