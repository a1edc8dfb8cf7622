/** cJSON's parser: a cursor that moves over the text, loops over characters, items and members.
    A cursor that the source moves past the terminating zero stays on it here. */
module JsonParse {
  import opened ByteStrings
  import opened JsonText

  lemma AtSuffix(text: seq<Byte>, p: nat, i: nat)
    requires p <= |text|
    ensures At(text[p..], i) == At(text, p + i)
  {}

  lemma SuffixDrop(text: seq<Byte>, p: nat, n: nat)
    requires p <= |text|
    ensures Drop(text[p..], n) == text[Clamp(text, p + n)..]
    ensures p + n <= |text| ==> text[p..][n..] == text[p + n..]
  {}

  /** A position of the text, or its end. */
  function Clamp(text: seq<Byte>, p: nat): (r: nat)
    ensures r <= |text|
  {
    if p <= |text| then p else |text|
  }

  /** skip. */
  method SkipFrom(text: seq<Byte>, p: nat) returns (q: nat)
    requires p <= |text|
    ensures p <= q <= |text| && text[q..] == Skip(text[p..])
  {
    q := p;
    while q < |text| && 0 < text[q] <= 32
      invariant p <= q <= |text| && Skip(text[q..]) == Skip(text[p..])
    {
      SuffixDrop(text, q, 1);
      q := q + 1;
    }
  }

  // ----- numbers -----

  /** The loops of parse_number over digits. */
  method ReadDigits(text: seq<Byte>, p: nat, start: nat) returns (n: nat, count: nat, q: nat)
    requires p <= |text|
    ensures p <= q <= |text| && TakeDigits(text[p..], start, 0) == Digits(n, count, text[q..])
  {
    n, count, q := start, 0, p;
    while q < |text| && Digit(text[q])
      invariant p <= q <= |text| && TakeDigits(text[p..], start, 0) == TakeDigits(text[q..], n, count)
    {
      SuffixDrop(text, q, 1);
      n, count, q := 10 * n + (text[q] - ZERO), count + 1, q + 1;
    }
  }

  method ReadWhole(text: seq<Byte>, p: nat) returns (n: nat, q: nat)
    requires p <= |text|
    ensures p <= q <= |text| && Whole(text[p..]).n == n && Whole(text[p..]).rest == text[q..]
  {
    hide TakeDigits;
    n, q := 0, p;
    AtSuffix(text, q, 0);
    if At(text, q) == ZERO {
      SuffixDrop(text, q, 1);
      q := q + 1;
    }
    AtSuffix(text, q, 0);
    if ZERO < At(text, q) <= ZERO + 9 {
      var count;
      n, count, q := ReadDigits(text, q, 0);
    }
  }

  method ReadFraction(text: seq<Byte>, p: nat, start: nat) returns (n: nat, scale: nat, q: nat)
    requires p <= |text|
    ensures p <= q <= |text| && Fraction(start, text[p..]) == Digits(n, scale, text[q..])
  {
    hide TakeDigits;
    n, scale, q := start, 0, p;
    AtSuffix(text, q, 0);
    AtSuffix(text, q, 1);
    if At(text, q) == 46 && Digit(At(text, q + 1)) {
      SuffixDrop(text, q, 1);
      n, scale, q := ReadDigits(text, q + 1, n);
    }
  }

  method ReadExponent(text: seq<Byte>, p: nat) returns (subscale: int, q: nat)
    requires p <= |text|
    ensures p <= q <= |text| && Exponent(text[p..]) == Scale(subscale, text[q..])
  {
    hide TakeDigits;
    subscale, q := 0, p;
    AtSuffix(text, p, 0);
    if At(text, q) == 101 || At(text, q) == 69 {
      SuffixDrop(text, q, 1);
      q := q + 1;
      AtSuffix(text, q, 0);
      var minus := At(text, q) == MINUS;
      if At(text, q) == 43 || minus {
        SuffixDrop(text, q, 1);
        q := q + 1;
      }
      var n: nat, count: nat;
      n, count, q := ReadDigits(text, q, 0);
      subscale := if minus then 0 - n else n;
    }
  }

  /** parse_number. */
  method ParseNumberAt(text: seq<Byte>, p: nat) returns (item: Json, q: nat)
    requires p <= |text|
    ensures p <= q <= |text| && ParseNumber(text[p..]) == Parsed(item, text[q..])
  {
    hide Whole, Fraction, Exponent, Scaled;
    q := p;
    var negative := At(text, q) == MINUS;
    AtSuffix(text, p, 0);
    if negative {
      SuffixDrop(text, p, 1);
      q := q + 1;
    }
    var n, scale, subscale;
    n, q := ReadWhole(text, q);
    n, scale, q := ReadFraction(text, q, n);
    subscale, q := ReadExponent(text, q);
    item := Number(Scaled(negative, n, subscale - scale));
  }

  // ----- strings -----

  /** What the first loop of parse_string counts: escapes as one character. */
  function Measure(s: seq<Byte>): nat
    decreases |s|
  {
    if Stops(s) then 0
    else 1 + Measure(Drop(s, if s[0] == BACKSLASH then 2 else 1))
  }

  method MeasureAt(text: seq<Byte>, p: nat) returns (len: nat)
    requires p <= |text|
    ensures len == Measure(text[p..])
  {
    len := 0;
    var q := p;
    while q < |text| && text[q] != QUOTE && text[q] != 0
      invariant p <= q <= |text| && len + Measure(text[q..]) == Measure(text[p..])
    {
      len := len + 1;
      SuffixDrop(text, q, 1);
      SuffixDrop(text, q, 2);
      q := if text[q] == BACKSLASH then Clamp(text, q + 2) else q + 1;
    }
  }

  predicate Hex(c: Byte) {
    HexValue(c) < 16
  }

  /** Every backslash is followed by a character and every \u by four hexadecimal digits. */
  predicate Escapes(s: seq<Byte>) {
    if Stops(s) then true
    else if s[0] != BACKSLASH then Escapes(s[1..])
    else |s| >= 2 && (s[1] == 117 ==> Hex(At(s, 2)) && Hex(At(s, 3)) && Hex(At(s, 4)) && Hex(At(s, 5))) && Escapes(s[2..])
  }

  /** With such escapes the characters fit in the block of Measure + 1 octets. */
  lemma {:induction false} StringFits(s: seq<Byte>)
    requires Escapes(s)
    ensures |Unescape(s).value| <= Measure(s)
    decreases |s|
  {
    hide Hex4, Utf8, HexValue;
    if Stops(s) {
    } else if s[0] != BACKSLASH {
      StringFits(s[1..]);
    } else {
      var e := ReadEscape(s[1..]);
      EscapeFits(s);
      StringFits(s[e.used + 1..]);
    }
  }

  lemma EscapesHere(s: seq<Byte>)
    requires s != [] && s[0] == BACKSLASH && Escapes(s)
    ensures |s| >= 2 && Escapes(s[2..]) && Measure(s) == 1 + Measure(s[2..])
    ensures s[1] == 117 ==> |s| >= 6 && Escapes(s[6..]) && Measure(s) == 5 + Measure(s[6..])
  {
    if s[1] == 117 {
      assert forall c: Byte :: Hex(c) ==> c != 0 && c != QUOTE && c != BACKSLASH;
      Ordinary(s, 2);
      Ordinary(s, 3);
      Ordinary(s, 4);
      Ordinary(s, 5);
    }
  }

  lemma Ordinary(s: seq<Byte>, i: nat)
    requires i < |s| && s[i] != QUOTE && s[i] != BACKSLASH && s[i] != 0
    ensures Escapes(s[i..]) <==> Escapes(s[i + 1..])
    ensures Measure(s[i..]) == 1 + Measure(s[i + 1..])
  {
    assert s[i..][1..] == s[i + 1..];
  }

  /** One escape, and what is behind it. */
  lemma EscapeFits(s: seq<Byte>)
    requires s != [] && s[0] == BACKSLASH && Escapes(s)
    ensures var e := ReadEscape(s[1..]);
            |s| > e.used && Drop(s[1..], e.used) == s[e.used + 1..]
            && Escapes(s[e.used + 1..]) && |e.octets| + Measure(s[e.used + 1..]) <= Measure(s)
  {
    hide Hex4, HexValue, Escapes, Measure;
    var t := s[1..];
    EscapesHere(s);
    assert t[0] == s[1];
    if t[0] == 117 && |s| > 7 && s[6] == BACKSLASH && s[7] == 117 {
      EscapesHere(s[6..]);
      assert s[6..][6..] == s[12..];
    }
  }

  /** The escapes of printed strings are such. */
  lemma {:induction false} PrintedEscapes(s: seq<Byte>, rest: seq<Byte>)
    requires Plain(s)
    ensures Escapes(Escaped(s) + ([QUOTE] + rest))
  {
    hide Escapes, Escape;
    var q := [QUOTE] + rest;
    if s == [] {
      assert Escaped(s) + q == q;
      NoEscapes(q);
    } else {
      var tail := Escaped(s[1..]) + q;
      PrintedEscapes(s[1..], rest);
      assert Escaped(s) + q == Escape(s[0]) + tail;
      OneEscape(s[0], tail);
    }
  }

  lemma NoEscapes(q: seq<Byte>)
    requires q != [] && q[0] == QUOTE
    ensures Escapes(q)
  {}

  lemma OneEscape(c: Byte, tail: seq<Byte>)
    requires c != 0 && Escapes(tail)
    ensures Escapes(Escape(c) + tail)
  {
    var t := Escape(c) + tail;
    if c > 31 && c != QUOTE && c != BACKSLASH {
      assert t[1..] == tail;
    } else if |Escape(c)| == 2 {
      assert t[2..] == tail;
    } else {
      HexRoundTrip(c / 16);
      HexRoundTrip(c % 16);
      HexZero();
      assert t[6..] == tail;
      FourDigits(t);
    }
  }

  lemma FourDigits(s: seq<Byte>)
    requires |s| >= 6 && Hex(s[2]) && Hex(s[3]) && Hex(s[4]) && Hex(s[5])
    ensures Escapes(s[2..]) <==> Escapes(s[6..])
  {
    assert forall c: Byte :: Hex(c) ==> c != 0 && c != QUOTE && c != BACKSLASH;
    Ordinary(s, 2);
    Ordinary(s, 3);
    Ordinary(s, 4);
    Ordinary(s, 5);
  }

  /** The second loop of parse_string. */
  method UnescapeAt(text: seq<Byte>, p: nat) returns (out: seq<Byte>, q: nat)
    requires p <= |text|
    ensures p <= q <= |text| && Unescape(text[p..]) == Parsed(out, text[q..])
  {
    hide ReadEscape, Unescape;
    out, q := [], p;
    UnescapeTotal(text[p..]);
    while q < |text| && text[q] != QUOTE && text[q] != 0
      invariant p <= q <= |text|
      invariant Unescape(text[p..]) == Parsed(out + Unescape(text[q..]).value, Unescape(text[q..]).rest)
      decreases |text| - q
    {
      UnescapeNext(text[q..]);
      SuffixDrop(text, q, 1);
      ghost var now := out;
      if text[q] != BACKSLASH {
        Append3(now, [text[q]], Unescape(text[q + 1..]).value);
        out, q := out + [text[q]], q + 1;
      } else {
        var e := ReadEscape(text[q + 1..]);
        SuffixDrop(text, q + 1, e.used);
        out, q := out + e.octets, Clamp(text, q + 1 + e.used);
        Append3(now, e.octets, Unescape(text[q..]).value);
      }
    }
    UnescapeDone(text[q..]);
    assert out + [] == out;
  }

  lemma Append3(a: seq<Byte>, b: seq<Byte>, c: seq<Byte>)
    ensures a + (b + c) == (a + b) + c
  {}

  lemma UnescapeDone(s: seq<Byte>)
    requires Stops(s)
    ensures Unescape(s) == Parsed([], s)
  {}

  lemma UnescapeTotal(s: seq<Byte>)
    ensures Unescape(s) == Parsed([] + Unescape(s).value, Unescape(s).rest)
  {
    assert [] + Unescape(s).value == Unescape(s).value;
  }

  /** A value and the cursor behind it, or nothing. */
  datatype Result<T> = Null | Found(value: T, at: nat)

  /** The result of a parsing method at position p is what the parsing function gives for the text
      from there. */
  predicate Agrees<T(==)>(text: seq<Byte>, p: nat, r: Result<T>, spec: Parsed<T>) {
    match r
    case Null => spec.Failed?
    case Found(v, q) => p < q <= |text| && spec == Parsed(v, text[q..])
  }

  /** parse_string. */
  method ParseStringAt(text: seq<Byte>, p: nat) returns (r: Result<seq<Byte>>)
    requires p <= |text|
    ensures Agrees(text, p, r, ParseString(text[p..]))
  {
    hide Unescape;
    AtSuffix(text, p, 0);
    if At(text, p) != QUOTE {
      return Result.Null;
    }
    SuffixDrop(text, p, 1);
    var out, q := UnescapeAt(text, p + 1);
    AtSuffix(text, q, 0);
    if At(text, q) == QUOTE {
      SuffixDrop(text, q, 1);
      q := q + 1;
    }
    r := Found(Cut(out), q);
  }

  // ----- values -----

  /** parse_value. */
  method ParseValueAt(text: seq<Byte>, p: nat) returns (r: Result<Json>)
    requires p <= |text|
    ensures Agrees(text, p, r, ParseValue(text[p..]))
    decreases |text| - p, 1
  {
    hide StartsWith, ParseValue, ParseString, ParseNumber, FinishArray, FinishObject, Skip;
    AtSuffix(text, p, 0);
    ValueCases(text[p..]);
    SuffixDrop(text, p, 4);
    SuffixDrop(text, p, 5);
    if StartsWith(text[p..], NULL) {
      r := Found(Json.Null, p + 4);
    } else if StartsWith(text[p..], FALSE) {
      r := Found(False, p + 5);
    } else if StartsWith(text[p..], TRUE) {
      r := Found(True, p + 4);
    } else if At(text, p) == QUOTE {
      var s := ParseStringAt(text, p);
      r := if s.Null? then Result.Null else Found(String(s.value), s.at);
    } else if At(text, p) == MINUS || Digit(At(text, p)) {
      var item, q := ParseNumberAt(text, p);
      r := Found(item, q);
    } else if At(text, p) == OPEN {
      r := ParseArrayAt(text, p);
    } else if At(text, p) == BEGIN {
      r := ParseObjectAt(text, p);
    } else {
      r := Result.Null;
    }
  }

  /** Which parser parse_value selects. */
  lemma ValueCases(s: seq<Byte>)
    ensures StartsWith(s, NULL) ==> |s| >= 4 && ParseValue(s) == Parsed(Json.Null, s[4..])
    ensures StartsWith(s, FALSE) ==> |s| >= 5 && ParseValue(s) == Parsed(False, s[5..])
    ensures StartsWith(s, TRUE) ==> |s| >= 4 && ParseValue(s) == Parsed(True, s[4..])
    ensures !StartsWith(s, NULL) && !StartsWith(s, FALSE) && !StartsWith(s, TRUE) ==> ParseValue(s) == Other(s)
  {
    hide ParseString, ParseNumber, FinishArray, FinishObject, Skip, StartsWith;
    WordLength(s, NULL);
    WordLength(s, FALSE);
    WordLength(s, TRUE);
    if At(s, 0) == QUOTE { StringGiven(s); }
  }

  lemma StringGiven(s: seq<Byte>)
    requires At(s, 0) == QUOTE
    ensures ParseString(s).Parsed?
  {
    hide Unescape;
  }

  function Other(s: seq<Byte>): Parsed<Json> {
    if At(s, 0) == QUOTE then
      (match ParseString(s)
       case Failed => Failed
       case Parsed(text, rest) => Parsed(String(text), rest))
    else if At(s, 0) == MINUS || Digit(At(s, 0)) then ParseNumber(s)
    else if At(s, 0) == OPEN then FinishArray(Skip(s[1..]))
    else if At(s, 0) == BEGIN then FinishObject(Skip(s[1..]))
    else Failed
  }

  lemma WordLength(s: seq<Byte>, word: seq<Byte>)
    requires word != []
    ensures StartsWith(s, word) ==> |s| >= |word| && s[0] == word[0]
  {
    if StartsWith(s, word) { assert s[..|word|][0] == word[0]; }
  }

  /** What follows an item: a comma and more items, or the end of the list. */
  function MoreItems(s: seq<Byte>): Parsed<Chain> {
    if At(s, 0) == COMMA then ParseItems(s[1..]) else Parsed(End, s)
  }

  function MoreMembers(s: seq<Byte>): Parsed<Chain> {
    if At(s, 0) == COMMA then ParseMembers(s[1..]) else Parsed(End, s)
  }

  /** A list whose first nodes are there already. */
  datatype Node = Node(name: seq<Byte>, item: Json)

  function Linked(nodes: seq<Node>, c: Chain): Chain {
    if nodes == [] then c
    else
      var last := nodes[|nodes| - 1];
      Linked(nodes[..|nodes| - 1], Link(last.name, last.item, c))
  }

  function Behind(nodes: seq<Node>, r: Parsed<Chain>): Parsed<Chain> {
    match r
    case Failed => Failed
    case Parsed(c, rest) => Parsed(Linked(nodes, c), rest)
  }

  function Consed(n: Node, r: Parsed<Chain>): Parsed<Chain> {
    match r
    case Failed => Failed
    case Parsed(c, rest) => Parsed(Link(n.name, n.item, c), rest)
  }

  lemma BehindOne(nodes: seq<Node>, n: Node, r: Parsed<Chain>)
    ensures Behind(nodes + [n], r) == Behind(nodes, Consed(n, r))
  {
    assert (nodes + [n])[..|nodes|] == nodes;
  }

  lemma BehindNone(r: Parsed<Chain>)
    ensures Behind([], r) == r
  {}

  /** One item with the space around it. */
  function Item(s: seq<Byte>): Parsed<Node> {
    match ParseValue(Skip(s))
    case Failed => Failed
    case Parsed(v, rest) => Parsed(Node([], v), Skip(rest))
  }

  /** One member with the space around it. */
  function Member(s: seq<Byte>): Parsed<Node> {
    match ParseString(Skip(s))
    case Failed => Failed
    case Parsed(name, rest) =>
      var t := Skip(rest);
      if At(t, 0) != COLON then Failed
      else
        match Item(t[1..])
        case Failed => Failed
        case Parsed(n, end) => Parsed(Node(name, n.item), end)
  }

  lemma ItemsStep(s: seq<Byte>)
    ensures ParseItems(s) == match Item(s) case Failed => Failed case Parsed(n, rest) => Consed(n, MoreItems(rest))
  {
    hide ParseValue, Skip;
  }

  lemma MembersStep(s: seq<Byte>)
    ensures ParseMembers(s) == match Member(s) case Failed => Failed case Parsed(n, rest) => Consed(n, MoreMembers(rest))
  {
    hide ParseValue, ParseString, Skip;
  }

  method ItemAt(text: seq<Byte>, p: nat) returns (r: Result<Node>)
    requires p <= |text|
    ensures Agrees(text, p, r, Item(text[p..]))
    decreases |text| - p, 2
  {
    hide ParseValue, Skip;
    var q := SkipFrom(text, p);
    var v := ParseValueAt(text, q);
    if v.Null? {
      return Result.Null;
    }
    q := SkipFrom(text, v.at);
    r := Found(Node([], v.value), q);
  }

  method MemberAt(text: seq<Byte>, p: nat) returns (r: Result<Node>)
    requires p <= |text|
    ensures Agrees(text, p, r, Member(text[p..]))
    decreases |text| - p, 3
  {
    hide ParseString, Item, Skip;
    var q := SkipFrom(text, p);
    var name := ParseStringAt(text, q);
    if name.Null? {
      return Result.Null;
    }
    q := SkipFrom(text, name.at);
    AtSuffix(text, q, 0);
    if At(text, q) != COLON {
      return Result.Null;
    }
    SuffixDrop(text, q, 1);
    var v := ItemAt(text, q + 1);
    if v.Null? {
      return Result.Null;
    }
    r := Found(Node(name.value, v.value.item), v.at);
  }

  /** The list of items of parse_array, up to the closing bracket. */
  method ItemsAt(text: seq<Byte>, p: nat) returns (r: Result<Chain>)
    requires p <= |text|
    ensures Agrees(text, p, r, ParseItems(text[p..]))
    decreases |text| - p, 4
  {
    hide ParseItems, Item, Behind, Linked;
    var e := ItemAt(text, p);
    ItemsStep(text[p..]);
    if e.Null? {
      return Result.Null;
    }
    var nodes, q := [e.value], e.at;
    ItemsFirst(e.value, MoreItems(text[q..]));
    while At(text, q) == COMMA
      invariant p < q <= |text|
      invariant ParseItems(text[p..]) == Behind(nodes, MoreItems(text[q..]))
      decreases |text| - q
    {
      AtSuffix(text, q, 0);
      SuffixDrop(text, q, 1);
      ItemsStep(text[q + 1..]);
      e := ItemAt(text, q + 1);
      if e.Null? {
        BehindEnd(nodes, text[q..]);
        return Result.Null;
      }
      BehindOne(nodes, e.value, MoreItems(text[e.at..]));
      nodes, q := nodes + [e.value], e.at;
    }
    AtSuffix(text, q, 0);
    BehindEnd(nodes, text[q..]);
    r := Found(Linked(nodes, End), q);
  }

  lemma ItemsFirst(n: Node, r: Parsed<Chain>)
    ensures Behind([n], r) == Consed(n, r)
  {
    assert [] + [n] == [n];
    BehindOne([], n, r);
    BehindNone(Consed(n, r));
  }

  lemma BehindEnd(nodes: seq<Node>, s: seq<Byte>)
    ensures Behind(nodes, Failed) == Failed && Behind(nodes, Parsed(End, s)) == Parsed(Linked(nodes, End), s)
  {}

  /** The list of members of parse_object. */
  method MembersAt(text: seq<Byte>, p: nat) returns (r: Result<Chain>)
    requires p <= |text|
    ensures Agrees(text, p, r, ParseMembers(text[p..]))
    decreases |text| - p, 4
  {
    hide ParseMembers, Member, Behind, Linked;
    var e := MemberAt(text, p);
    MembersStep(text[p..]);
    if e.Null? {
      return Result.Null;
    }
    var nodes, q := [e.value], e.at;
    ItemsFirst(e.value, MoreMembers(text[q..]));
    while At(text, q) == COMMA
      invariant p < q <= |text|
      invariant ParseMembers(text[p..]) == Behind(nodes, MoreMembers(text[q..]))
      decreases |text| - q
    {
      AtSuffix(text, q, 0);
      SuffixDrop(text, q, 1);
      MembersStep(text[q + 1..]);
      e := MemberAt(text, q + 1);
      if e.Null? {
        BehindEnd(nodes, text[q..]);
        return Result.Null;
      }
      BehindOne(nodes, e.value, MoreMembers(text[e.at..]));
      nodes, q := nodes + [e.value], e.at;
    }
    AtSuffix(text, q, 0);
    BehindEnd(nodes, text[q..]);
    r := Found(Linked(nodes, End), q);
  }

  /** parse_array. */
  method ParseArrayAt(text: seq<Byte>, p: nat) returns (r: Result<Json>)
    requires p < |text|
    ensures Agrees(text, p, r, FinishArray(Skip(text[p..][1..])))
    decreases |text| - p, 0
  {
    hide ParseItems, Skip;
    SuffixDrop(text, p, 1);
    var q := SkipFrom(text, p + 1);
    AtSuffix(text, q, 0);
    if At(text, q) == CLOSE {
      SuffixDrop(text, q, 1);
      return Found(Array(End), q + 1);
    }
    var items := ItemsAt(text, q);
    if items.Null? {
      return Result.Null;
    }
    AtSuffix(text, items.at, 0);
    if At(text, items.at) != CLOSE {
      return Result.Null;
    }
    SuffixDrop(text, items.at, 1);
    r := Found(Array(items.value), items.at + 1);
  }

  /** parse_object. */
  method ParseObjectAt(text: seq<Byte>, p: nat) returns (r: Result<Json>)
    requires p < |text|
    ensures Agrees(text, p, r, FinishObject(Skip(text[p..][1..])))
    decreases |text| - p, 0
  {
    hide ParseMembers, Skip;
    SuffixDrop(text, p, 1);
    var q := SkipFrom(text, p + 1);
    AtSuffix(text, q, 0);
    if At(text, q) == FINISH {
      SuffixDrop(text, q, 1);
      return Found(Object(End), q + 1);
    }
    var members := MembersAt(text, q);
    if members.Null? {
      return Result.Null;
    }
    AtSuffix(text, members.at, 0);
    if At(text, members.at) != FINISH {
      return Result.Null;
    }
    SuffixDrop(text, members.at, 1);
    r := Found(Object(members.value), members.at + 1);
  }

  /** cJSON_Parse. */
  method Parse(text: seq<Byte>) returns (r: Result<Json>)
    ensures match ParseValue(Skip(text))
            case Failed => r.Null?
            case Parsed(v, rest) => r.Found? && r.value == v && r.at <= |text| && text[r.at..] == rest
  {
    hide ParseValue, Skip;
    assert text[0..] == text;
    var q := SkipFrom(text, 0);
    r := ParseValueAt(text, q);
  }
}
