/** What the parser accepts: only texts with the structure of JSON. It is lax inside numbers and
    strings, and a string may end with the text. */
module JsonShape {
  import opened ByteStrings
  import opened JsonText

  datatype Form = Leaf(text: seq<Byte>) | Listed(space: seq<Byte>, items: Forms) | Braced(space: seq<Byte>, members: Forms)
  datatype Forms = Nothing | Entry(before: seq<Byte>, name: seq<Byte>, gap: seq<Byte>, behind: seq<Byte>, item: Form, after: seq<Byte>, next: Forms)

  function FormText(d: Form): seq<Byte> {
    match d
    case Leaf(text) => text
    case Listed(space, c) => [OPEN] + (if c.Nothing? then space else ItemsText(c)) + [CLOSE]
    case Braced(space, c) => [BEGIN] + (if c.Nothing? then space else MembersText(c)) + [FINISH]
  }

  function ItemsText(c: Forms): seq<Byte> {
    if c.Nothing? then []
    else c.before + FormText(c.item) + c.after + When(c.next.Entry?, [COMMA]) + ItemsText(c.next)
  }

  function MembersText(c: Forms): seq<Byte> {
    if c.Nothing? then []
    else
      c.before + c.name + c.gap + [COLON] + c.behind + FormText(c.item) + c.after
      + When(c.next.Entry?, [COMMA]) + MembersText(c.next)
  }

  /** What is skipped. */
  predicate Blank(s: seq<Byte>) {
    forall i :: 0 <= i < |s| ==> 0 < s[i] <= 32
  }

  /** A string begins and, unless the text ends there, ends with a quote. */
  predicate StringText(s: seq<Byte>, closed: bool) {
    s != [] && s[0] == QUOTE && (closed ==> |s| >= 2 && s[|s| - 1] == QUOTE)
  }

  /** The characters of numbers: digits, signs, the point, the two letters of an exponent. */
  predicate NumberCharacter(c: Byte) {
    Digit(c) || c == 43 || c == MINUS || c == 46 || c == 69 || c == 101
  }

  predicate AllNumber(s: seq<Byte>) {
    forall i :: 0 <= i < |s| ==> NumberCharacter(s[i])
  }

  predicate NumberText(s: seq<Byte>) {
    s != [] && (s[0] == MINUS || Digit(s[0])) && AllNumber(s)
  }

  /** The form is that of the tree; its last string is closed unless the text may end in it. */
  predicate Shaped(d: Form, v: Json, closed: bool) {
    match v
    case Null => d == Leaf(NULL)
    case False => d == Leaf(FALSE)
    case True => d == Leaf(TRUE)
    case Number(_) => d.Leaf? && NumberText(d.text)
    case String(_) => d.Leaf? && StringText(d.text, closed)
    case Array(x) => d.Listed? && Blank(d.space) && ChainShaped(d.items, x, false)
    case Object(x) => d.Braced? && Blank(d.space) && ChainShaped(d.members, x, true)
  }

  predicate ChainShaped(c: Forms, x: Chain, named: bool) {
    match x
    case End => c.Nothing?
    case Link(_, v, next) =>
      c.Entry? && Blank(c.before) && Blank(c.gap) && Blank(c.behind) && Blank(c.after)
      && (named ==> StringText(c.name, true)) && Shaped(c.item, v, true) && ChainShaped(c.next, next, named)
  }

  // ----- what each part takes -----

  lemma {:induction false} SkipTakes(s: seq<Byte>) returns (w: seq<Byte>)
    ensures s == w + Skip(s) && Blank(w)
  {
    if s != [] && 0 < s[0] <= 32 {
      var v := SkipTakes(s[1..]);
      w := [s[0]] + v;
      assert s == [s[0]] + s[1..];
    } else {
      w := [];
    }
  }

  lemma {:induction false} DigitsTake(s: seq<Byte>, n: nat, k: nat) returns (w: seq<Byte>)
    ensures s == w + TakeDigits(s, n, k).rest && AllNumber(w)
  {
    if s != [] && Digit(s[0]) {
      var v := DigitsTake(s[1..], 10 * n + (s[0] - ZERO), k + 1);
      w := [s[0]] + v;
      assert s == [s[0]] + s[1..];
    } else {
      w := [];
    }
  }

  /** One more character in front. */
  lemma OneMore(s: seq<Byte>, w: seq<Byte>, t: seq<Byte>)
    requires s != [] && NumberCharacter(s[0]) && s[1..] == w + t && AllNumber(w)
    ensures s == [s[0]] + w + t && AllNumber([s[0]] + w)
  {
    assert s == [s[0]] + s[1..];
  }

  lemma BothNumber(w: seq<Byte>, v: seq<Byte>)
    requires AllNumber(w) && AllNumber(v)
    ensures AllNumber(w + v)
  {}

  lemma WholeTakes(s: seq<Byte>) returns (w: seq<Byte>)
    ensures s == w + Whole(s).rest && AllNumber(w)
  {
    hide TakeDigits, AllNumber;
    NoneNumber();
    var s1 := if At(s, 0) == ZERO then s[1..] else s;
    w := [];
    if ZERO < At(s1, 0) <= ZERO + 9 {
      w := DigitsTake(s1, 0, 0);
    }
    if At(s, 0) == ZERO {
      OneMore(s, w, Whole(s).rest);
      w := [s[0]] + w;
    }
  }

  lemma NoneNumber()
    ensures AllNumber([])
  {}

  lemma FractionTakes(n: nat, s: seq<Byte>) returns (w: seq<Byte>)
    ensures s == w + Fraction(n, s).rest && AllNumber(w)
  {
    hide TakeDigits, AllNumber;
    NoneNumber();
    w := [];
    if At(s, 0) == 46 && Digit(At(s, 1)) {
      w := DigitsTake(s[1..], n, 0);
      OneMore(s, w, Fraction(n, s).rest);
      w := [s[0]] + w;
    }
  }

  lemma ExponentTakes(s: seq<Byte>) returns (w: seq<Byte>)
    ensures s == w + Exponent(s).rest && AllNumber(w)
  {
    hide TakeDigits, AllNumber;
    NoneNumber();
    w := [];
    if At(s, 0) == 101 || At(s, 0) == 69 {
      var t := s[1..];
      var rest := Exponent(s).rest;
      if At(t, 0) == 43 || At(t, 0) == MINUS {
        w := DigitsTake(t[1..], 0, 0);
        OneMore(t, w, rest);
        w := [t[0]] + w;
      } else {
        w := DigitsTake(t, 0, 0);
      }
      OneMore(s, w, rest);
      w := [s[0]] + w;
    }
  }

  lemma NumberTakes(s: seq<Byte>) returns (w: seq<Byte>)
    requires s != [] && (s[0] == MINUS || Digit(s[0]))
    ensures s == w + ParseNumber(s).rest && NumberText(w)
  {
    hide Whole, Fraction, Exponent, Scaled, AllNumber;
    var s1 := if s[0] == MINUS then s[1..] else s;
    var a := WholeTakes(s1);
    var b := FractionTakes(Whole(s1).n, Whole(s1).rest);
    var m := Fraction(Whole(s1).n, Whole(s1).rest);
    var c := ExponentTakes(m.rest);
    w := a + b + c;
    BothNumber(a, b);
    BothNumber(a + b, c);
    var rest := ParseNumber(s).rest;
    assert s1 == w + rest;
    if s[0] == MINUS {
      OneMore(s, w, rest);
      w := [s[0]] + w;
    }
    NumberShrinks(s, w, rest);
    NumberWhole(s, w, rest);
  }

  lemma NumberShrinks(s: seq<Byte>, w: seq<Byte>, rest: seq<Byte>)
    requires s != [] && (s[0] == MINUS || Digit(s[0])) && rest == ParseNumber(s).rest && s == w + rest
    ensures w != []
  {
    hide Whole, Fraction, Exponent, Scaled;
    assert |rest| < |s|;
  }

  lemma NumberWhole(s: seq<Byte>, w: seq<Byte>, rest: seq<Byte>)
    requires s != [] && (s[0] == MINUS || Digit(s[0])) && s == w + rest && w != [] && AllNumber(w)
    ensures NumberText(w)
  {
    assert w[0] == s[0];
  }

  lemma {:induction false} UnescapeTakes(s: seq<Byte>) returns (w: seq<Byte>)
    ensures s == w + Unescape(s).rest && Stops(Unescape(s).rest)
    decreases |s|
  {
    hide Unescape, ReadEscape;
    if Stops(s) {
      UnescapeStop(s);
      w := [];
    } else {
      UnescapeNext(s);
      var n := if s[0] == BACKSLASH then ReadEscape(s[1..]).used else 0;
      var t := Drop(s[1..], n);
      var k := if n <= |s[1..]| then 1 + n else |s|;
      assert t == s[k..];
      var v := UnescapeTakes(t);
      w := s[..k] + v;
      assert s == s[..k] + s[k..];
    }
  }

  lemma UnescapeStop(s: seq<Byte>)
    requires Stops(s)
    ensures Unescape(s) == Parsed([], s)
  {}

  lemma StringTakes(s: seq<Byte>) returns (w: seq<Byte>)
    requires ParseString(s).Parsed?
    ensures var rest := ParseString(s).rest; s == w + rest && StringText(w, At(rest, 0) != 0)
  {
    hide Unescape, Cut;
    var v := UnescapeTakes(s[1..]);
    var r := Unescape(s[1..]).rest;
    assert s == [QUOTE] + v + r;
    if At(r, 0) == QUOTE {
      w := [QUOTE] + v + [QUOTE];
      assert r == [QUOTE] + r[1..];
    } else {
      w := [QUOTE] + v;
    }
  }

  // ----- trees -----

  lemma WordTakes(s: seq<Byte>, word: seq<Byte>)
    requires StartsWith(s, word)
    ensures s == word + s[|word|..]
  {}

  /** Whatever is accepted has the form of the tree that comes out of it; what follows is left. */
  lemma {:induction false} Accepted(s: seq<Byte>) returns (d: Form)
    requires ParseValue(s).Parsed?
    ensures var p := ParseValue(s); s == FormText(d) + p.rest && Shaped(d, p.value, At(p.rest, 0) != 0)
    decreases |s|, 3
  {
    hide StartsWith, ParseString, ParseNumber, FinishArray, FinishObject, StringText, NumberText, Blank, ItemsText, MembersText, Skip;
    if StartsWith(s, NULL) {
      WordTakes(s, NULL);
      d := Leaf(NULL);
    } else if StartsWith(s, FALSE) {
      WordTakes(s, FALSE);
      d := Leaf(FALSE);
    } else if StartsWith(s, TRUE) {
      WordTakes(s, TRUE);
      d := Leaf(TRUE);
    } else if At(s, 0) == QUOTE {
      StringGiven(s);
      var w := StringTakes(s);
      d := Leaf(w);
    } else if At(s, 0) == MINUS || Digit(At(s, 0)) {
      var w := NumberTakes(s);
      NumberOnly(s);
      d := Leaf(w);
    } else if At(s, 0) == OPEN {
      d := ArrayAccepted(s);
      assert ParseValue(s) == FinishArray(Skip(s[1..]));
      ShapedAny(d, ParseValue(s).value, At(ParseValue(s).rest, 0) != 0);
    } else {
      d := ObjectAccepted(s);
      assert ParseValue(s) == FinishObject(Skip(s[1..]));
      ShapedAny(d, ParseValue(s).value, At(ParseValue(s).rest, 0) != 0);
    }
  }

  lemma StringGiven(s: seq<Byte>)
    requires At(s, 0) == QUOTE
    ensures ParseString(s).Parsed?
  {}

  lemma ShapedAny(d: Form, v: Json, closed: bool)
    requires !v.String? && Shaped(d, v, true)
    ensures Shaped(d, v, closed)
  {}

  lemma NumberOnly(s: seq<Byte>)
    ensures ParseNumber(s).value.Number?
  {
    hide Whole, Fraction, Exponent, Scaled;
  }

  lemma ArrayAccepted(s: seq<Byte>) returns (d: Form)
    requires At(s, 0) == OPEN && FinishArray(Skip(s[1..])).Parsed?
    ensures var p := FinishArray(Skip(s[1..])); s == FormText(d) + p.rest && p.value.Array? && Shaped(d, p.value, true)
    decreases |s|, 2
  {
    hide Skip, ParseItems, ItemsText, Blank, ChainShaped;
    var t := Skip(s[1..]);
    var rest := FinishArray(t).rest;
    NoBlank();
    if At(t, 0) == CLOSE {
      var w := SkipTakes(s[1..]);
      d := Listed(w, Nothing);
      assert s == [OPEN] + w + [CLOSE] + rest;
      EmptyShaped(false);
    } else {
      SkipTwice(s[1..]);
      ItemsSkip(s[1..], t);
      var c := ItemsAccepted(s[1..]);
      d := Listed([], c);
      assert s == [OPEN] + ItemsText(c) + [CLOSE] + rest;
    }
  }

  lemma ObjectAccepted(s: seq<Byte>) returns (d: Form)
    requires At(s, 0) == BEGIN && FinishObject(Skip(s[1..])).Parsed?
    ensures var p := FinishObject(Skip(s[1..])); s == FormText(d) + p.rest && p.value.Object? && Shaped(d, p.value, true)
    decreases |s|, 2
  {
    hide Skip, ParseMembers, MembersText, Blank, ChainShaped;
    var t := Skip(s[1..]);
    var rest := FinishObject(t).rest;
    NoBlank();
    if At(t, 0) == FINISH {
      var w := SkipTakes(s[1..]);
      d := Braced(w, Nothing);
      assert s == [BEGIN] + w + [FINISH] + rest;
      EmptyShaped(true);
    } else {
      SkipTwice(s[1..]);
      MembersSkip(s[1..], t);
      var c := MembersAccepted(s[1..]);
      d := Braced([], c);
      assert s == [BEGIN] + MembersText(c) + [FINISH] + rest;
    }
  }

  lemma EmptyShaped(named: bool)
    ensures ChainShaped(Nothing, End, named)
  {}

  lemma NoBlank()
    ensures Blank([])
  {}

  lemma SkipNothing(s: seq<Byte>)
    requires At(s, 0) == 0
    ensures Skip(s) == s
  {}

  lemma {:induction false} ItemsAccepted(s: seq<Byte>) returns (c: Forms)
    requires ParseItems(s).Parsed? && At(ParseItems(s).rest, 0) != 0
    ensures var p := ParseItems(s); c.Entry? && s == ItemsText(c) + p.rest && ChainShaped(c, p.value, false)
    decreases |s|, 4
  {
    hide Skip, ParseValue, FormText, Shaped, Blank;
    var before := SkipTakes(s);
    var rest := ParseValue(Skip(s)).rest;
    if At(rest, 0) == 0 { SkipNothing(rest); }
    var item := Accepted(Skip(s));
    var after := SkipTakes(rest);
    var t := Skip(rest);
    NoBlank();
    if At(t, 0) == COMMA {
      var next := ItemsAccepted(t[1..]);
      c := Entry(before, [], [], [], item, after, next);
      assert t == [COMMA] + t[1..];
    } else {
      c := Entry(before, [], [], [], item, after, Nothing);
    }
  }

  lemma {:induction false} MembersAccepted(s: seq<Byte>) returns (c: Forms)
    requires ParseMembers(s).Parsed? && At(ParseMembers(s).rest, 0) != 0
    ensures var p := ParseMembers(s); c.Entry? && s == MembersText(c) + p.rest && ChainShaped(c, p.value, true)
    decreases |s|, 4
  {
    hide Skip, ParseValue, ParseString, FormText, Shaped, Blank, StringText;
    var before := SkipTakes(s);
    var name := StringTakes(Skip(s));
    var afterName := ParseString(Skip(s)).rest;
    if At(afterName, 0) == 0 { SkipNothing(afterName); }
    var gap := SkipTakes(afterName);
    var t := Skip(afterName);
    var behind := SkipTakes(t[1..]);
    var rest := ParseValue(Skip(t[1..])).rest;
    if At(rest, 0) == 0 { SkipNothing(rest); }
    var item := Accepted(Skip(t[1..]));
    var after := SkipTakes(rest);
    var q := Skip(rest);
    var next, end := Nothing, q;
    if At(q, 0) == COMMA {
      next := MembersAccepted(q[1..]);
      end := ParseMembers(s).rest;
      assert q == [COMMA] + (MembersText(next) + end);
    } else {
      assert q == [] + ([] + end);
    }
    c := Entry(before, name, gap, behind, item, after, next);
    MemberParts(s, before, name, gap, t, behind, FormText(item), after, When(next.Entry?, [COMMA]), MembersText(next), end);
    MembersTextOne(c);
  }

  lemma MembersTextOne(c: Forms)
    requires c.Entry?
    ensures MembersText(c) == c.before + c.name + c.gap + [COLON] + c.behind + FormText(c.item) + c.after
                              + When(c.next.Entry?, [COMMA]) + MembersText(c.next)
  {
    hide FormText;
  }

  lemma MemberParts(s: seq<Byte>, a: seq<Byte>, b: seq<Byte>, c: seq<Byte>, t: seq<Byte>, d: seq<Byte>, e: seq<Byte>, f: seq<Byte>, g: seq<Byte>, h: seq<Byte>, end: seq<Byte>)
    requires t != [] && t[0] == COLON
    requires s == a + (b + (c + t)) && t[1..] == d + (e + (f + (g + (h + end))))
    ensures s == a + b + c + [COLON] + d + e + f + g + h + end
  {
    assert t == [COLON] + t[1..];
    Regroup(a, b, c, d, e, f, g, h, end);
  }

  lemma Regroup(a: seq<Byte>, b: seq<Byte>, c: seq<Byte>, d: seq<Byte>, e: seq<Byte>, f: seq<Byte>, g: seq<Byte>, h: seq<Byte>, i: seq<Byte>)
    ensures a + (b + (c + ([COLON] + (d + (e + (f + (g + (h + i)))))))) == a + b + c + [COLON] + d + e + f + g + h + i
  {}
}
