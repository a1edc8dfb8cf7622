/** Whether the characters of a string fit in the block that the first loop of parse_string measures,
    exactly. The string may be malformed; what lies behind its end is arbitrary. */
module JsonBlock {
  import opened ByteStrings
  import opened JsonText
  import opened JsonParse

  /** The characters that the first loop passes over: it takes a backslash with what follows it. */
  predicate Body(b: seq<Byte>)
    decreases |b|
  {
    b == [] || (!Stops(b) && if b[0] == BACKSLASH then |b| >= 2 && Body(b[2..]) else Body(b[1..]))
  }

  function Count(b: seq<Byte>): nat
    decreases |b|
  {
    if b == [] then 0 else 1 + Count(Drop(b, if b[0] == BACKSLASH then 2 else 1))
  }

  /** The second loop, which takes the four characters behind \u whatever they are, does not pass the
      place where the first one ends. */
  predicate Stays(b: seq<Byte>, z: Byte)
    decreases |b|
  {
    if Stops(b) then true
    else if b[0] != BACKSLASH then Stays(b[1..], z)
    else
      var n := ReadEscape(b[1..] + [z]).used;
      n < |b| && Stays(b[n + 1..], z)
  }

  /** How many octets it writes then. */
  function Written(b: seq<Byte>, z: Byte): nat
    decreases |b|
  {
    if Stops(b) then 0
    else if b[0] != BACKSLASH then 1 + Written(b[1..], z)
    else
      var e := ReadEscape(b[1..] + [z]);
      if e.used < |b| then |e.octets| + Written(b[e.used + 1..], z) else 0
  }

  // ----- what an escape depends on -----

  lemma NotHex(z: Byte)
    requires z == QUOTE || z == 0
    ensures !Hex(z) && z != BACKSLASH && z != 117
  {}

  lemma NoHex4(s: seq<Byte>, i: nat, j: nat)
    requires i <= j < i + 4 && !Hex(At(s, j))
    ensures Hex4(s, i) == 0
  {}

  lemma SameHex4(s: seq<Byte>, t: seq<Byte>, i: nat)
    requires At(s, i) == At(t, i) && At(s, i + 1) == At(t, i + 1) && At(s, i + 2) == At(t, i + 2) && At(s, i + 3) == At(t, i + 3)
    ensures Hex4(s, i) == Hex4(t, i)
  {}

  /** Four characters at i, in front of the end or not. */
  lemma LocalHex4(t: seq<Byte>, z: Byte, rest: seq<Byte>, i: nat)
    requires (z == QUOTE || z == 0) && i <= |t|
    ensures Hex4(t + [z] + rest, i) == Hex4(t + [z], i)
    ensures Hex4(t + [z], i) != 0 ==> i + 4 <= |t| && Hex(t[i]) && Hex(t[i + 1]) && Hex(t[i + 2]) && Hex(t[i + 3])
  {
    hide Hex4, Hex;
    var s, u := t + [z], t + [z] + rest;
    NotHex(z);
    if |t| < i + 4 {
      NoHex4(s, i, |t|);
      NoHex4(u, i, |t|);
    } else {
      SameHex4(s, u, i);
      if !Hex(t[i]) { NoHex4(s, i, i); }
      if !Hex(t[i + 1]) { NoHex4(s, i, i + 1); }
      if !Hex(t[i + 2]) { NoHex4(s, i, i + 2); }
      if !Hex(t[i + 3]) { NoHex4(s, i, i + 3); }
    }
  }

  /** What an escape stands for is decided in front of the end. */
  lemma LocalEscape(t: seq<Byte>, z: Byte, rest: seq<Byte>)
    requires z == QUOTE || z == 0
    ensures ReadEscape(t + [z] + rest) == ReadEscape(t + [z])
  {
    hide Hex4, Utf8;
    var s, u := t + [z], t + [z] + rest;
    NotHex(z);
    assert At(s, 0) == At(u, 0);
    if At(s, 0) == 117 {
      LocalHex4(t, z, rest, 1);
      if Hex4(s, 1) != 0 {
        assert At(s, 5) == At(u, 5);
        if At(s, 5) == BACKSLASH {
          assert At(s, 6) == At(u, 6);
          if At(s, 6) == 117 { LocalHex4(t, z, rest, 7); }
        }
      }
    }
  }

  /** The sizes of u-escapes: octets are written only for four digits, or for two escapes of four. */
  lemma UnicodeSizes(t: seq<Byte>, z: Byte)
    requires (z == QUOTE || z == 0) && t != [] && t[0] == 117
    ensures var e := ReadEscape(t + [z]);
            (e.used == 5 || e.used == 11) && |e.octets| <= 4
            && (e.octets != [] ==> FourHex(t, 1)) && (e.used == 5 ==> |e.octets| <= 3)
            && (e.used == 11 && e.octets != [] ==> |t| >= 11 && t[5] == BACKSLASH && t[6] == 117 && FourHex(t, 7))
  {
    hide Hex4, Hex;
    var s := t + [z];
    NotHex(z);
    LocalHex4(t, z, [], 1);
    assert t + [z] + [] == s;
    if Hex4(s, 1) != 0 && HighSurrogate(Hex4(s, 1)) && At(s, 5) == BACKSLASH && At(s, 6) == 117 {
      LocalHex4(t, z, [], 7);
    }
  }

  predicate FourHex(t: seq<Byte>, i: nat) {
    i + 4 <= |t| && Hex(t[i]) && Hex(t[i + 1]) && Hex(t[i + 2]) && Hex(t[i + 3])
  }

  lemma SimpleSize(t: seq<Byte>, z: Byte)
    requires (t + [z])[0] != 117
    ensures ReadEscape(t + [z]).used == 1 && |ReadEscape(t + [z]).octets| == 1
  {}

  // ----- both loops over a body, whatever follows -----

  lemma {:induction false} MeasureBody(b: seq<Byte>, z: Byte, rest: seq<Byte>)
    requires Body(b) && (z == QUOTE || z == 0)
    ensures Measure(b + [z] + rest) == Count(b)
    decreases |b|
  {
    var s := b + [z] + rest;
    if b != [] {
      var n := if b[0] == BACKSLASH then 2 else 1;
      assert s[n..] == b[n..] + [z] + rest;
      MeasureBody(b[n..], z, rest);
    }
  }

  /** One step of the second loop. */
  lemma LoopStep(b: seq<Byte>, z: Byte)
    requires !Stops(b)
    ensures var e := ReadEscape(b[1..] + [z]);
            if b[0] != BACKSLASH then (Stays(b, z) <==> Stays(b[1..], z)) && Written(b, z) == 1 + Written(b[1..], z)
            else if e.used < |b| then
              (Stays(b, z) <==> Stays(b[e.used + 1..], z)) && Written(b, z) == |e.octets| + Written(b[e.used + 1..], z)
            else !Stays(b, z)
  {
    hide ReadEscape;
  }

  lemma EmptyLoop(b: seq<Byte>, z: Byte)
    requires Stops(b)
    ensures Stays(b, z) && Written(b, z) == 0
  {}

  /** The text behind an escape. */
  lemma BehindEscape(b: seq<Byte>, t: seq<Byte>, n: nat)
    requires b != []
    ensures (b + t)[1..] == b[1..] + t
    ensures n < |b| ==> Drop((b + t)[1..], n) == b[n + 1..] + t
  {}

  lemma {:induction false} WrittenInside(b: seq<Byte>, z: Byte, rest: seq<Byte>)
    requires Stays(b, z) && (z == QUOTE || z == 0)
    ensures |Unescape(b + [z] + rest).value| == Written(b, z)
    decreases |b|
  {
    hide ReadEscape, Unescape, Stays, Written, Drop;
    var t := [z] + rest;
    assert b + [z] + rest == b + t;
    if Stops(b) {
      EmptyLoop(b, z);
      UnescapeDone(b + t);
    } else {
      LoopStep(b, z);
      UnescapeNext(b + t);
      var n := ReadEscape(b[1..] + [z]).used;
      BehindEscape(b, t, n);
      if b[0] != BACKSLASH {
        WrittenInside(b[1..], z, rest);
        assert b[1..] + [z] + rest == b[1..] + t;
      } else {
        LocalEscape(b[1..], z, rest);
        assert b[1..] + [z] + rest == b[1..] + t;
        WrittenInside(b[n + 1..], z, rest);
        assert b[n + 1..] + [z] + rest == b[n + 1..] + t;
      }
    }
  }

  /** Plain characters without end. */
  function Letters(n: nat): seq<Byte> {
    seq(n, _ => 120)
  }

  lemma {:induction false} LettersWritten(n: nat)
    ensures |Unescape(Letters(n)).value| == n
  {
    if n > 0 {
      assert Letters(n)[1..] == Letters(n - 1);
      LettersWritten(n - 1);
    }
  }

  /** Once past the end, it writes what stands there. */
  lemma {:induction false} WrittenBeyond(b: seq<Byte>, z: Byte, n: nat)
    requires !Stays(b, z) && (z == QUOTE || z == 0)
    ensures |Unescape(b + [z] + Letters(n)).value| + 11 >= n
    decreases |b|
  {
    hide Unescape, ReadEscape, Letters, Stays, Written, Drop;
    var t := [z] + Letters(n);
    assert b + [z] + Letters(n) == b + t;
    if Stops(b) { EmptyLoop(b, z); }
    LoopStep(b, z);
    UnescapeNext(b + t);
    var k := ReadEscape(b[1..] + [z]).used;
    BehindEscape(b, t, k);
    assert b[1..] + [z] + Letters(n) == b[1..] + t;
    if b[0] != BACKSLASH {
      WrittenBeyond(b[1..], z, n);
    } else {
      LocalEscape(b[1..], z, Letters(n));
      if k < |b| {
        WrittenBeyond(b[k + 1..], z, n);
        assert b[k + 1..] + [z] + Letters(n) == b[k + 1..] + t;
      } else {
        EscapeSize(b[1..] + [z]);
        if k - |b| <= n {
          BeyondEscape(b, z, n, k);
          LettersWritten(n - (k - |b|));
        }
      }
    }
  }

  lemma BeyondEscape(b: seq<Byte>, z: Byte, n: nat, k: nat)
    requires 0 < |b| <= k <= n + |b|
    ensures Drop((b + ([z] + Letters(n)))[1..], k) == Letters(n - (k - |b|))
  {
    hide Letters;
    LettersRest(n, k - |b|);
    assert (b + ([z] + Letters(n)))[1..] == b[1..] + [z] + Letters(n);
  }

  lemma LettersRest(n: nat, k: nat)
    requires k <= n
    ensures |Letters(n)| == n && Letters(n)[k..] == Letters(n - k)
  {}

  lemma EscapeSize(t: seq<Byte>)
    ensures ReadEscape(t).used <= 11
  {
    hide Hex4, Utf8;
  }

  // ----- the octets written inside are no more than the characters counted -----

  /** From k characters on the first loop is between two characters, or behind a backslash. */
  lemma {:induction false} Landing(b: seq<Byte>, k: nat)
    requires Body(b) && k <= |b|
    ensures (Body(b[k..]) && Count(b[k..]) <= Count(b)) || (k < |b| && Body(b[k + 1..]) && 1 + Count(b[k + 1..]) <= Count(b))
    decreases |b|
  {
    if k > 0 {
      var n := if b[0] == BACKSLASH then 2 else 1;
      if n <= k {
        Landing(b[n..], k - n);
        assert b[n..][k - n..] == b[k..];
        if k < |b| { assert b[n..][k - n + 1..] == b[k + 1..]; }
      }
    } else {
      assert b[0..] == b;
    }
  }

  /** Digits are counted one by one. */
  lemma DigitsCounted(b: seq<Byte>)
    requires Body(b) && FourHex(b, 0)
    ensures Body(b[4..]) && Count(b) == 4 + Count(b[4..])
  {
    assert forall c: Byte :: Hex(c) ==> c != BACKSLASH;
    OneCounted(b);
    assert b[1..][1..] == b[2..] && b[2..][1..] == b[3..] && b[3..][1..] == b[4..];
    OneCounted(b[1..]);
    OneCounted(b[2..]);
    OneCounted(b[3..]);
  }

  lemma OneCounted(b: seq<Byte>)
    requires Body(b) && b != [] && b[0] != BACKSLASH
    ensures Body(b[1..]) && Count(b) == 1 + Count(b[1..])
  {}

  lemma TwoCounted(b: seq<Byte>)
    requires Body(b) && b != [] && b[0] == BACKSLASH
    ensures |b| >= 2 && Body(b[2..]) && Count(b) == 1 + Count(b[2..])
  {}

  /** Where a u-escape ends: b is what stands behind the u. */
  lemma UnicodeCounted(b: seq<Byte>, z: Byte)
    requires Body(b) && (z == QUOTE || z == 0) && ReadEscape([117] + b + [z]).used <= |b| + 1
    ensures var e := ReadEscape([117] + b + [z]); var k := e.used - 1;
            (Body(b[k..]) && |e.octets| + Count(b[k..]) <= 1 + Count(b))
            || (k < |b| && Body(b[k + 1..]) && |e.octets| + 1 + Count(b[k + 1..]) <= 1 + Count(b))
  {
    hide ReadEscape, Hex, Body, Count;
    var t := [117] + b;
    var e := ReadEscape(t + [z]);
    UnicodeSizes(t, z);
    if e.octets == [] {
      Landing(b, e.used - 1);
    } else {
      FourShift(b, 1);
      DigitsCounted(b);
      if e.used == 11 {
        var c := b[4..];
        assert c[0] == t[5] && c[1] == t[6];
        TwoCounted(c);
        FourShift(b, 7);
        FourSuffix(b, 6);
        assert c[2..] == b[6..];
        DigitsCounted(b[6..]);
        assert b[6..][4..] == b[10..];
      }
    }
  }

  lemma FourShift(b: seq<Byte>, i: nat)
    requires i > 0 && FourHex([117] + b, i)
    ensures FourHex(b, i - 1)
  {
    var t := [117] + b;
    assert t[i] == b[i - 1] && t[i + 1] == b[i] && t[i + 2] == b[i + 1] && t[i + 3] == b[i + 2];
  }

  lemma FourSuffix(b: seq<Byte>, i: nat)
    requires FourHex(b, i)
    ensures FourHex(b[i..], 0)
  {}

  /** Between two characters of the first loop, and behind a backslash that it has counted. */
  lemma {:induction false} WrittenCounted(b: seq<Byte>, z: Byte)
    requires (z == QUOTE || z == 0) && Stays(b, z)
    ensures Body(b) ==> Written(b, z) <= Count(b)
    ensures b != [] && Body(b[1..]) ==> Written(b, z) <= 1 + Count(b[1..])
    decreases |b|
  {
    hide ReadEscape, Body, Count;
    if Stops(b) {
    } else if b[0] != BACKSLASH {
      WrittenCounted(b[1..], z);
      if Body(b) { OneCounted(b); }
    } else {
      var e := ReadEscape(b[1..] + [z]);
      var rest := b[e.used + 1..];
      WrittenCounted(rest, z);
      if Body(b) { EscapeCounted(b, b[1..], z, e, rest); }
      if Body(b[1..]) { EscapeTorn(b, b[1..], z, e, rest); }
    }
  }

  /** A u-escape, c being what stands behind the u, and rest what stands behind the escape. */
  lemma UnicodeBounded(c: seq<Byte>, z: Byte, e: Meaning)
    requires (z == QUOTE || z == 0) && Body(c) && e == ReadEscape([117] + c + [z])
    requires 1 <= e.used <= |c| + 1 && Bounded(c[e.used - 1..], z)
    ensures |e.octets| + Written(c[e.used - 1..], z) <= 1 + Count(c)
  {
    hide ReadEscape, Body, Count, Written, Bounded;
    UnicodeCounted(c, z);
    BoundedAt(c, e.used - 1, z);
  }

  /** An escape that both loops begin together; d stands behind its backslash. */
  lemma EscapeCounted(b: seq<Byte>, d: seq<Byte>, z: Byte, e: Meaning, rest: seq<Byte>)
    requires (z == QUOTE || z == 0) && Body(b) && b != [] && b[0] == BACKSLASH && e == ReadEscape(d + [z])
    requires 0 < e.used < |b| && d == b[1..] && rest == b[e.used + 1..] && Bounded(rest, z)
    ensures |e.octets| + Written(rest, z) <= Count(b)
  {
    hide ReadEscape, Body, Count, Written, Bounded;
    TwoCounted(b);
    RestOf(b, 1, 2);
    RestOf(b, 1, e.used + 1);
    if d[0] == 117 {
      assert d == [117] + d[1..];
      RestOf(d, 1, e.used);
      UnicodeBounded(d[1..], z, e);
    } else {
      SimpleSize(d, z);
      BoundedBody(rest, z);
    }
  }

  lemma BoundedBody(c: seq<Byte>, z: Byte)
    requires Bounded(c, z)
    ensures Body(c) ==> Written(c, z) <= Count(c)
  {}

  /** An escape that the second loop begins at the second of two backslashes; d stands behind it. */
  lemma EscapeTorn(b: seq<Byte>, d: seq<Byte>, z: Byte, e: Meaning, rest: seq<Byte>)
    requires (z == QUOTE || z == 0) && b != [] && Body(d) && b[0] == BACKSLASH && e == ReadEscape(d + [z])
    requires 0 < e.used < |b| && d == b[1..] && rest == b[e.used + 1..] && Bounded(rest, z)
    ensures |e.octets| + Written(rest, z) <= 1 + Count(d)
  {
    hide ReadEscape, Body, Count, Written, Bounded;
    RestOf(b, 1, e.used + 1);
    if d[0] == 117 {
      OneCounted(d);
      assert d == [117] + d[1..];
      RestOf(d, 1, e.used);
      UnicodeBounded(d[1..], z, e);
    } else {
      SimpleSize(d, z);
      TornSimple(d, z);
    }
  }

  lemma TornSimple(d: seq<Byte>, z: Byte)
    requires d != [] && Body(d) && Bounded(d[1..], z)
    ensures Written(d[1..], z) <= Count(d)
  {
    hide Body, Count, Written, Bounded;
    BoundedAt(d, 1, z);
    if d[0] == BACKSLASH {
      TwoCounted(d);
    } else {
      OneCounted(d);
    }
  }

  lemma RestOf(b: seq<Byte>, i: nat, k: nat)
    requires i <= k <= |b|
    ensures b[i..][k - i..] == b[k..]
  {}

  lemma BoundedAt(c: seq<Byte>, k: nat, z: Byte)
    requires k <= |c| && Bounded(c[k..], z)
    ensures Body(c[k..]) ==> Written(c[k..], z) <= Count(c[k..])
    ensures k < |c| && Body(c[k + 1..]) ==> Written(c[k..], z) <= 1 + Count(c[k + 1..])
  {
    hide Body, Written, Count;
    if k < |c| { assert c[k..][1..] == c[k + 1..]; }
  }

  /** The bound for a place between two characters and behind a backslash. */
  predicate Bounded(b: seq<Byte>, z: Byte) {
    (Body(b) ==> Written(b, z) <= Count(b)) && (b != [] && Body(b[1..]) ==> Written(b, z) <= 1 + Count(b[1..]))
  }

  /** Exactly: whatever stands behind a string, its characters fit in the block of Measure + 1 octets
      if and only if the second loop does not pass the end that the first one finds. */
  lemma FitsExactly(b: seq<Byte>, z: Byte)
    requires Body(b) && (z == QUOTE || z == 0)
    ensures (forall rest: seq<Byte> :: |Unescape(b + [z] + rest).value| <= Measure(b + [z] + rest)) <==> Stays(b, z)
  {
    hide Unescape, Measure, Stays, Body, Letters;
    if Stays(b, z) {
      forall rest: seq<Byte> ensures |Unescape(b + [z] + rest).value| <= Measure(b + [z] + rest) {
        WrittenInside(b, z, rest);
        WrittenCounted(b, z);
        MeasureBody(b, z, rest);
      }
    } else {
      var rest := Letters(Count(b) + 12);
      WrittenBeyond(b, z, Count(b) + 12);
      MeasureBody(b, z, rest);
      assert !(|Unescape(b + [z] + rest).value| <= Measure(b + [z] + rest));
    }
  }

  /** A u-escape with two digits passes the closing quote. */
  lemma IncompleteEscape()
    ensures var b := [BACKSLASH, 117, 49, 50]; Body(b) && !Stays(b, QUOTE)
  {
    var b: seq<Byte> := [BACKSLASH, 117, 49, 50];
    var t: seq<Byte> := [117, 49, 50];
    var u: seq<Byte> := [49, 50];
    assert b[1..] == t && b[2..] == u && u[1..] == [50] && u[1..][1..] == [];
    assert Body(u[1..][1..]) && Body(u[1..]) && Body(u);
    UnicodeSizes(t, QUOTE);
  }
}
