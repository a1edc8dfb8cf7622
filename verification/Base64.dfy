/** Base64 (section 5.2 of RFC 1521) as base64.c encodes it and decodes it in two passes: one that
    checks and measures, one that writes. */
module Base64 {
  import opened ByteStrings

  const ERR_BUFFER_TOO_SMALL := -0x002A
  const ERR_INVALID_CHARACTER := -0x002C
  const SIZE_MAX := 0xFFFF_FFFF_FFFF_FFFF

  const CR: Byte := 13
  const LF: Byte := 10
  const SPACE: Byte := 32
  const PAD: Byte := 61

  // ----- the alphabet -----

  /** base64_enc_map. */
  function EncMap(k: int): Byte
    requires 0 <= k < 64
  {
    if k < 26 then 65 + k else if k < 52 then 97 + (k - 26) else if k < 62 then 48 + (k - 52) else if k == 62 then 43 else 47
  }

  /** base64_dec_map: 64 for the padding character, 127 for characters outside the alphabet. */
  function DecMap(c: Byte): (r: nat)
    ensures r < 64 || r == 64 || r == 127
    ensures r == 64 <==> c == PAD
  {
    if 65 <= c <= 90 then c - 65
    else if 97 <= c <= 122 then c - 97 + 26
    else if 48 <= c <= 57 then c - 48 + 52
    else if c == 43 then 62
    else if c == 47 then 63
    else if c == PAD then 64
    else 127
  }

  lemma DecEnc(k: int)
    requires 0 <= k < 64
    ensures DecMap(EncMap(k)) == k && EncMap(k) != CR && EncMap(k) != LF && EncMap(k) != SPACE && EncMap(k) != PAD
  {}

  // ----- encoding -----

  /** The four characters of three octets. */
  function Quad(a: Byte, b: Byte, c: Byte): seq<Byte> {
    [EncMap(a / 4), EncMap(a % 4 * 16 + b / 16), EncMap(b % 16 * 4 + c / 64), EncMap(c % 64)]
  }

  /** The last, incomplete group as the source writes it. */
  function LastGroup(s: seq<Byte>): seq<Byte>
    requires 0 < |s| < 3
  {
    var c1, c2 := s[0], if |s| > 1 then s[1] else 0;
    [EncMap(c1 / 4), EncMap(c1 % 4 * 16 + c2 / 16), if |s| > 1 then EncMap(c2 % 16 * 4) else PAD, PAD]
  }

  function Encoded(s: seq<Byte>): seq<Byte> {
    if |s| == 0 then []
    else if |s| < 3 then LastGroup(s)
    else Quad(s[0], s[1], s[2]) + Encoded(s[3..])
  }

  lemma {:induction false} EncodedLength(s: seq<Byte>)
    ensures |Encoded(s)| == 4 * ((|s| + 2) / 3)
  {
    if |s| >= 3 {
      EncodedLength(s[3..]);
    }
  }

  // ----- decoding -----

  /** The first pass: how many characters count, and how many of them are padding. */
  datatype Scanned = Bad | Good(n: nat, j: nat)

  function Spaces(s: seq<Byte>): (k: nat)
    ensures k <= |s| && (k < |s| ==> s[k] != SPACE)
  {
    if s == [] || s[0] != SPACE then 0 else 1 + Spaces(s[1..])
  }

  /** The characters of s from a point where j padding characters and n characters in all have been
      seen. A carriage return is skipped only in front of a line feed; spaces only in front of a
      line end or the end. */
  function Scan(s: seq<Byte>, n: nat, j: nat): Scanned
    decreases |s|
  {
    var k := Spaces(s);
    var t := s[k..];
    if t == [] then Good(n, j)
    else if |t| >= 2 && t[0] == CR && t[1] == LF then Scan(t[1..], n, j)
    else if t[0] == LF then Scan(t[1..], n, j)
    else if k != 0 then Bad
    else
      var j' := if t[0] == PAD then j + 1 else j;
      if j' > 2 then Bad
      else if t[0] > 127 || DecMap(t[0]) == 127 then Bad
      else if DecMap(t[0]) < 64 && j' != 0 then Bad
      else Scan(t[1..], n + 1, j')
  }

  predicate Skipped(c: Byte) {
    c == CR || c == LF || c == SPACE
  }

  /** The second pass over what is left, with the group collected so far and the padding allowance. */
  function Emit(s: seq<Byte>, group: seq<nat>, j: nat): seq<Byte>
    requires |group| < 4 && forall i :: 0 <= i < |group| ==> group[i] < 64
    decreases |s|
  {
    if s == [] then []
    else if Skipped(s[0]) then Emit(s[1..], group, j)
    else
      var j' := if DecMap(s[0]) == 64 && j > 0 then j - 1 else j;
      var g := group + [DecMap(s[0]) % 64];
      if |g| == 4 then Octets(g, j') + Emit(s[1..], [], j') else Emit(s[1..], g, j')
  }

  /** The octets of a group of four, as many as the allowance says. */
  function Octets(g: seq<nat>, j: nat): (r: seq<Byte>)
    requires |g| == 4 && forall i :: 0 <= i < 4 ==> g[i] < 64
    ensures |r| == if j < 3 then j else 3
  {
    var all: seq<Byte> := [g[0] * 4 + g[1] / 16, g[1] % 16 * 16 + g[2] / 4, g[2] % 4 * 64 + g[3]];
    all[..if j < 3 then j else 3]
  }

  datatype Decoding = Invalid | Decoded(value: seq<Byte>)

  function Decode(s: seq<Byte>): Decoding {
    match Scan(s, 0, 0)
    case Bad => Invalid
    case Good(n, _) => Decoded(Emit(s, [], 3))
  }

  // ----- decoding undoes encoding -----

  /** The six-bit groups put together again. */
  lemma Regroup(a: Byte, b: Byte, c: Byte)
    ensures Octets([a / 4, a % 4 * 16 + b / 16, b % 16 * 4 + c / 64, c % 64], 3) == [a, b, c]
  {
    assert (a % 4 * 16 + b / 16) / 16 == a % 4 && (a % 4 * 16 + b / 16) % 16 == b / 16;
    assert (b % 16 * 4 + c / 64) / 4 == b % 16 && (b % 16 * 4 + c / 64) % 4 == c / 64;
  }

  lemma PlainChar(c: Byte)
    requires DecMap(c) < 64
    ensures c != CR && c != LF && c != SPACE && c != PAD && c <= 127
  {}

  lemma NoSpaces(s: seq<Byte>)
    requires s == [] || s[0] != SPACE
    ensures Spaces(s) == 0 && s[0..] == s
  {}

  /** A character of the alphabet, in both passes. */
  lemma StepPlain(c: Byte, rest: seq<Byte>, n: nat, group: seq<nat>, j: nat)
    requires DecMap(c) < 64 && |group| < 4 && forall i :: 0 <= i < |group| ==> group[i] < 64
    ensures Scan([c] + rest, n, 0) == Scan(rest, n + 1, 0)
    ensures var g := group + [DecMap(c)];
            Emit([c] + rest, group, j) == if |g| == 4 then Octets(g, j) + Emit(rest, [], j) else Emit(rest, g, j)
  {
    hide DecMap, Octets, Spaces;
    PlainChar(c);
    var s := [c] + rest;
    NoSpaces(s);
    assert s[1..] == rest;
  }

  /** A padding character. */
  lemma StepPad(rest: seq<Byte>, n: nat, k: nat, group: seq<nat>, j: nat)
    requires k < 2 && 0 < j && |group| < 4 && forall i :: 0 <= i < |group| ==> group[i] < 64
    ensures Scan([PAD] + rest, n, k) == Scan(rest, n + 1, k + 1)
    ensures var g := group + [0];
            Emit([PAD] + rest, group, j) == if |g| == 4 then Octets(g, j - 1) + Emit(rest, [], j - 1) else Emit(rest, g, j - 1)
  {
    hide Octets, Spaces;
    var s := [PAD] + rest;
    NoSpaces(s);
    assert s[1..] == rest;
  }

  lemma QuadStep(a: Byte, b: Byte, c: Byte, rest: seq<Byte>, n: nat)
    ensures Scan(Quad(a, b, c) + rest, n, 0) == Scan(rest, n + 4, 0)
    ensures Emit(Quad(a, b, c) + rest, [], 3) == [a, b, c] + Emit(rest, [], 3)
  {
    hide Scan, Emit, Octets, EncMap, DecMap;
    var v := [a / 4, a % 4 * 16 + b / 16, b % 16 * 4 + c / 64, c % 64];
    var q := Quad(a, b, c);
    assert q == [EncMap(v[0]), EncMap(v[1]), EncMap(v[2]), EncMap(v[3])];
    DecEnc(v[0]); DecEnc(v[1]); DecEnc(v[2]); DecEnc(v[3]);
    var r3 := [q[3]] + rest;
    var r2 := [q[2]] + r3;
    var r1 := [q[1]] + r2;
    assert q + rest == [q[0]] + r1;
    StepPlain(q[0], r1, n, [], 3);
    StepPlain(q[1], r2, n + 1, [v[0]], 3);
    StepPlain(q[2], r3, n + 2, [v[0], v[1]], 3);
    StepPlain(q[3], rest, n + 3, [v[0], v[1], v[2]], 3);
    assert [] + [v[0]] == [v[0]] && [v[0]] + [v[1]] == [v[0], v[1]];
    assert [v[0], v[1]] + [v[2]] == [v[0], v[1], v[2]] && [v[0], v[1], v[2]] + [v[3]] == v;
    Regroup(a, b, c);
  }

  lemma OctetsOne(a: Byte)
    ensures Octets([a / 4, a % 4 * 16, 0, 0], 1) == [a]
  {}

  lemma OctetsTwo(a: Byte, b: Byte)
    ensures Octets([a / 4, a % 4 * 16 + b / 16, b % 16 * 4, 0], 2) == [a, b]
  {
    Regroup(a, b, 0);
  }

  /** The first two characters of a group. */
  lemma TwoPlain(v0: nat, v1: nat, rest: seq<Byte>, n: nat)
    requires v0 < 64 && v1 < 64
    ensures var s := [EncMap(v0), EncMap(v1)] + rest;
            Scan(s, n, 0) == Scan(rest, n + 2, 0) && Emit(s, [], 3) == Emit(rest, [v0, v1], 3)
  {
    hide Scan, Emit, EncMap, DecMap;
    DecEnc(v0);
    DecEnc(v1);
    var r := [EncMap(v1)] + rest;
    assert [EncMap(v0), EncMap(v1)] + rest == [EncMap(v0)] + r;
    assert [] + [v0] == [v0] && [v0] + [v1] == [v0, v1];
    StepPlain(EncMap(v0), r, n, [], 3);
    StepPlain(EncMap(v1), rest, n + 1, [v0], 3);
  }

  /** The two ways a text ends in padding. */
  lemma PadPad(v0: nat, v1: nat, n: nat)
    requires v0 < 64 && v1 < 64
    ensures Scan([PAD, PAD], n, 0) == Good(n + 2, 2) && Emit([PAD, PAD], [v0, v1], 3) == Octets([v0, v1, 0, 0], 1)
  {
    hide Scan, Emit, Octets;
    assert [PAD, PAD] == [PAD] + [PAD] && [PAD] == [PAD] + [];
    assert [v0, v1] + [0] == [v0, v1, 0] && [v0, v1, 0] + [0] == [v0, v1, 0, 0];
    StepPad([PAD], n, 0, [v0, v1], 3);
    StepPad([], n + 1, 1, [v0, v1, 0], 2);
    ScanEnd(n + 2, 2);
  }

  lemma PlainPad(v0: nat, v1: nat, v2: nat, n: nat)
    requires v0 < 64 && v1 < 64 && v2 < 64
    ensures Scan([EncMap(v2), PAD], n, 0) == Good(n + 2, 1)
    ensures Emit([EncMap(v2), PAD], [v0, v1], 3) == Octets([v0, v1, v2, 0], 2)
  {
    hide Scan, Emit, Octets, EncMap, DecMap;
    DecEnc(v2);
    assert [EncMap(v2), PAD] == [EncMap(v2)] + [PAD] && [PAD] == [PAD] + [];
    assert [v0, v1] + [v2] == [v0, v1, v2] && [v0, v1, v2] + [0] == [v0, v1, v2, 0];
    StepPlain(EncMap(v2), [PAD], n, [v0, v1], 3);
    StepPad([], n + 1, 0, [v0, v1, v2], 3);
    ScanEnd(n + 2, 1);
  }

  lemma OnePadded(a: Byte, n: nat)
    ensures var s := LastGroup([a]);
            Scan(s, n, 0) == Good(n + 4, 2) && Emit(s, [], 3) == [a]
  {
    hide Scan, Emit, EncMap, Octets;
    var v0, v1 := a / 4, a % 4 * 16;
    assert LastGroup([a]) == [EncMap(v0), EncMap(v1)] + [PAD, PAD];
    TwoPlain(v0, v1, [PAD, PAD], n);
    PadPad(v0, v1, n + 2);
    OctetsOne(a);
  }

  lemma TwoPadded(a: Byte, b: Byte, n: nat)
    ensures var s := LastGroup([a, b]);
            Scan(s, n, 0) == Good(n + 4, 1) && Emit(s, [], 3) == [a, b]
  {
    hide Scan, Emit, EncMap, Octets;
    var v0, v1, v2 := a / 4, a % 4 * 16 + b / 16, b % 16 * 4;
    assert LastGroup([a, b]) == [EncMap(v0), EncMap(v1)] + [EncMap(v2), PAD];
    TwoPlain(v0, v1, [EncMap(v2), PAD], n);
    PlainPad(v0, v1, v2, n + 2);
    OctetsTwo(a, b);
  }

  lemma ScanEnd(n: nat, j: nat)
    ensures Scan([], n, j) == Good(n, j) && Emit([], [], 0) == [] && Emit([], [], 1) == [] && Emit([], [], 2) == [] && Emit([], [], 3) == []
  {}

  /** Both passes over an encoding: accepted, and back to the octets. */
  lemma {:induction false} EncodedScans(s: seq<Byte>, n: nat)
    ensures Scan(Encoded(s), n, 0) == Good(n + |Encoded(s)|, (3 - |s| % 3) % 3)
    ensures Emit(Encoded(s), [], 3) == s
  {
    hide Scan, Emit, Quad;
    if |s| == 0 {
      ScanEnd(n, 0);
    } else if |s| == 1 {
      assert s == [s[0]];
      OnePadded(s[0], n);
    } else if |s| == 2 {
      assert s == [s[0], s[1]];
      TwoPadded(s[0], s[1], n);
    } else {
      QuadStep(s[0], s[1], s[2], Encoded(s[3..]), n);
      EncodedScans(s[3..], n + 4);
      assert s == [s[0], s[1], s[2]] + s[3..];
      assert |s[3..]| % 3 == |s| % 3;
      QuadLength(s[0], s[1], s[2]);
    }
  }

  lemma QuadLength(a: Byte, b: Byte, c: Byte)
    ensures |Quad(a, b, c)| == 4
  {}

  /** Decoding undoes encoding, for every octet string. */
  lemma RoundTrip(s: seq<Byte>)
    ensures Decode(Encoded(s)) == Decoded(s)
  {
    EncodedScans(s, 0);
  }

  // ----- line ends -----

  lemma {:induction false} EmitInsert(a: seq<Byte>, e: seq<Byte>, b: seq<Byte>, group: seq<nat>, j: nat)
    requires e == [LF] || e == [CR, LF]
    requires |group| < 4 && forall i :: 0 <= i < |group| ==> group[i] < 64
    ensures Emit(a + e + b, group, j) == Emit(a + b, group, j)
    decreases |a|
  {
    hide Octets, DecMap;
    if a == [] {
      assert a + b == b;
      assert (a + e + b)[1..] == e[1..] + b;
      if e == [CR, LF] {
        assert (e[1..] + b)[1..] == b;
      } else {
        assert e[1..] + b == b;
      }
    } else {
      assert (a + e + b)[1..] == a[1..] + e + b && (a + b)[1..] == a[1..] + b;
      if Skipped(a[0]) {
        EmitInsert(a[1..], e, b, group, j);
      } else {
        var j' := if DecMap(a[0]) == 64 && j > 0 then j - 1 else j;
        var g := group + [DecMap(a[0]) % 64];
        EmitInsert(a[1..], e, b, if |g| == 4 then [] else g, j');
      }
    }
  }

  lemma {:induction false} SpacesConcat(a: seq<Byte>, b: seq<Byte>)
    ensures Spaces(a + b) == if Spaces(a) < |a| then Spaces(a) else |a| + Spaces(b)
  {
    if a == [] {
      assert a + b == b;
    } else if a[0] == SPACE {
      assert (a + b)[1..] == a[1..] + b;
      SpacesConcat(a[1..], b);
    }
  }

  lemma {:induction false} SpacesOnly(a: seq<Byte>)
    requires Spaces(a) == |a|
    ensures a != [] ==> a[|a| - 1] == SPACE
  {
    if |a| > 1 {
      SpacesOnly(a[1..]);
    }
  }

  /** One character that is not a space, after k spaces. */
  function Next(c: Byte, rest: seq<Byte>, k: nat, n: nat, j: nat): Scanned {
    if c == CR && rest != [] && rest[0] == LF then Scan(rest, n, j)
    else if c == LF then Scan(rest, n, j)
    else if k != 0 then Bad
    else
      var j' := if c == PAD then j + 1 else j;
      if j' > 2 then Bad
      else if c > 127 || DecMap(c) == 127 then Bad
      else if DecMap(c) < 64 && j' != 0 then Bad
      else Scan(rest, n + 1, j')
  }

  lemma ScanNext(s: seq<Byte>, k: nat, rest: seq<Byte>, n: nat, j: nat)
    requires k == Spaces(s) < |s| && rest == s[k + 1..]
    ensures Scan(s, n, j) == Next(s[k], rest, k, n, j)
  {
    hide DecMap;
    var t := s[k..];
    assert t[0] == s[k] && t[1..] == rest;
    assert |t| >= 2 ==> t[1] == rest[0];
  }

  lemma AfterSpaces(a: seq<Byte>, b: seq<Byte>, n: nat, j: nat)
    requires Spaces(a) == |a| && Scan(a + b, n, j).Good?
    ensures Scan(a + b, n, j) == Scan(b, n, j)
  {
    hide Scan, Spaces;
    SpacesConcat(a, b);
    var k := Spaces(b);
    if k == |b| {
      ScanSpaces(a + b, n, j);
      ScanSpaces(b, n, j);
    } else {
      var rest := b[k + 1..];
      assert (a + b)[|a| + k + 1..] == rest && (a + b)[|a| + k] == b[k];
      ScanNext(a + b, |a| + k, rest, n, j);
      ScanNext(b, k, rest, n, j);
    }
  }

  lemma LineEndAfterSpaces(a: seq<Byte>, e: seq<Byte>, b: seq<Byte>, n: nat, j: nat)
    requires (e == [LF] || e == [CR, LF]) && Spaces(a) == |a|
    ensures Scan(a + e + b, n, j) == Scan(b, n, j)
  {
    hide Scan, Spaces;
    var s := a + e + b;
    assert s == a + (e + b);
    SpacesConcat(a, e + b);
    NoSpaces(e + b);
    var rest := s[|a| + 1..];
    ScanNext(s, |a|, rest, n, j);
    if e == [CR, LF] {
      assert rest == [LF] + b;
      NoSpaces(rest);
      ScanNext(rest, 0, b, n, j);
    } else {
      assert rest == b;
    }
  }

  lemma ReturnAlone()
    ensures DecMap(CR) == 127
  {}

  /** A line end is read over, but for a carriage return torn from its line feed. */
  lemma {:induction false} ScanInsert(a: seq<Byte>, e: seq<Byte>, b: seq<Byte>, n: nat, j: nat)
    requires e == [LF] || e == [CR, LF]
    requires Scan(a + b, n, j).Good?
    ensures Scan(a + e + b, n, j) ==
      if e == [CR, LF] && a != [] && a[|a| - 1] == CR then Bad else Scan(a + b, n, j)
    decreases |a|
  {
    hide DecMap, Scan;
    var k := Spaces(a);
    if k == |a| {
      SpacesOnly(a);
      AfterSpaces(a, b, n, j);
      LineEndAfterSpaces(a, e, b, n, j);
    } else {
      var r := a[k + 1..];
      SpacesConcat(a, b);
      SpacesConcat(a, e + b);
      assert a + e + b == a + (e + b);
      assert (a + b)[k + 1..] == r + b && (a + e + b)[k + 1..] == r + e + b;
      ScanNext(a + b, k, r + b, n, j);
      ScanNext(a + e + b, k, r + e + b, n, j);
      ReturnAlone();
      if r == [] {
        assert r + b == b && r + e + b == e + b;
        LineEndAfterSpaces([], e, b, n, j);
        LineEndAfterSpaces([], e, b, n + 1, if a[k] == PAD then j + 1 else j);
        assert [] + e + b == e + b;
      } else {
        assert r[|r| - 1] == a[|a| - 1];
        if a[k] == LF || (a[k] == CR && r[0] == LF) {
          ScanInsert(r, e, b, n, j);
        } else {
          ScanInsert(r, e, b, n + 1, if a[k] == PAD then j + 1 else j);
        }
      }
    }
  }

  /** Inserting a line feed anywhere in an accepted text changes nothing. */
  lemma InsertLineFeed(a: seq<Byte>, b: seq<Byte>)
    requires Decode(a + b).Decoded?
    ensures Decode(a + [LF] + b) == Decode(a + b)
  {
    hide Scan, Emit;
    ScanInsert(a, [LF], b, 0, 0);
    EmitInsert(a, [LF], b, [], 3);
  }

  /** So does inserting CR LF, exactly where it does not separate a carriage return from its line
      feed. */
  lemma InsertLineBreak(a: seq<Byte>, b: seq<Byte>)
    requires Decode(a + b).Decoded?
    ensures Decode(a + [CR, LF] + b) == if a != [] && a[|a| - 1] == CR then Invalid else Decode(a + b)
  {
    hide Scan, Emit;
    ScanInsert(a, [CR, LF], b, 0, 0);
    EmitInsert(a, [CR, LF], b, [], 3);
  }

  /** The text CR LF is accepted; with another CR LF put between the two octets it is not. */
  lemma LineBreakWitness()
    ensures Decode([CR] + [LF]) == Decoded([])
    ensures Decode([CR] + [CR, LF] + [LF]) == Invalid
  {
    var s: seq<Byte> := [CR] + [LF];
    var t: seq<Byte> := [LF];
    assert s == [CR, LF] && s[0..] == s && s[1..] == t && t[0..] == t && t[1..] == [];
    assert Spaces(t) == 0 && Spaces(s) == 0;
    ScanEnd(0, 0);
    assert Scan(t, 0, 0) == Scan(t[1..], 0, 0);
    assert Scan(s, 0, 0) == Scan(s[1..], 0, 0);
    assert Emit([], [], 3) == [];
    assert Emit(t, [], 3) == Emit(t[1..], [], 3);
    assert Emit(s, [], 3) == Emit(s[1..], [], 3);
    InsertLineBreak([CR], [LF]);
  }

  // ----- the measured length is enough -----

  /** The first pass's estimate for n characters, computed without overflow. */
  function Measure(n: nat): nat {
    6 * (n / 8) + (6 * (n % 8) + 7) / 8
  }

  function Min(a: int, b: int): int {
    if a < b then a else b
  }

  /** The octets written plus the padding: at most three for each complete group, and one for each
      padding character after the last of them. */
  ghost predicate Bounded(emitted: nat, g: nat, left: nat, j0: nat, j: nat) {
    var c, r := (g + left) / 4, (g + left) % 4;
    emitted + j <= 3 * c + Min(r, j - j0) + if c == 0 then j0 else 0
  }

  lemma {:induction false} EmitSpaces(s: seq<Byte>, group: seq<nat>, j: nat)
    requires |group| < 4 && forall i :: 0 <= i < |group| ==> group[i] < 64
    ensures Emit(s, group, j) == Emit(s[Spaces(s)..], group, j)
    decreases |s|
  {
    hide Octets, DecMap;
    var k := Spaces(s);
    if k > 0 {
      assert s[1..][Spaces(s[1..])..] == s[k..];
      EmitSpaces(s[1..], group, j);
    } else {
      assert s[0..] == s;
    }
  }

  lemma ScanSpaces(s: seq<Byte>, n: nat, j: nat)
    requires Spaces(s) == |s|
    ensures Scan(s, n, j) == Good(n, j)
  {}

  /** A character that counts, in the second pass. */
  lemma EmitNext(c: Byte, rest: seq<Byte>, group: seq<nat>, j: nat)
    requires !Skipped(c) && |group| < 4 && forall i :: 0 <= i < |group| ==> group[i] < 64
    ensures var j' := if c == PAD && j > 0 then j - 1 else j;
            var g := group + [DecMap(c) % 64];
            Emit([c] + rest, group, j) == if |g| == 4 then Octets(g, j') + Emit(rest, [], j') else Emit(rest, g, j')
  {
    hide Octets;
    assert ([c] + rest)[1..] == rest;
  }

  lemma EmitSkip(c: Byte, rest: seq<Byte>, group: seq<nat>, j: nat)
    requires Skipped(c) && |group| < 4 && forall i :: 0 <= i < |group| ==> group[i] < 64
    ensures Emit([c] + rest, group, j) == Emit(rest, group, j)
  {
    assert ([c] + rest)[1..] == rest;
  }

  lemma {:induction false} EmitBounded(s: seq<Byte>, group: seq<nat>, n0: nat, j0: nat)
    requires j0 <= 2 && |group| < 4 && forall i :: 0 <= i < |group| ==> group[i] < 64
    requires Scan(s, n0, j0).Good?
    ensures var n, j := Scan(s, n0, j0).n, Scan(s, n0, j0).j;
            n0 <= n && j0 <= j <= 2 && j - j0 <= n - n0
            && Bounded(|Emit(s, group, 3 - j0)|, |group|, n - n0, j0, j)
    decreases |s|
  {
    hide DecMap, Octets, Scan, Emit, Bounded;
    var k := Spaces(s);
    EmitSpaces(s, group, 3 - j0);
    if k < |s| {
      var rest, c := s[k + 1..], s[k];
      ScanNext(s, k, rest, n0, j0);
      assert s[k..] == [c] + rest;
      if Skipped(c) {
        ReturnAlone();
        EmitSkip(c, rest, group, 3 - j0);
        EmitBounded(rest, group, n0, j0);
      } else {
        EmitNext(c, rest, group, 3 - j0);
        var j1 := if c == PAD then j0 + 1 else j0;
        var g := group + [DecMap(c) % 64];
        EmitBounded(rest, if |g| == 4 then [] else g, n0 + 1, j1);
        var r := Scan(rest, n0 + 1, j1);
        PlainAfterPad(c);
        BoundedStep(|Emit(rest, if |g| == 4 then [] else g, 3 - j1)|, |group|, r.n - n0 - 1, j0, j1, r.j);
      }
    } else {
      ScanSpaces(s, n0, j0);
      assert s[k..] == [];
      EmitNothing(group, 3 - j0);
      BoundedEnd(|group|, j0);
    }
  }

  lemma EmitNothing(group: seq<nat>, j: nat)
    requires |group| < 4 && forall i :: 0 <= i < |group| ==> group[i] < 64
    ensures Emit([], group, j) == []
  {}

  lemma BoundedEnd(g: nat, j0: nat)
    requires g < 4
    ensures Bounded(0, g, 0, j0, j0)
  {}

  lemma PlainAfterPad(c: Byte)
    ensures DecMap(c) < 64 || DecMap(c) == 127 || c == PAD
  {}

  /** One more counted character, padding or, before any padding, plain. */
  lemma BoundedStep(emitted: nat, g: nat, left: nat, j0: nat, j1: nat, j: nat)
    requires g < 4 && j1 <= j <= 2 && j - j1 <= left && (j1 == j0 + 1 || (j1 == j0 && j0 == 0))
    requires Bounded(emitted, (g + 1) % 4, left, j1, j)
    ensures Bounded(emitted + if g == 3 then 3 - j1 else 0, g, left + 1, j0, j)
  {
    if g == 3 {
      assert (3 + left + 1) / 4 == left / 4 + 1 && (3 + left + 1) % 4 == left % 4;
    }
  }

  /** For an accepted text the second pass never writes past the length the first one computed. */
  lemma WritesFit(s: seq<Byte>)
    requires Scan(s, 0, 0).Good?
    ensures var n, j := Scan(s, 0, 0).n, Scan(s, 0, 0).j;
            j <= Measure(n) && |Emit(s, [], 3)| <= Measure(n) - j
  {
    hide Scan, Emit;
    EmitBounded(s, [], 0, 0);
    var n, j := Scan(s, 0, 0).n, Scan(s, 0, 0).j;
    MeasureEnough(|Emit(s, [], 3)|, n, j);
  }

  lemma MeasureEnough(emitted: nat, n: nat, j: nat)
    requires j <= 2 && j <= n && Bounded(emitted, 0, n, 0, j)
    ensures emitted + j <= Measure(n)
  {
    var a, b := n / 8, n % 8;
    assert n / 4 == 2 * a + b / 4 && n % 4 == b % 4;
  }

  // ----- the procedures -----

  method Put4(dst: array<Byte>, p: nat, a: Byte, b: Byte, c: Byte, d: Byte) returns (p': nat)
    requires p + 4 <= dst.Length
    modifies dst
    ensures p' == p + 4 && dst[..p'] == old(dst[..p]) + [a, b, c, d] && dst[p'..] == old(dst[p'..])
  {
    dst[p], dst[p + 1], dst[p + 2], dst[p + 3] := a, b, c, d;
    p' := p + 4;
  }

  /** mbedtls_base64_encode. */
  method Encode(dst: array<Byte>, dlen: nat, src: seq<Byte>) returns (ret: int, olen: nat)
    requires dlen <= dst.Length
    modifies dst
    ensures var n := |Encoded(src)|;
      if src == [] then ret == 0 && olen == 0
      else if n > SIZE_MAX - 1 then ret == ERR_BUFFER_TOO_SMALL && olen == SIZE_MAX
      else if dlen < n + 1 then ret == ERR_BUFFER_TOO_SMALL && olen == n + 1
      else ret == 0 && olen == n && dst[..n] == Encoded(src) && dst[n] == 0 && dst[n + 1..] == old(dst[n + 1..])
    ensures ret != 0 || src == [] ==> dst[..] == old(dst[..])
  {
    hide Encoded, EncMap, LastGroup;
    EncodedLength(src);
    if |src| == 0 {
      return 0, 0;
    }
    var n := |src| / 3 + if |src| % 3 != 0 then 1 else 0;
    if n > (SIZE_MAX - 1) / 4 {
      return ERR_BUFFER_TOO_SMALL, SIZE_MAX;
    }
    n := n * 4;
    if dlen < n + 1 {
      return ERR_BUFFER_TOO_SMALL, n + 1;
    }
    ghost var d0 := dst[..];
    var p, i := EncodeGroups(dst, src);
    ghost var d1 := dst[..];
    TailKept(d0, d1, p, n + 1);
    ghost var head, rest := dst[..p], src[i..];
    EncodedShort(rest);
    if i < |src| {
      assert rest[0] == src[i] && |rest| == |src| - i && (|rest| > 1 ==> rest[1] == src[i + 1]);
      p := EncodeLast(dst, p, src[i], i + 1 < |src|, if i + 1 < |src| then src[i + 1] else 0, rest);
    }
    assert dst[..p] == Encoded(src);
    TailKept(d1, dst[..], p, n + 1);
    olen := p;
    dst[p] := 0;
    ret := 0;
  }

  lemma EncodedShort(s: seq<Byte>)
    requires |s| < 3
    ensures Encoded(s) == if |s| == 0 then [] else LastGroup(s)
  {
    hide EncMap;
  }

  lemma EncodedStep(s: seq<Byte>)
    requires |s| >= 3
    ensures Encoded(s) == Quad(s[0], s[1], s[2]) + Encoded(s[3..])
  {}

  lemma TailKept(was: seq<Byte>, now: seq<Byte>, p: nat, q: nat)
    requires p <= q <= |was| == |now| && now[p..] == was[p..]
    ensures now[q..] == was[q..]
  {
    assert now[q..] == now[p..][q - p..] && was[q..] == was[p..][q - p..];
  }

  /** One or two octets left over. */
  method EncodeLast(dst: array<Byte>, p: nat, c1: Byte, two: bool, c2: Byte, ghost rest: seq<Byte>) returns (p': nat)
    requires p + 4 <= dst.Length && rest == (if two then [c1, c2] else [c1]) && (!two ==> c2 == 0)
    modifies dst
    ensures p' == p + 4 && dst[..p'] == old(dst[..p]) + LastGroup(rest) && dst[p'..] == old(dst[p'..])
  {
    hide EncMap;
    p' := Put4(dst, p, EncMap(c1 / 4), EncMap(c1 % 4 * 16 + c2 / 16), if two then EncMap(c2 % 16 * 4) else PAD, PAD);
  }

  /** The loop over whole groups of three. */
  method EncodeGroups(dst: array<Byte>, src: seq<Byte>) returns (p: nat, i: nat)
    requires |Encoded(src)| < dst.Length
    modifies dst
    ensures i == |src| / 3 * 3 && p == i / 3 * 4 && p <= |Encoded(src)|
    ensures Encoded(src) == dst[..p] + Encoded(src[i..]) && dst[p..] == old(dst[p..])
  {
    hide Encoded, EncMap;
    EncodedLength(src);
    i, p := 0, 0;
    assert src[0..] == src && dst[..0] == [];
    while i < |src| / 3 * 3
      invariant i % 3 == 0 && i <= |src| / 3 * 3 && p == i / 3 * 4
      invariant Encoded(src) == dst[..p] + Encoded(src[i..]) && dst[p..] == old(dst[p..])
    {
      ghost var rest := src[i..];
      EncodedStep(rest);
      assert rest[3..] == src[i + 3..];
      EncodedLength(src[i + 3..]);
      ghost var q := dst[..p];
      p := Put4(dst, p, EncMap(src[i] / 4), EncMap(src[i] % 4 * 16 + src[i + 1] / 16),
                EncMap(src[i + 1] % 16 * 4 + src[i + 2] / 64), EncMap(src[i + 2] % 64));
      i := i + 3;
    }
  }

  /** The first pass. The index stops at the end of the text. */
  method FirstPass(src: seq<Byte>) returns (ret: int, n: nat, j: nat)
    ensures match Scan(src, 0, 0)
            case Bad => ret == ERR_INVALID_CHARACTER
            case Good(n', j') => ret == 0 && n == n' && j == j'
  {
    hide Scan, DecMap, Spaces;
    n, j := 0, 0;
    var i := 0;
    assert src[0..] == src;
    while i < |src|
      invariant i <= |src| && Scan(src, 0, 0) == Scan(src[i..], n, j)
      decreases |src| - i
    {
      ghost var s := src[i..];
      var x := SkipSpaces(src, i);
      i := i + x;
      if i == |src| {
        ScanSpaces(s, n, j);
        return 0, n, j;
      }
      ghost var rest := src[i + 1..];
      assert s[x + 1..] == rest && s[x] == src[i];
      ScanNext(s, x, rest, n, j);
      if |src| - i >= 2 && src[i] == CR && src[i + 1] == LF {
        i := i + 1;
      } else if src[i] == LF {
        i := i + 1;
      } else {
        if x != 0 {
          return ERR_INVALID_CHARACTER, n, j;
        }
        if src[i] == PAD {
          j := j + 1;
          if j > 2 {
            return ERR_INVALID_CHARACTER, n, j;
          }
        }
        if src[i] > 127 || DecMap(src[i]) == 127 {
          return ERR_INVALID_CHARACTER, n, j;
        }
        if DecMap(src[i]) < 64 && j != 0 {
          return ERR_INVALID_CHARACTER, n, j;
        }
        n := n + 1;
        i := i + 1;
      }
    }
    ScanNothing(src[i..], n, j);
    ret := 0;
  }

  lemma ScanNothing(s: seq<Byte>, n: nat, j: nat)
    requires s == []
    ensures Scan(s, n, j) == Good(n, j)
  {}

  method SkipSpaces(src: seq<Byte>, i0: nat) returns (x: nat)
    requires i0 <= |src|
    ensures x == Spaces(src[i0..])
  {
    x := 0;
    var i := i0;
    while i < |src| && src[i] == SPACE
      invariant i0 <= i <= |src| && x == i - i0
      invariant Spaces(src[i0..]) == x + Spaces(src[i..])
    {
      assert src[i..][1..] == src[i + 1..];
      i := i + 1;
      x := x + 1;
    }
  }

  // The accumulator of the second pass: hi stands for what has been shifted out of interest.

  function Weight(n: nat): int {
    if n == 0 then 1 else if n == 1 then 0x40 else if n == 2 then 0x1000 else if n == 3 then 0x40000 else 0x1000000
  }

  function Number(g: seq<nat>): int
    requires |g| <= 4
  {
    if |g| == 0 then 0
    else if |g| == 1 then g[0]
    else if |g| == 2 then g[0] * 0x40 + g[1]
    else if |g| == 3 then g[0] * 0x1000 + g[1] * 0x40 + g[2]
    else g[0] * 0x40000 + g[1] * 0x1000 + g[2] * 0x40 + g[3]
  }

  /** The accumulator holds the groups in its low bits. */
  ghost predicate Holds(x: nat, g: seq<nat>) {
    |g| <= 4 && exists hi: int :: HoldsAbove(x, g, hi)
  }

  ghost predicate HoldsAbove(x: nat, g: seq<nat>, hi: int)
    requires |g| <= 4
  {
    x == hi * Weight(|g|) + Number(g)
  }

  lemma Shifted(x: nat, d: nat, g: seq<nat>) returns (y: nat)
    requires |g| < 4 && d < 64 && Holds(x, g)
    ensures y == (x * 64 + d) % 0x1_0000_0000 && Holds(y, g + [d])
  {
    var hi :| HoldsAbove(x, g, hi);
    var w := (x * 64 + d) / 0x1_0000_0000;
    y := (x * 64 + d) % 0x1_0000_0000;
    var h := g + [d];
    assert y == x * 64 + d - 0x1_0000_0000 * w;
    if |g| == 0 {
      assert HoldsAbove(y, h, hi - 0x400_0000 * w);
    } else if |g| == 1 {
      assert HoldsAbove(y, h, hi - 0x10_0000 * w);
    } else if |g| == 2 {
      assert HoldsAbove(y, h, hi - 0x4000 * w);
    } else {
      assert HoldsAbove(y, h, hi - 0x100 * w);
    }
  }

  /** The octets cut out of the accumulator. */
  lemma Cut(x: nat, g: seq<nat>)
    requires |g| == 4 && Holds(x, g) && forall i :: 0 <= i < 4 ==> g[i] < 64
    ensures x / 0x10000 % 256 == g[0] * 4 + g[1] / 16
    ensures x / 0x100 % 256 == g[1] % 16 * 16 + g[2] / 4
    ensures x % 256 == g[2] % 4 * 64 + g[3]
  {
    var hi :| HoldsAbove(x, g, hi);
    CutThree(x, hi, g[0] * 4 + g[1] / 16, g[1] % 16 * 16 + g[2] / 4, g[2] % 4 * 64 + g[3]);
  }

  lemma CutThree(x: nat, hi: int, a: nat, b: nat, c: nat)
    requires a < 256 && b < 256 && c < 256 && x == hi * 0x1000000 + a * 0x10000 + b * 0x100 + c
    ensures x / 0x10000 % 256 == a && x / 0x100 % 256 == b && x % 256 == c
  {
    assert x / 0x100 == hi * 0x10000 + a * 0x100 + b;
    assert x / 0x10000 == hi * 0x100 + a;
  }

  /** The octets of a complete group, as far as the padding allows. */
  method WriteGroup(dst: array<Byte>, p: nat, x: nat, ghost g: seq<nat>, j: nat) returns (p': nat)
    requires |g| == 4 && Holds(x, g) && forall i :: 0 <= i < 4 ==> g[i] < 64
    requires p + |Octets(g, j)| <= dst.Length
    modifies dst
    ensures p' == p + |Octets(g, j)| && dst[..p'] == old(dst[..p]) + Octets(g, j) && dst[p'..] == old(dst[p'..])
  {
    hide Holds;
    Cut(x, g);
    p' := p;
    if j > 0 {
      dst[p'] := x / 0x10000 % 256;
      p' := p' + 1;
    }
    if j > 1 {
      dst[p'] := x / 0x100 % 256;
      p' := p' + 1;
    }
    if j > 2 {
      dst[p'] := x % 256;
      p' := p' + 1;
    }
  }

  /** The second pass over accepted text. */
  method SecondPass(dst: array<Byte>, src: seq<Byte>) returns (olen: nat)
    requires |Emit(src, [], 3)| <= dst.Length
    modifies dst
    ensures olen == |Emit(src, [], 3)| && dst[..olen] == Emit(src, [], 3) && dst[olen..] == old(dst[olen..])
  {
    hide Emit, DecMap, Holds, Octets;
    ghost var out, group: seq<nat> := Emit(src, [], 3), [];
    var j: nat, x: nat, n: nat, p: nat, i: nat := 3, 0, 0, 0, 0;
    assert src[0..] == src && dst[..0] == [];
    HoldsNone(0);
    while i < |src|
      invariant i <= |src| && j <= 3 && n == |group| < 4 && p <= |out|
      invariant Holds(x, group) && forall k :: 0 <= k < |group| ==> group[k] < 64
      invariant out == dst[..p] + Emit(src[i..], group, j) && dst[p..] == old(dst[p..])
    {
      var c := src[i];
      assert src[i..] == [c] + src[i + 1..];
      if Skipped(c) {
        EmitSkip(c, src[i + 1..], group, j);
      } else {
        EmitNext(c, src[i + 1..], group, j);
        j := if DecMap(c) == 64 && j > 0 then j - 1 else j;
        ghost var y := Shifted(x, DecMap(c) % 64, group);
        x := (x * 64 + DecMap(c) % 64) % 0x1_0000_0000;
        group := group + [DecMap(c) % 64];
        n := n + 1;
        if n == 4 {
          n := 0;
          ghost var head, next := dst[..p], Emit(src[i + 1..], [], j);
          assert head + (Octets(group, j) + next) == head + Octets(group, j) + next;
          p := WriteGroup(dst, p, x, group, j);
          group := [];
          HoldsNone(x);
        }
      }
      i := i + 1;
    }
    EmitNothing(group, j);
    assert src[i..] == [];
    olen := p;
    assert dst[..p] + [] == dst[..p];
  }

  lemma HoldsNone(x: nat)
    ensures Holds(x, [])
  {
    assert HoldsAbove(x, [], x);
  }

  /** mbedtls_base64_decode. */
  method DecodeInto(dst: array<Byte>, dlen: nat, src: seq<Byte>) returns (ret: int, olen: nat)
    requires dlen <= dst.Length
    modifies dst
    ensures match Scan(src, 0, 0)
            case Bad => ret == ERR_INVALID_CHARACTER
            case Good(n, j) =>
              if n == 0 then ret == 0 && olen == 0
              else if dlen < Measure(n) - j then ret == ERR_BUFFER_TOO_SMALL && olen == Measure(n) - j
              else ret == 0 && olen <= Measure(n) - j && Decode(src) == Decoded(dst[..olen]) && dst[olen..] == old(dst[olen..])
    ensures ret != 0 ==> dst[..] == old(dst[..])
  {
    hide Scan, Emit;
    var n: nat, j: nat;
    ret, n, j := FirstPass(src);
    olen := 0;
    if ret != 0 || n == 0 {
      return;
    }
    WritesFit(src);
    var need := 6 * (n / 8) + (6 * (n % 8) + 7) / 8 - j;
    if dlen < need {
      return ERR_BUFFER_TOO_SMALL, need;
    }
    olen := SecondPass(dst, src);
  }
}
