/** The tables of aes.c, generated at first use: powers and logarithms, S-boxes, and the round
    tables that combine substitution and column mixing. */
module AesTables {
  import opened Octets
  import opened BlockPadding
  import opened Gf256
  import opened AesRounds

  // ----- words -----

  function Xor32(v: bv32, w: bv32): bv32 {
    v ^ w
  }

  /** A column as the source holds it: row 0 in the low octet. */
  function Word(x: Col): bv32 {
    Pack(x.a, x.b, x.c, x.d)
  }

  function Pack(a: Octet, b: Octet, c: Octet, d: Octet): bv32 {
    (a as bv32) ^ ((b as bv32) << 8) ^ ((c as bv32) << 16) ^ ((d as bv32) << 24)
  }

  function Octet0(w: bv32): Octet { (w & 0xFF) as Octet }
  function Octet1(w: bv32): Octet { ((w >> 8) & 0xFF) as Octet }
  function Octet2(w: bv32): Octet { ((w >> 16) & 0xFF) as Octet }
  function Octet3(w: bv32): Octet { ((w >> 24) & 0xFF) as Octet }

  function Column(w: bv32): Col {
    Col(Octet0(w), Octet1(w), Octet2(w), Octet3(w))
  }

  /** ROTL8. */
  function Rotate(w: bv32): bv32 {
    (w << 8) | (w >> 24)
  }

  lemma ColumnWord(x: Col)
    ensures Column(Word(x)) == x
  {
    WordParts(x.a, x.b, x.c, x.d);
  }

  lemma WordParts(a: Octet, b: Octet, c: Octet, d: Octet)
    ensures var w := (a as bv32) ^ ((b as bv32) << 8) ^ ((c as bv32) << 16) ^ ((d as bv32) << 24);
            (w & 0xFF) as Octet == a && ((w >> 8) & 0xFF) as Octet == b
            && ((w >> 16) & 0xFF) as Octet == c && ((w >> 24) & 0xFF) as Octet == d
  {}

  lemma ColumnXor(v: bv32, w: bv32)
    ensures Column(Xor32(v, w)) == AddCol(Column(v), Column(w))
  {}

  lemma RotateWord(x: Col)
    ensures Rotate(Word(x)) == Word(Turn(x))
  {
    RotateParts(x.a, x.b, x.c, x.d);
  }

  lemma RotateParts(a: Octet, b: Octet, c: Octet, d: Octet)
    ensures var w := (a as bv32) ^ ((b as bv32) << 8) ^ ((c as bv32) << 16) ^ ((d as bv32) << 24);
            (w << 8) | (w >> 24) == (d as bv32) ^ ((a as bv32) << 8) ^ ((b as bv32) << 16) ^ ((c as bv32) << 24)
  {}

  // ----- what the tables hold -----

  /** The generated tables, which are not changed afterwards. */
  datatype Tables = Tables(fsb: seq<Octet>, rsb: seq<Octet>, rcon: seq<Octet>,
                           ft0: seq<bv32>, ft1: seq<bv32>, ft2: seq<bv32>, ft3: seq<bv32>,
                           rt0: seq<bv32>, rt1: seq<bv32>, rt2: seq<bv32>, rt3: seq<bv32>)

  ghost predicate Sbox(fsb: seq<Octet>, rsb: seq<Octet>) {
    |fsb| == 256 && |rsb| == 256 && forall x: Octet :: SboxAt(fsb, rsb, x)
  }

  ghost predicate SboxAt(fsb: seq<Octet>, rsb: seq<Octet>, x: Octet)
    requires |fsb| == 256 && |rsb| == 256
  {
    WideBound(x);
    fsb[Wide(x)] == Sub(x) && rsb[Wide(x)] == InvSub(x)
  }

  /** A table of columns for the values f of its index. */
  ghost predicate Holds(t: seq<bv32>, f: Octet -> Col) {
    |t| == 256 && forall x: Octet :: HoldsAt(t, f, x)
  }

  ghost predicate HoldsAt(t: seq<bv32>, f: Octet -> Col, x: Octet)
    requires |t| == 256
  {
    WideBound(x);
    t[Wide(x)] == Word(f(x))
  }

  function Doubled(i: nat): Octet {
    if i == 0 then 1 else Xtime(Doubled(i - 1))
  }

  ghost function ForwardA(): Octet -> Col { x => MixA(Sub(x)) }
  ghost function ForwardB(): Octet -> Col { x => MixB(Sub(x)) }
  ghost function ForwardC(): Octet -> Col { x => MixC(Sub(x)) }
  ghost function ForwardD(): Octet -> Col { x => MixD(Sub(x)) }
  ghost function ReverseA(): Octet -> Col { x => InvMixA(InvSub(x)) }
  ghost function ReverseB(): Octet -> Col { x => InvMixB(InvSub(x)) }
  ghost function ReverseC(): Octet -> Col { x => InvMixC(InvSub(x)) }
  ghost function ReverseD(): Octet -> Col { x => InvMixD(InvSub(x)) }

  ghost predicate Good(t: Tables) {
    Sbox(t.fsb, t.rsb) && |t.rcon| == 10 && (forall i :: 0 <= i < 10 ==> t.rcon[i] == Doubled(i))
    && Holds(t.ft0, ForwardA()) && Holds(t.ft1, ForwardB()) && Holds(t.ft2, ForwardC()) && Holds(t.ft3, ForwardD())
    && Holds(t.rt0, ReverseA()) && Holds(t.rt1, ReverseB()) && Holds(t.rt2, ReverseC()) && Holds(t.rt3, ReverseD())
  }

  // ----- powers and logarithms -----

  ghost predicate Powers(pow: seq<Octet>, n: nat) {
    n <= |pow| == 256 && forall i :: 0 <= i < n ==> pow[i] == Power(i)
  }

  /** The logarithms found so far: of the first n powers, n < 256. */
  ghost predicate LogsTo(log: seq<nat>, n: nat) {
    |log| == 256 && n <= 255 && forall i: nat :: i < n ==> LogAt(log, Power(i)) == i
  }

  function LogAt(log: seq<nat>, x: Octet): nat
    requires |log| == 256
  {
    WideBound(x);
    log[Wide(x)]
  }

  /** The finished table: 1 has the logarithm 255, the last power computed. */
  ghost predicate Logs(log: seq<nat>) {
    |log| == 256 && forall x: Octet :: x != 0 ==> 1 <= LogAt(log, x) <= 255 && Power(LogAt(log, x)) == x
  }

  lemma LogsNext(log: seq<nat>, n: nat)
    requires LogsTo(log, n) && n < 255
    ensures Wide(Power(n)) < 256 && LogsTo(log[Wide(Power(n)) := n], n + 1)
  {
    hide Power, Wide;
    WideBound(Power(n));
    var l := log[Wide(Power(n)) := n];
    forall i: nat | i < n + 1 ensures LogAt(l, Power(i)) == i {
      if i < n {
        PowersDistinct(i, n);
        WideBound(Power(i));
        if Wide(Power(i)) == Wide(Power(n)) { WideInjective(Power(i), Power(n)); }
        assert LogAt(log, Power(i)) == i;
      }
    }
  }

  lemma LogsDone(log: seq<nat>)
    requires LogsTo(log, 255)
    ensures Wide(1) < 256 && Logs(log[Wide(1) := 255])
  {
    hide Power, Wide;
    WideBound(1);
    PowersOf3();
    FirstPower();
    var l := log[Wide(1) := 255];
    forall x: Octet | x != 0 ensures 1 <= LogAt(l, x) <= 255 && Power(LogAt(l, x)) == x {
      WideBound(x);
      if x != 1 {
        var i := LogExists(x);
        assert LogAt(log, Power(i)) == i;
        if Wide(x) == Wide(1) { WideInjective(x, 1); }
      }
    }
  }

  method GenPowers() returns (pows: seq<Octet>, logs: seq<nat>)
    ensures Powers(pows, 256) && Logs(logs)
  {
    hide Power, Wide, LogsTo, Logs, Triple, XTIME;
    var pow := new Octet[256];
    var log := new nat[256];
    var x: Octet := 1;
    FirstPower();
    LogsNone(log[..]);
    for i := 0 to 256
      invariant x == Power(i)
      invariant Powers(pow[..], i)
      invariant if i < 256 then LogsTo(log[..], i) else Logs(log[..])
    {
      if i < 255 {
        LogsNext(log[..], i);
      } else {
        PowersOf3();
        LogsDone(log[..]);
      }
      ghost var was := log[..];
      pow[i] := x;
      log[Wide(x)] := i;
      assert log[..] == was[Wide(x) := i];
      TripleIs(x);
      PowerNext(i);
      x := x ^ XTIME(x);
    }
    return pow[..], log[..];
  }

  /** The macro of that name, on one octet. */
  function XTIME(x: Octet): Octet {
    (x << 1) ^ (if x & 0x80 != 0 then 0x1B else 0x00)
  }

  lemma TripleIs(x: Octet)
    ensures Triple(x) == x ^ XTIME(x) && Xtime(x) == XTIME(x)
  {
    hide Xtime;
    XtimeIs(x);
  }

  lemma PowerNext(i: nat)
    ensures Power(i + 1) == Triple(Power(i))
  {}

  lemma LogsNone(log: seq<nat>)
    requires |log| == 256
    ensures LogsTo(log, 0)
  {}

  // ----- the S-boxes -----

  /** The inverse through the tables. */
  lemma InverseByLog(pow: seq<Octet>, log: seq<nat>, x: Octet)
    requires Powers(pow, 256) && Logs(log) && x != 0
    ensures 1 <= LogAt(log, x) <= 255 && pow[255 - LogAt(log, x)] == FieldInverse(x)
  {
    hide Power, Product, LogAt;
    var l := LogAt(log, x);
    PowerSum(l, 255 - l);
    PowersOf3();
    InverseExists(x);
    InverseUnique(x, Power(255 - l), FieldInverse(x));
  }

  function Rol(y: Octet): Octet {
    (y << 1) | (y >> 7)
  }

  /** Four rotations added up, as the loop does it. */
  lemma AffineSteps(x: Octet)
    ensures var y1 := Rol(x); var y2 := Rol(y1); var y3 := Rol(y2); var y4 := Rol(y3);
            x ^ y1 ^ y2 ^ y3 ^ (y4 ^ 0x63) == Affine(x)
  {
    hide Rol, Rotl;
    RolOnce(x);
    RolTwice(x);
    RolMore(x);
    XorAssoc(x ^ Rotl(x, 1) ^ Rotl(x, 2) ^ Rotl(x, 3), Rotl(x, 4));
  }

  lemma RolOnce(x: Octet)
    ensures Rol(x) == Rotl(x, 1)
  {}

  lemma RolTwice(x: Octet)
    ensures Rol(Rotl(x, 1)) == Rotl(x, 2)
  {}

  lemma RolMore(x: Octet)
    ensures Rol(Rotl(x, 2)) == Rotl(x, 3) && Rol(Rotl(x, 3)) == Rotl(x, 4)
  {}

  lemma XorAssoc(a: Octet, b: Octet)
    ensures a ^ (b ^ 0x63) == a ^ b ^ 0x63
  {}

  ghost predicate SboxTo(fsb: seq<Octet>, rsb: seq<Octet>, n: nat) {
    |fsb| == 256 && |rsb| == 256 && n <= 256
    && forall i: nat :: i < n ==> EntryAt(fsb, rsb, i)
  }

  ghost predicate EntryAt(fsb: seq<Octet>, rsb: seq<Octet>, i: nat)
    requires |fsb| == 256 && |rsb| == 256 && i < 256
  {
    WideBound(Sub(Narrow(i)));
    fsb[i] == Sub(Narrow(i)) && rsb[Wide(Sub(Narrow(i)))] == Narrow(i)
  }

  lemma SubDistinct(i: nat, j: nat)
    requires i < j < 256
    ensures Wide(Sub(Narrow(i))) != Wide(Sub(Narrow(j)))
  {
    hide Sub, InvSub;
    WideNarrow(i);
    WideNarrow(j);
    if Wide(Sub(Narrow(i))) == Wide(Sub(Narrow(j))) {
      WideInjective(Sub(Narrow(i)), Sub(Narrow(j)));
      SubRoundTrip(Narrow(i));
      SubRoundTrip(Narrow(j));
    }
  }

  /** Entering value i in both tables. */
  lemma SboxNext(fsb: seq<Octet>, rsb: seq<Octet>, i: nat)
    requires SboxTo(fsb, rsb, i) && i < 256
    ensures var x := Sub(Narrow(i));
            Wide(x) < 256 && SboxTo(fsb[i := x], rsb[Wide(x) := Narrow(i)], i + 1)
  {
    hide Sub, Narrow, Wide;
    var x := Sub(Narrow(i));
    WideBound(x);
    var f, r := fsb[i := x], rsb[Wide(x) := Narrow(i)];
    forall j: nat | j < i + 1 ensures EntryAt(f, r, j) {
      WideBound(Sub(Narrow(j)));
      if j < i {
        SubDistinct(j, i);
        assert EntryAt(fsb, rsb, j);
      }
    }
  }

  lemma SboxDone(fsb: seq<Octet>, rsb: seq<Octet>)
    requires SboxTo(fsb, rsb, 256)
    ensures Sbox(fsb, rsb)
  {
    hide Sub, InvSub, Narrow, Wide;
    forall x: Octet ensures SboxAt(fsb, rsb, x) {
      WideBound(x);
      NarrowWide(x);
      assert EntryAt(fsb, rsb, Wide(x));
      var y := InvSub(x);
      WideBound(y);
      NarrowWide(y);
      SubRoundTrip(x);
      assert EntryAt(fsb, rsb, Wide(y));
    }
  }

  lemma SubZero()
    ensures Sub(0) == 0x63 && Narrow(0) == 0 && Wide(0x63) == 0x63
  {
    assert Affine(0) == 0x63;
  }

  /** The affine transformation of an inverse, in place. */
  method Transform(x0: Octet) returns (x: Octet)
    ensures x == Affine(x0)
  {
    hide Affine, Rol;
    AffineSteps(x0);
    x := x0;
    var y := x;
    y := Rol(y);
    x := x ^ y;
    y := Rol(y);
    x := x ^ y;
    y := Rol(y);
    x := x ^ y;
    y := Rol(y);
    x := x ^ (y ^ 0x63);
  }

  lemma SboxNone(fsb: seq<Octet>, rsb: seq<Octet>)
    requires |fsb| == 256 && |rsb| == 256
    ensures SboxTo(fsb, rsb, 0)
  {}

  lemma NarrowNonZero(i: nat)
    requires 0 < i < 256
    ensures Narrow(i) != 0 && LogIndex(i)
  {
    WideNarrow(i);
  }

  ghost predicate LogIndex(i: nat) {
    Wide(Narrow(i)) == i
  }

  method GenSbox(pow: seq<Octet>, log: seq<nat>) returns (fsb: seq<Octet>, rsb: seq<Octet>)
    requires Powers(pow, 256) && Logs(log)
    ensures Sbox(fsb, rsb)
  {
    hide Sub, Narrow, Wide, SboxTo, Sbox, Powers, Logs, Affine, FieldInverse, LogAt;
    var FSb := new Octet[256];
    var RSb := new Octet[256];
    SboxNone(FSb[..], RSb[..]);
    SboxNext(FSb[..], RSb[..], 0);
    SubZero();
    ghost var f0, r0 := FSb[..], RSb[..];
    FSb[0x00] := 0x63;
    RSb[0x63] := 0x00;
    assert FSb[..] == f0[0 := 0x63] && RSb[..] == r0[0x63 := 0x00];
    for i := 1 to 256
      invariant SboxTo(FSb[..], RSb[..], i)
    {
      NarrowNonZero(i);
      InverseByLog(pow, log, Narrow(i));
      PowersSize(pow, log, i);
      var x := Transform(pow[255 - log[i]]);
      SubIs(Narrow(i));
      SboxNext(FSb[..], RSb[..], i);
      ghost var f, r := FSb[..], RSb[..];
      FSb[i] := x;
      RSb[Wide(x)] := Narrow(i);
      assert FSb[..] == f[i := x] && RSb[..] == r[Wide(x) := Narrow(i)];
    }
    SboxDone(FSb[..], RSb[..]);
    return FSb[..], RSb[..];
  }

  lemma SubIs(x: Octet)
    requires x != 0
    ensures Sub(x) == Affine(FieldInverse(x))
  {}

  lemma PowersSize(pow: seq<Octet>, log: seq<nat>, i: nat)
    requires Powers(pow, 256) && Logs(log) && LogIndex(i) && i < 256
    ensures |pow| == 256 && |log| == 256 && log[i] == LogAt(log, Narrow(i))
  {}

  // ----- round constants and round tables -----

  method GenRcon() returns (rcon: seq<Octet>)
    ensures |rcon| == 10 && forall i :: 0 <= i < 10 ==> rcon[i] == Doubled(i)
  {
    hide Xtime, XTIME;
    var RCON := new Octet[10];
    var x: Octet := 1;
    for i := 0 to 10
      invariant x == Doubled(i) && forall k :: 0 <= k < i ==> RCON[k] == Doubled(k)
    {
      RCON[i] := x;
      TripleIs(x);
      x := XTIME(x);
    }
    return RCON[..];
  }

  lemma {:induction false} PowerModulo(n: nat)
    ensures Power(n) == Power(n % 255)
  {
    hide Power, Product;
    if n >= 255 {
      PowersOf3();
      PowerSum(255, n - 255);
      ProductOne(Power(n - 255));
      PowerModulo(n - 255);
    }
  }

  /** The macro MUL: a product through logarithms. */
  function MUL(pow: seq<Octet>, log: seq<nat>, x: Octet, y: Octet): Octet
    requires |pow| == 256 && |log| == 256
  {
    if x != 0 && y != 0 then pow[(LogAt(log, x) + LogAt(log, y)) % 255] else 0
  }

  lemma MulIsProduct(pow: seq<Octet>, log: seq<nat>, x: Octet, y: Octet)
    requires Powers(pow, 256) && Logs(log)
    ensures MUL(pow, log, x, y) == Product(x, y)
  {
    hide Power, Product, LogAt;
    if x != 0 && y != 0 {
      PowerSum(LogAt(log, x), LogAt(log, y));
      PowerModulo(LogAt(log, x) + LogAt(log, y));
    } else {
      ProductZero(y);
      ProductZeroRight(x);
    }
  }

  ghost predicate HoldsTo(t: seq<bv32>, f: Octet -> Col, n: nat) {
    |t| == 256 && n <= 256 && forall i: nat :: i < n ==> t[i] == Word(f(Narrow(i)))
  }

  lemma HoldsNone(t: seq<bv32>, f: Octet -> Col)
    requires |t| == 256
    ensures HoldsTo(t, f, 0)
  {}

  lemma HoldsMore(t: seq<bv32>, f: Octet -> Col, i: nat, w: bv32)
    requires i < 256 && HoldsTo(t, f, i) && w == Word(f(Narrow(i)))
    ensures HoldsTo(t[i := w], f, i + 1)
  {
    hide Word, Narrow;
  }

  lemma HoldsDone(t: seq<bv32>, f: Octet -> Col)
    requires HoldsTo(t, f, 256)
    ensures Holds(t, f)
  {
    hide Word, Narrow, Wide;
    forall x: Octet ensures HoldsAt(t, f, x) {
      WideBound(x);
      NarrowWide(x);
    }
  }

  /** The forward word for a substituted octet: y = 2x, z = 3x. */
  function ForwardWord(x: Octet): bv32 {
    var y := XTIME(x); var z := y ^ x;
    Pack(y, x, x, z)
  }

  function ReverseWord(pow: seq<Octet>, log: seq<nat>, x: Octet): bv32
    requires |pow| == 256 && |log| == 256
  {
    Pack(MUL(pow, log, 0x0E, x), MUL(pow, log, 0x09, x), MUL(pow, log, 0x0D, x), MUL(pow, log, 0x0B, x))
  }

  lemma ForwardWordIs(x: Octet)
    ensures ForwardWord(x) == Word(MixA(x))
  {
    hide Xtime, XTIME, Triple, Pack;
    TripleIs(x);
    XorComm(x, XTIME(x));
  }

  lemma XorComm(a: Octet, b: Octet)
    ensures a ^ b == b ^ a
  {}

  lemma ReverseWordIs(pow: seq<Octet>, log: seq<nat>, x: Octet)
    requires Powers(pow, 256) && Logs(log)
    ensures ReverseWord(pow, log, x) == Word(InvMixA(x))
  {
    hide By9, ByB, ByD, ByE, MUL, Product, Powers, Logs, Pack;
    MulIsProduct(pow, log, 0x0E, x);
    MulIsProduct(pow, log, 0x09, x);
    MulIsProduct(pow, log, 0x0D, x);
    MulIsProduct(pow, log, 0x0B, x);
    Multiples(x);
  }

  /** ROTL8 turns each word into the next table's. */
  lemma RotateTables(v: Octet)
    ensures Rotate(Word(MixA(v))) == Word(MixB(v)) && Rotate(Word(MixB(v))) == Word(MixC(v))
    ensures Rotate(Word(MixC(v))) == Word(MixD(v))
    ensures Rotate(Word(InvMixA(v))) == Word(InvMixB(v)) && Rotate(Word(InvMixB(v))) == Word(InvMixC(v))
    ensures Rotate(Word(InvMixC(v))) == Word(InvMixD(v))
  {
    hide Word, Rotate, MixA, MixB, MixC, MixD, InvMixA, InvMixB, InvMixC, InvMixD;
    PartsTurn(v);
    RotateWord(MixA(v));
    RotateWord(MixB(v));
    RotateWord(MixC(v));
    RotateWord(InvMixA(v));
    RotateWord(InvMixB(v));
    RotateWord(InvMixC(v));
  }

  /** The entries of the S-boxes at position i. */
  lemma SboxEntry(fsb: seq<Octet>, rsb: seq<Octet>, i: nat)
    requires Sbox(fsb, rsb) && i < 256
    ensures |fsb| == 256 && |rsb| == 256 && fsb[i] == Sub(Narrow(i)) && rsb[i] == InvSub(Narrow(i))
  {
    hide Sub, InvSub, Narrow, Wide;
    WideNarrow(i);
    assert SboxAt(fsb, rsb, Narrow(i));
  }

  method GenForward(fsb: seq<Octet>, rsb: seq<Octet>) returns (ft0: seq<bv32>, ft1: seq<bv32>, ft2: seq<bv32>, ft3: seq<bv32>)
    requires Sbox(fsb, rsb)
    ensures Holds(ft0, ForwardA()) && Holds(ft1, ForwardB()) && Holds(ft2, ForwardC()) && Holds(ft3, ForwardD())
  {
    hide Word, Rotate, ForwardWord, Narrow, Sub, MixA, MixB, MixC, MixD, Holds, HoldsTo, Sbox;
    var FT0 := new bv32[256];
    var FT1 := new bv32[256];
    var FT2 := new bv32[256];
    var FT3 := new bv32[256];
    HoldsNone(FT0[..], ForwardA());
    HoldsNone(FT1[..], ForwardB());
    HoldsNone(FT2[..], ForwardC());
    HoldsNone(FT3[..], ForwardD());
    for i := 0 to 256
      invariant HoldsTo(FT0[..], ForwardA(), i) && HoldsTo(FT1[..], ForwardB(), i)
      invariant HoldsTo(FT2[..], ForwardC(), i) && HoldsTo(FT3[..], ForwardD(), i)
    {
      SboxEntry(fsb, rsb, i);
      ForwardWordIs(fsb[i]);
      RotateTables(fsb[i]);
      var w0 := ForwardWord(fsb[i]);
      var w1 := Rotate(w0);
      var w2 := Rotate(w1);
      var w3 := Rotate(w2);
      HoldsMore(FT0[..], ForwardA(), i, w0);
      HoldsMore(FT1[..], ForwardB(), i, w1);
      HoldsMore(FT2[..], ForwardC(), i, w2);
      HoldsMore(FT3[..], ForwardD(), i, w3);
      FT0[i], FT1[i], FT2[i], FT3[i] := w0, w1, w2, w3;
    }
    HoldsDone(FT0[..], ForwardA());
    HoldsDone(FT1[..], ForwardB());
    HoldsDone(FT2[..], ForwardC());
    HoldsDone(FT3[..], ForwardD());
    return FT0[..], FT1[..], FT2[..], FT3[..];
  }

  method GenReverse(fsb: seq<Octet>, rsb: seq<Octet>, pow: seq<Octet>, log: seq<nat>)
    returns (rt0: seq<bv32>, rt1: seq<bv32>, rt2: seq<bv32>, rt3: seq<bv32>)
    requires Sbox(fsb, rsb) && Powers(pow, 256) && Logs(log)
    ensures Holds(rt0, ReverseA()) && Holds(rt1, ReverseB()) && Holds(rt2, ReverseC()) && Holds(rt3, ReverseD())
  {
    hide Word, Rotate, ReverseWord, Narrow, InvSub, InvMixA, InvMixB, InvMixC, InvMixD, Holds, HoldsTo, Sbox;
    var RT0 := new bv32[256];
    var RT1 := new bv32[256];
    var RT2 := new bv32[256];
    var RT3 := new bv32[256];
    HoldsNone(RT0[..], ReverseA());
    HoldsNone(RT1[..], ReverseB());
    HoldsNone(RT2[..], ReverseC());
    HoldsNone(RT3[..], ReverseD());
    for i := 0 to 256
      invariant HoldsTo(RT0[..], ReverseA(), i) && HoldsTo(RT1[..], ReverseB(), i)
      invariant HoldsTo(RT2[..], ReverseC(), i) && HoldsTo(RT3[..], ReverseD(), i)
    {
      SboxEntry(fsb, rsb, i);
      ReverseWordIs(pow, log, rsb[i]);
      RotateTables(rsb[i]);
      var w0 := ReverseWord(pow, log, rsb[i]);
      var w1 := Rotate(w0);
      var w2 := Rotate(w1);
      var w3 := Rotate(w2);
      HoldsMore(RT0[..], ReverseA(), i, w0);
      HoldsMore(RT1[..], ReverseB(), i, w1);
      HoldsMore(RT2[..], ReverseC(), i, w2);
      HoldsMore(RT3[..], ReverseD(), i, w3);
      RT0[i], RT1[i], RT2[i], RT3[i] := w0, w1, w2, w3;
    }
    HoldsDone(RT0[..], ReverseA());
    HoldsDone(RT1[..], ReverseB());
    HoldsDone(RT2[..], ReverseC());
    HoldsDone(RT3[..], ReverseD());
    return RT0[..], RT1[..], RT2[..], RT3[..];
  }

  /** aes_gen_tables. */
  method GenTables() returns (t: Tables)
    ensures Good(t)
  {
    hide Sbox, Holds, Powers, Logs;
    var pow, log := GenPowers();
    var rcon := GenRcon();
    var fsb, rsb := GenSbox(pow, log);
    var ft0, ft1, ft2, ft3 := GenForward(fsb, rsb);
    var rt0, rt1, rt2, rt3 := GenReverse(fsb, rsb, pow, log);
    t := Tables(fsb, rsb, rcon, ft0, ft1, ft2, ft3, rt0, rt1, rt2, rt3);
  }
}
