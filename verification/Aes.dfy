/** AES as aes.c computes it: key schedules on words, rounds through the tables. */
module Aes {
  import opened Octets
  import opened BlockPadding
  import opened Gf256
  import opened AesRounds
  import opened AesCipher
  import opened AesTables

  const ERR_INVALID_KEY_LENGTH := -0x0020

  // ----- words and states -----

  /** GET_UINT32_LE. */
  function GetLe(b: seq<Octet>, i: nat): bv32
    requires i + 4 <= |b|
  {
    (b[i] as bv32) | ((b[i + 1] as bv32) << 8) | ((b[i + 2] as bv32) << 16) | ((b[i + 3] as bv32) << 24)
  }

  lemma GetLeIs(b: seq<Octet>, i: nat)
    requires i + 4 <= |b|
    ensures GetLe(b, i) == Word(Col(b[i], b[i + 1], b[i + 2], b[i + 3]))
  {
    OrIsXor(b[i], b[i + 1], b[i + 2], b[i + 3]);
  }

  lemma OrIsXor(a: Octet, b: Octet, c: Octet, d: Octet)
    ensures (a as bv32) | ((b as bv32) << 8) | ((c as bv32) << 16) | ((d as bv32) << 24)
         == (a as bv32) ^ ((b as bv32) << 8) ^ ((c as bv32) << 16) ^ ((d as bv32) << 24)
  {}

  /** The octets of a column, as PUT_UINT32_LE stores them. */
  function ColOctets(x: Col): (r: seq<Octet>)
    ensures |r| == 4
  {
    [x.a, x.b, x.c, x.d]
  }

  function Load(b: Block): State {
    State(Col(b[0], b[1], b[2], b[3]), Col(b[4], b[5], b[6], b[7]),
          Col(b[8], b[9], b[10], b[11]), Col(b[12], b[13], b[14], b[15]))
  }

  function Unload(s: State): Block {
    [s.c0.a, s.c0.b, s.c0.c, s.c0.d, s.c1.a, s.c1.b, s.c1.c, s.c1.d,
     s.c2.a, s.c2.b, s.c2.c, s.c2.d, s.c3.a, s.c3.b, s.c3.c, s.c3.d]
  }

  lemma LoadUnload(s: State, b: Block)
    ensures Load(Unload(s)) == s && Unload(Load(b)) == b
  {}

  function StateOf(x0: bv32, x1: bv32, x2: bv32, x3: bv32): State {
    State(Column(x0), Column(x1), Column(x2), Column(x3))
  }

  function KeyAt(rk: seq<bv32>, p: nat): State
    requires p + 4 <= |rk|
  {
    StateOf(rk[p], rk[p + 1], rk[p + 2], rk[p + 3])
  }

  /** The round keys in a buffer of words. */
  function RoundKeys(rk: seq<bv32>, nr: nat): (ks: seq<State>)
    requires 4 * nr + 4 <= |rk|
    ensures |ks| == nr + 1
  {
    seq(nr + 1, i requires 0 <= i <= nr => KeyAt(rk, 4 * i))
  }

  // ----- one word of a round -----

  function At(t: seq<bv32>, x: Octet): bv32
    requires |t| == 256
  {
    WideBound(x);
    t[Wide(x)]
  }

  function SAt(t: seq<Octet>, x: Octet): Octet
    requires |t| == 256
  {
    WideBound(x);
    t[Wide(x)]
  }

  /** A word of a round: the key word and four table entries. */
  function RoundWord(t0: seq<bv32>, t1: seq<bv32>, t2: seq<bv32>, t3: seq<bv32>,
                     k: bv32, a: bv32, b: bv32, c: bv32, d: bv32): bv32
    requires |t0| == 256 && |t1| == 256 && |t2| == 256 && |t3| == 256
  {
    Xor32(Xor32(Xor32(Xor32(k, At(t0, Octet0(a))), At(t1, Octet1(b))), At(t2, Octet2(c))), At(t3, Octet3(d)))
  }

  /** A word of the last round: the key word and four substituted octets. */
  function LastWord(s: seq<Octet>, k: bv32, a: bv32, b: bv32, c: bv32, d: bv32): bv32
    requires |s| == 256
  {
    Xor32(k, Pack(SAt(s, Octet0(a)), SAt(s, Octet1(b)), SAt(s, Octet2(c)), SAt(s, Octet3(d))))
  }

  lemma AddKeyLast(k: Octet, p: Octet, q: Octet, r: Octet, s: Octet)
    ensures Add(Add(Add(Add(k, p), q), r), s) == Add(Add(Add(p, q), Add(r, s)), k)
  {
    hide Add;
    AddAssoc(k, p, q);
    AddAssoc(k, Add(p, q), r);
    AddAssoc(k, Add(Add(p, q), r), s);
    AddAssoc(Add(p, q), r, s);
    AddComm(k, Add(Add(p, q), Add(r, s)));
  }

  lemma AddColKeyLast(k: Col, p: Col, q: Col, r: Col, s: Col)
    ensures AddCol(AddCol(AddCol(AddCol(k, p), q), r), s) == AddCol(AddCol4(p, q, r, s), k)
  {
    hide Add;
    AddKeyLast(k.a, p.a, q.a, r.a, s.a);
    AddKeyLast(k.b, p.b, q.b, r.b, s.b);
    AddKeyLast(k.c, p.c, q.c, r.c, s.c);
    AddKeyLast(k.d, p.d, q.d, r.d, s.d);
  }

  lemma ColumnOfFive(k: bv32, p: Col, q: Col, r: Col, s: Col)
    ensures Column(Xor32(Xor32(Xor32(Xor32(k, Word(p)), Word(q)), Word(r)), Word(s))) == AddCol(AddCol4(p, q, r, s), Column(k))
  {
    hide Xor32, Word, Column, AddCol;
    var k1 := Xor32(k, Word(p));
    var k2 := Xor32(k1, Word(q));
    var k3 := Xor32(k2, Word(r));
    ColumnXor(k, Word(p));
    ColumnXor(k1, Word(q));
    ColumnXor(k2, Word(r));
    ColumnXor(k3, Word(s));
    ColumnWord(p);
    ColumnWord(q);
    ColumnWord(r);
    ColumnWord(s);
    AddColKeyLast(Column(k), p, q, r, s);
  }

  /** The octets a round word draws on. */
  function Gather(a: bv32, b: bv32, c: bv32, d: bv32): Col {
    Col(Octet0(a), Octet1(b), Octet2(c), Octet3(d))
  }

  lemma TablesHold(t: Tables, x: Octet)
    requires Good(t)
    ensures |t.ft0| == |t.ft1| == |t.ft2| == |t.ft3| == |t.rt0| == |t.rt1| == |t.rt2| == |t.rt3| == |t.fsb| == |t.rsb| == 256
    ensures At(t.ft0, x) == Word(MixA(Sub(x))) && At(t.ft1, x) == Word(MixB(Sub(x)))
    ensures At(t.ft2, x) == Word(MixC(Sub(x))) && At(t.ft3, x) == Word(MixD(Sub(x)))
    ensures At(t.rt0, x) == Word(InvMixA(InvSub(x))) && At(t.rt1, x) == Word(InvMixB(InvSub(x)))
    ensures At(t.rt2, x) == Word(InvMixC(InvSub(x))) && At(t.rt3, x) == Word(InvMixD(InvSub(x)))
    ensures SAt(t.fsb, x) == Sub(x) && SAt(t.rsb, x) == InvSub(x)
  {
    hide Word, Wide, Sub, InvSub, MixA, MixB, MixC, MixD, InvMixA, InvMixB, InvMixC, InvMixD;
    assert HoldsAt(t.ft0, ForwardA(), x) && HoldsAt(t.ft1, ForwardB(), x) && HoldsAt(t.ft2, ForwardC(), x) && HoldsAt(t.ft3, ForwardD(), x);
    assert HoldsAt(t.rt0, ReverseA(), x) && HoldsAt(t.rt1, ReverseB(), x) && HoldsAt(t.rt2, ReverseC(), x) && HoldsAt(t.rt3, ReverseD(), x);
    assert SboxAt(t.fsb, t.rsb, x);
  }

  /** A forward round word is a mixed column of substituted octets plus the key. */
  lemma ForwardWordOf(t: Tables, k: bv32, a: bv32, b: bv32, c: bv32, d: bv32)
    requires Good(t)
    ensures Column(RoundWord(t.ft0, t.ft1, t.ft2, t.ft3, k, a, b, c, d)) == AddCol(Mix(SubCol(Gather(a, b, c, d))), Column(k))
  {
    hide Xor32, Word, Column, At, Sub, Good, MixA, MixB, MixC, MixD, Mix, Octet0, Octet1, Octet2, Octet3, AddCol;
    var x := Gather(a, b, c, d);
    TablesHold(t, x.a);
    TablesHold(t, x.b);
    TablesHold(t, x.c);
    TablesHold(t, x.d);
    ColumnOfFive(k, MixA(Sub(x.a)), MixB(Sub(x.b)), MixC(Sub(x.c)), MixD(Sub(x.d)));
    MixParts(SubCol(x));
  }

  lemma ReverseWordOf(t: Tables, k: bv32, a: bv32, b: bv32, c: bv32, d: bv32)
    requires Good(t)
    ensures Column(RoundWord(t.rt0, t.rt1, t.rt2, t.rt3, k, a, b, c, d)) == AddCol(InvMix(InvSubCol(Gather(a, b, c, d))), Column(k))
  {
    hide Xor32, Word, Column, At, InvSub, Good, InvMixA, InvMixB, InvMixC, InvMixD, InvMix, Octet0, Octet1, Octet2, Octet3, AddCol;
    var x := Gather(a, b, c, d);
    TablesHold(t, x.a);
    TablesHold(t, x.b);
    TablesHold(t, x.c);
    TablesHold(t, x.d);
    ColumnOfFive(k, InvMixA(InvSub(x.a)), InvMixB(InvSub(x.b)), InvMixC(InvSub(x.c)), InvMixD(InvSub(x.d)));
    MixParts(InvSubCol(x));
  }

  lemma AddColComm(x: Col, y: Col)
    ensures AddCol(x, y) == AddCol(y, x)
  {
    hide Add;
    AddComm(x.a, y.a);
    AddComm(x.b, y.b);
    AddComm(x.c, y.c);
    AddComm(x.d, y.d);
  }

  lemma LastWordOf(t: Tables, k: bv32, a: bv32, b: bv32, c: bv32, d: bv32)
    requires Good(t)
    ensures Column(LastWord(t.fsb, k, a, b, c, d)) == AddCol(SubCol(Gather(a, b, c, d)), Column(k))
    ensures Column(LastWord(t.rsb, k, a, b, c, d)) == AddCol(InvSubCol(Gather(a, b, c, d)), Column(k))
  {
    hide Xor32, Column, SAt, Sub, InvSub, Good, Octet0, Octet1, Octet2, Octet3, AddCol, Pack;
    var x := Gather(a, b, c, d);
    TablesHold(t, x.a);
    TablesHold(t, x.b);
    TablesHold(t, x.c);
    TablesHold(t, x.d);
    var f, r := SubCol(x), InvSubCol(x);
    ColumnXor(k, Word(f));
    ColumnXor(k, Word(r));
    ColumnWord(f);
    ColumnWord(r);
    AddColComm(Column(k), f);
    AddColComm(Column(k), r);
  }

  // ----- rounds -----

  /** AES_FROUND. */
  method ForwardRound(t: Tables, rk: array<bv32>, p: nat, y0: bv32, y1: bv32, y2: bv32, y3: bv32)
    returns (x0: bv32, x1: bv32, x2: bv32, x3: bv32)
    requires Good(t) && p + 4 <= rk.Length
    ensures StateOf(x0, x1, x2, x3) == AddKey(MixColumns(Confuse(StateOf(y0, y1, y2, y3))), KeyAt(rk[..], p))
  {
    hide Good, RoundWord, Octet0, Octet1, Octet2, Octet3, AddCol, Mix, Sub;
    TablesHold(t, 0);
    x0 := RoundWord(t.ft0, t.ft1, t.ft2, t.ft3, rk[p], y0, y1, y2, y3);
    x1 := RoundWord(t.ft0, t.ft1, t.ft2, t.ft3, rk[p + 1], y1, y2, y3, y0);
    x2 := RoundWord(t.ft0, t.ft1, t.ft2, t.ft3, rk[p + 2], y2, y3, y0, y1);
    x3 := RoundWord(t.ft0, t.ft1, t.ft2, t.ft3, rk[p + 3], y3, y0, y1, y2);
    ForwardWordOf(t, rk[p], y0, y1, y2, y3);
    ForwardWordOf(t, rk[p + 1], y1, y2, y3, y0);
    ForwardWordOf(t, rk[p + 2], y2, y3, y0, y1);
    ForwardWordOf(t, rk[p + 3], y3, y0, y1, y2);
  }

  /** AES_RROUND. */
  method ReverseRound(t: Tables, rk: array<bv32>, p: nat, y0: bv32, y1: bv32, y2: bv32, y3: bv32)
    returns (x0: bv32, x1: bv32, x2: bv32, x3: bv32)
    requires Good(t) && p + 4 <= rk.Length
    ensures StateOf(x0, x1, x2, x3) == AddKey(InvMixColumns(Unconfuse(StateOf(y0, y1, y2, y3))), KeyAt(rk[..], p))
  {
    hide Good, RoundWord, Octet0, Octet1, Octet2, Octet3, AddCol, InvMix, InvSub;
    TablesHold(t, 0);
    x0 := RoundWord(t.rt0, t.rt1, t.rt2, t.rt3, rk[p], y0, y3, y2, y1);
    x1 := RoundWord(t.rt0, t.rt1, t.rt2, t.rt3, rk[p + 1], y1, y0, y3, y2);
    x2 := RoundWord(t.rt0, t.rt1, t.rt2, t.rt3, rk[p + 2], y2, y1, y0, y3);
    x3 := RoundWord(t.rt0, t.rt1, t.rt2, t.rt3, rk[p + 3], y3, y2, y1, y0);
    ReverseWordOf(t, rk[p], y0, y3, y2, y1);
    ReverseWordOf(t, rk[p + 1], y1, y0, y3, y2);
    ReverseWordOf(t, rk[p + 2], y2, y1, y0, y3);
    ReverseWordOf(t, rk[p + 3], y3, y2, y1, y0);
  }

  // ----- key expansion -----

  /** SubWord and RotWord of section 5.2, on columns. */
  ghost function SubWord(x: Col): Col {
    SubCol(x)
  }

  function RotWord(x: Col): Col {
    Col(x.b, x.c, x.d, x.a)
  }

  /** What is added to word i - nk to get word i (section 5.2, figure 11). */
  ghost function Temp(i: nat, nk: nat, prev: Col): Col
    requires nk > 0
  {
    if i % nk == 0 then AddCol(SubWord(RotWord(prev)), Col(Doubled(Constant(i, nk)), 0, 0, 0))
    else if nk > 6 && i % nk == 4 then SubWord(prev)
    else prev
  }

  /** The index of the round constant. */
  function Constant(i: nat, nk: nat): nat
    requires nk > 0
  {
    if i < nk then 0 else i / nk - 1
  }

  /** Words nk.. up to n follow the recurrence. */
  ghost predicate Expanded(rk: seq<bv32>, nk: nat, n: nat)
    requires nk > 0
  {
    n <= |rk| && forall i: nat :: nk <= i < n ==> Follows(rk, nk, i)
  }

  ghost predicate Follows(rk: seq<bv32>, nk: nat, i: nat)
    requires 0 < nk <= i < |rk|
  {
    Column(rk[i]) == AddCol(Column(rk[i - nk]), Temp(i, nk, Column(rk[i - 1])))
  }

  /** RK[nk] of a group: the substituted, rotated last word and the round constant. */
  function FirstOfGroup(t: Tables, k: bv32, last: bv32, rcon: Octet): bv32
    requires |t.fsb| == 256
  {
    Xor32(Xor32(k, rcon as bv32), Pack(SAt(t.fsb, Octet1(last)), SAt(t.fsb, Octet2(last)), SAt(t.fsb, Octet3(last)), SAt(t.fsb, Octet0(last))))
  }

  lemma ConstantColumn(r: Octet)
    ensures Column(r as bv32) == Col(r, 0, 0, 0)
  {}

  lemma AddAround(k: Col, r: Col, x: Col)
    ensures AddCol(AddCol(k, r), x) == AddCol(k, AddCol(x, r))
  {
    hide Add;
    AroundOctet(k.a, r.a, x.a);
    AroundOctet(k.b, r.b, x.b);
    AroundOctet(k.c, r.c, x.c);
    AroundOctet(k.d, r.d, x.d);
  }

  lemma AroundOctet(k: Octet, r: Octet, x: Octet)
    ensures Add(Add(k, r), x) == Add(k, Add(x, r))
  {
    hide Add;
    AddAssoc(k, r, x);
    AddComm(r, x);
  }

  lemma FirstOfGroupIs(t: Tables, k: bv32, last: bv32, rcon: Octet)
    requires Good(t)
    ensures |t.fsb| == 256
    ensures Column(FirstOfGroup(t, k, last, rcon)) == AddCol(Column(k), AddCol(SubWord(RotWord(Column(last))), Col(rcon, 0, 0, 0)))
  {
    hide Xor32, Pack, SAt, Sub, Good, Octet0, Octet1, Octet2, Octet3, AddCol;
    var x := RotWord(Column(last));
    TablesHold(t, x.a);
    TablesHold(t, x.b);
    TablesHold(t, x.c);
    TablesHold(t, x.d);
    ColumnXor(k, rcon as bv32);
    ColumnXor(Xor32(k, rcon as bv32), Word(SubCol(x)));
    ColumnWord(SubCol(x));
    ConstantColumn(rcon);
    AddAround(Column(k), Col(rcon, 0, 0, 0), SubCol(x));
  }

  /** RK[12] of a 256-bit group. */
  lemma MiddleOfGroupIs(t: Tables, k: bv32, prev: bv32)
    requires Good(t)
    ensures |t.fsb| == 256
    ensures Column(LastWord(t.fsb, k, prev, prev, prev, prev)) == AddCol(Column(k), SubWord(Column(prev)))
  {
    hide AddCol, Sub, LastWord, Good, Octet0, Octet1, Octet2, Octet3;
    TablesHold(t, 0);
    LastWordOf(t, k, prev, prev, prev, prev);
    AddColComm(SubCol(Column(prev)), Column(k));
  }

  lemma ExpandedNext(rk: seq<bv32>, nk: nat, i: nat, w: bv32)
    requires 0 < nk <= i < |rk| && Expanded(rk, nk, i)
    requires Column(w) == AddCol(Column(rk[i - nk]), Temp(i, nk, Column(rk[i - 1])))
    ensures Expanded(rk[i := w], nk, i + 1)
  {
    hide Column, AddCol, Temp;
    var l := rk[i := w];
    forall j: nat | nk <= j < i + 1 ensures Follows(l, nk, j) {
      if j < i {
        assert Follows(rk, nk, j);
      }
    }
  }

  lemma GroupIndex(g: nat, nk: nat, j: nat)
    requires nk > 0 && j < nk
    ensures var i := nk * (g + 1) + j;
            i % nk == j && i / nk == g + 1
  {
    var i := nk * (g + 1) + j;
    assert i == (g + 1) * nk + j;
    Arith.DivUnique(i, nk, g + 1, j);
  }


  /** One turn of the expansion loop: group g + 1 of nk words. */
  method ExpandGroup(t: Tables, rk: array<bv32>, nk: nat, g: nat)
    requires Good(t) && (nk == 4 || nk == 6 || nk == 8) && g < 10 && nk * (g + 2) <= rk.Length
    requires Expanded(rk[..], nk, nk * (g + 1))
    modifies rk
    ensures Expanded(rk[..], nk, nk * (g + 2)) && rk[..nk * (g + 1)] == old(rk[..nk * (g + 1)])
  {
    hide Good, Expanded, Column, AddCol, FirstOfGroup, LastWord, Xor32, SubWord;
    var base := nk * (g + 1);
    ghost var was := rk[..];
    GroupIndex(g, nk, 0);
    Rcons(t);
    FirstOfGroupIs(t, rk[base - nk], rk[base - 1], t.rcon[g]);
    ExpandedNext(rk[..], nk, base, FirstOfGroup(t, rk[base - nk], rk[base - 1], t.rcon[g]));
    rk[base] := FirstOfGroup(t, rk[base - nk], rk[base - 1], t.rcon[g]);
    assert rk[..] == was[base := rk[base]];
    for j := 1 to nk
      invariant Expanded(rk[..], nk, base + j)
      invariant rk[..base] == was[..base]
      modifies rk
    {
      var i := base + j;
      ghost var now := rk[..];
      GroupIndex(g, nk, j);
      if nk == 8 && j == 4 {
        MiddleOfGroupIs(t, rk[i - nk], rk[i - 1]);
        ExpandedNext(rk[..], nk, i, LastWord(t.fsb, rk[i - nk], rk[i - 1], rk[i - 1], rk[i - 1], rk[i - 1]));
        rk[i] := LastWord(t.fsb, rk[i - nk], rk[i - 1], rk[i - 1], rk[i - 1], rk[i - 1]);
      } else {
        ColumnXor(rk[i - nk], rk[i - 1]);
        ExpandedNext(rk[..], nk, i, Xor32(rk[i - nk], rk[i - 1]));
        rk[i] := Xor32(rk[i - nk], rk[i - 1]);
      }
      assert rk[..] == now[i := rk[i]];
    }
    assert nk * (g + 2) == base + nk;
  }

  lemma Rcons(t: Tables)
    requires Good(t)
    ensures |t.fsb| == 256 && |t.rcon| == 10 && forall i :: 0 <= i < 10 ==> t.rcon[i] == Doubled(i)
  {}

  /** The rounds for a key length, and the turns of the expansion loop. */
  function Rounds(keybits: nat): nat {
    if keybits == 128 then 10 else if keybits == 192 then 12 else if keybits == 256 then 14 else 0
  }

  const BUFFER := 68

  class AesContext {
    var nr: nat
    const rk: array<bv32>

    constructor ()
      ensures fresh(rk) && rk.Length == BUFFER && nr == 0
    {
      nr := 0;
      rk := new bv32[BUFFER](_ => 0);
    }

    ghost predicate Ready()
      reads this, rk
    {
      rk.Length == BUFFER && (nr == 10 || nr == 12 || nr == 14)
    }

    /** The round keys in force. */
    function Keys(): (ks: seq<State>)
      requires Ready()
      reads this, rk
      ensures |ks| == nr + 1
    {
      RoundKeys(rk[..], nr)
    }

    /** mbedtls_aes_setkey_enc, the tables being generated. */
    method SetKeyEnc(t: Tables, key: seq<Octet>, keybits: nat) returns (ret: int)
      requires Good(t) && rk.Length == BUFFER && 8 * |key| >= keybits
      modifies this, rk
      ensures ret == if Rounds(keybits) > 0 then 0 else ERR_INVALID_KEY_LENGTH
      ensures ret != 0 ==> nr == old(nr) && rk[..] == old(rk[..])
      ensures ret == 0 ==> nr == Rounds(keybits) && Ready()
      ensures ret == 0 ==> IsSchedule(rk[..], key, keybits)
    {
      hide Good, Expanded, Column, GetLe;
      if Rounds(keybits) == 0 {
        return ERR_INVALID_KEY_LENGTH;
      }
      nr := Rounds(keybits);
      var nk := keybits / 32;
      for i := 0 to nk
        invariant forall k :: 0 <= k < i ==> Column(rk[k]) == Col(key[4 * k], key[4 * k + 1], key[4 * k + 2], key[4 * k + 3])
        modifies rk
      {
        rk[i] := GetLe(key, 4 * i);
        GetLeIs(key, 4 * i);
        ColumnWord(Col(key[4 * i], key[4 * i + 1], key[4 * i + 2], key[4 * i + 3]));
      }
      ghost var start := rk[..nk];
      var turns := if nr == 10 then 10 else if nr == 12 then 8 else 7;
      ExpandedNone(rk[..], nk);
      for g := 0 to turns
        invariant Expanded(rk[..], nk, nk * (g + 1))
        invariant rk[..nk] == start
        modifies rk
      {
        ghost var was := rk[..nk * (g + 1)];
        assert was[..nk] == start;
        ExpandGroup(t, rk, nk, g);
        assert rk[..nk] == rk[..nk * (g + 1)][..nk];
      }
      ExpandedLess(rk[..], nk, nk * (turns + 1), 4 * (nr + 1));
      assert forall k :: 0 <= k < nk ==> rk[k] == start[k];
      ret := 0;
    }

    /** mbedtls_aes_setkey_dec: the encryption schedule ek, reversed and transformed. */
    method SetKeyDec(t: Tables, key: seq<Octet>, keybits: nat) returns (ret: int, ghost ek: seq<bv32>)
      requires Good(t) && rk.Length == BUFFER && 8 * |key| >= keybits
      modifies this, rk
      ensures ret == if Rounds(keybits) > 0 then 0 else ERR_INVALID_KEY_LENGTH
      ensures ret != 0 ==> nr == old(nr) && rk[..] == old(rk[..])
      ensures ret == 0 ==> nr == Rounds(keybits) && Ready() && IsSchedule(ek, key, keybits)
      ensures ret == 0 ==> Keys() == Reversed(RoundKeys(ek, nr))
    {
      hide Good, IsSchedule, Column, InvMix, Expanded;
      var cty := new AesContext();
      ret := cty.SetKeyEnc(t, key, keybits);
      if ret != 0 {
        return ret, [];
      }
      nr := cty.nr;
      ek := cty.rk[..];
      ReverseSchedule(t, cty.rk);
    }

    /** The loop over the round keys, from the last to the first. */
    method ReverseSchedule(t: Tables, src: array<bv32>)
      requires Good(t) && Ready() && src.Length == BUFFER && src != rk
      modifies rk
      ensures Keys() == Reversed(RoundKeys(src[..], nr))
    {
      hide Good, KeyAt, InvMixColumns, Reversed;
      ghost var keys := RoundKeys(src[..], nr);
      ReversedAt(keys);
      CopyKey(src, 4 * nr, 0);
      var p, sk := 4, 4 * nr - 4;
      for i := nr - 1 downto 0
        invariant p == 4 * (nr - i) && sk == 4 * i
        invariant forall k :: 0 <= k < nr - i ==> KeyAt(rk[..], 4 * k) == Reversed(keys)[k]
        modifies rk
      {
        ghost var was := rk[..];
        TransformKey(t, src, sk, p);
        KeysKept(was, rk[..], nr - i - 1);
        p, sk := p + 4, sk - 4;
      }
      ghost var was := rk[..];
      CopyKey(src, 0, p);
      KeysKept(was, rk[..], nr);
      assert Keys() == Reversed(keys);
    }

    /** Four words as they are. */
    method CopyKey(src: array<bv32>, s: nat, p: nat)
      requires s + 4 <= src.Length && p + 4 <= rk.Length && src != rk
      modifies rk
      ensures KeyAt(rk[..], p) == KeyAt(src[..], s) && rk[..p] == old(rk[..p])
    {
      rk[p] := src[s];
      rk[p + 1] := src[s + 1];
      rk[p + 2] := src[s + 2];
      rk[p + 3] := src[s + 3];
    }

    /** Four words through the reverse tables. */
    method TransformKey(t: Tables, src: array<bv32>, s: nat, p: nat)
      requires Good(t) && s + 4 <= src.Length && p + 4 <= rk.Length && src != rk
      modifies rk
      ensures KeyAt(rk[..], p) == InvMixColumns(KeyAt(src[..], s)) && rk[..p] == old(rk[..p])
    {
      hide Good, InvKeyWord, Column, InvMix;
      TablesHold(t, 0);
      for j := 0 to 4
        invariant forall k :: p <= k < p + j ==> Column(rk[k]) == InvMix(Column(src[k - p + s]))
        invariant rk[..p] == old(rk[..p])
        modifies rk
      {
        rk[p + j] := InvKeyWord(t, src[s + j]);
        InvKeyWordIs(t, src[s + j]);
      }
    }

    /** mbedtls_internal_aes_encrypt; input and output may be the same buffer. */
    method Encrypt(t: Tables, input: array<Octet>, output: array<Octet>)
      requires Good(t) && Ready() && input.Length == 16 && output.Length == 16
      modifies output
      ensures output[..] == Unload(Cipher(Keys(), Load(old(input[..]))))
    {
      hide Good, AddKey, MixColumns, Confuse, StateOf, Load;
      ghost var ks, s := Keys(), Load(input[..]);
      var x0, x1, x2, x3 := FirstRound(input);
      var p := 4;
      for i := nr / 2 - 1 downto 0
        invariant p == 4 * (nr - 1 - 2 * i)
        invariant StateOf(x0, x1, x2, x3) == Forward(ks, nr - 2 - 2 * i, s)
        modifies {}
      {
        var y0, y1, y2, y3 := ForwardRound(t, rk, p, x0, x1, x2, x3);
        x0, x1, x2, x3 := ForwardRound(t, rk, p + 4, y0, y1, y2, y3);
        p := p + 8;
      }
      var y0, y1, y2, y3 := ForwardRound(t, rk, p, x0, x1, x2, x3);
      x0, x1, x2, x3 := LastRound(t, p + 4, y0, y1, y2, y3);
      PutState(output, x0, x1, x2, x3);
    }

    /** mbedtls_internal_aes_decrypt; input and output may be the same buffer. */
    method Decrypt(t: Tables, input: array<Octet>, output: array<Octet>)
      requires Good(t) && Ready() && input.Length == 16 && output.Length == 16
      modifies output
      ensures output[..] == Unload(InvCipher(Keys(), Load(old(input[..]))))
    {
      hide Good, AddKey, InvMixColumns, Unconfuse, StateOf, Load;
      ghost var ks, s := Keys(), Load(input[..]);
      var x0, x1, x2, x3 := FirstRound(input);
      var p := 4;
      for i := nr / 2 - 1 downto 0
        invariant p == 4 * (nr - 1 - 2 * i)
        invariant StateOf(x0, x1, x2, x3) == Backward(ks, nr - 2 - 2 * i, s)
        modifies {}
      {
        var y0, y1, y2, y3 := ReverseRound(t, rk, p, x0, x1, x2, x3);
        x0, x1, x2, x3 := ReverseRound(t, rk, p + 4, y0, y1, y2, y3);
        p := p + 8;
      }
      var y0, y1, y2, y3 := ReverseRound(t, rk, p, x0, x1, x2, x3);
      x0, x1, x2, x3 := LastReverseRound(t, p + 4, y0, y1, y2, y3);
      PutState(output, x0, x1, x2, x3);
    }

    /** The input words plus the first round key. */
    method FirstRound(input: array<Octet>) returns (x0: bv32, x1: bv32, x2: bv32, x3: bv32)
      requires Ready() && input.Length == 16
      ensures StateOf(x0, x1, x2, x3) == AddKey(Load(input[..]), KeyAt(rk[..], 0))
    {
      hide GetLe, Xor32, AddCol, Column, Word;
      var b := input[..];
      x0, x1 := Xor32(GetLe(b, 0), rk[0]), Xor32(GetLe(b, 4), rk[1]);
      x2, x3 := Xor32(GetLe(b, 8), rk[2]), Xor32(GetLe(b, 12), rk[3]);
      GetLeColumn(b, 0, rk[0]);
      GetLeColumn(b, 4, rk[1]);
      GetLeColumn(b, 8, rk[2]);
      GetLeColumn(b, 12, rk[3]);
    }

    method LastRound(t: Tables, p: nat, y0: bv32, y1: bv32, y2: bv32, y3: bv32)
      returns (x0: bv32, x1: bv32, x2: bv32, x3: bv32)
      requires Good(t) && p + 4 <= rk.Length
      ensures StateOf(x0, x1, x2, x3) == AddKey(Confuse(StateOf(y0, y1, y2, y3)), KeyAt(rk[..], p))
    {
      hide Good, LastWord, Octet0, Octet1, Octet2, Octet3, AddCol, Sub;
      TablesHold(t, 0);
      x0, x1 := LastWord(t.fsb, rk[p], y0, y1, y2, y3), LastWord(t.fsb, rk[p + 1], y1, y2, y3, y0);
      x2, x3 := LastWord(t.fsb, rk[p + 2], y2, y3, y0, y1), LastWord(t.fsb, rk[p + 3], y3, y0, y1, y2);
      LastWordOf(t, rk[p], y0, y1, y2, y3);
      LastWordOf(t, rk[p + 1], y1, y2, y3, y0);
      LastWordOf(t, rk[p + 2], y2, y3, y0, y1);
      LastWordOf(t, rk[p + 3], y3, y0, y1, y2);
    }

    method LastReverseRound(t: Tables, p: nat, y0: bv32, y1: bv32, y2: bv32, y3: bv32)
      returns (x0: bv32, x1: bv32, x2: bv32, x3: bv32)
      requires Good(t) && p + 4 <= rk.Length
      ensures StateOf(x0, x1, x2, x3) == AddKey(Unconfuse(StateOf(y0, y1, y2, y3)), KeyAt(rk[..], p))
    {
      hide Good, LastWord, Octet0, Octet1, Octet2, Octet3, AddCol, InvSub;
      TablesHold(t, 0);
      x0, x1 := LastWord(t.rsb, rk[p], y0, y3, y2, y1), LastWord(t.rsb, rk[p + 1], y1, y0, y3, y2);
      x2, x3 := LastWord(t.rsb, rk[p + 2], y2, y1, y0, y3), LastWord(t.rsb, rk[p + 3], y3, y2, y1, y0);
      LastWordOf(t, rk[p], y0, y3, y2, y1);
      LastWordOf(t, rk[p + 1], y1, y0, y3, y2);
      LastWordOf(t, rk[p + 2], y2, y1, y0, y3);
      LastWordOf(t, rk[p + 3], y3, y2, y1, y0);
    }
  }

  lemma ReversedAt(keys: seq<State>)
    requires |keys| >= 2
    ensures var nr := |keys| - 1;
            Reversed(keys)[0] == keys[nr] && Reversed(keys)[nr] == keys[0]
            && forall i :: 0 < i < nr ==> Reversed(keys)[i] == InvMixColumns(keys[nr - i])
  {
    hide InvMixColumns;
  }

  lemma KeysKept(was: seq<bv32>, now: seq<bv32>, n: nat)
    requires 4 * n <= |was| == |now| && now[..4 * n] == was[..4 * n]
    ensures forall k :: 0 <= k < n ==> KeyAt(now, 4 * k) == KeyAt(was, 4 * k)
  {
    hide Column;
    assert forall i :: 0 <= i < 4 * n ==> now[i] == now[..4 * n][i] == was[i];
  }

  lemma GetLeColumn(b: seq<Octet>, i: nat, k: bv32)
    requires i + 4 <= |b|
    ensures Column(Xor32(GetLe(b, i), k)) == AddCol(Col(b[i], b[i + 1], b[i + 2], b[i + 3]), Column(k))
  {
    hide GetLe, Xor32, AddCol, Column, Word;
    GetLeIs(b, i);
    ColumnWord(Col(b[i], b[i + 1], b[i + 2], b[i + 3]));
    ColumnXor(GetLe(b, i), k);
  }

  lemma UnloadParts(s: State)
    ensures Unload(s) == ColOctets(s.c0) + ColOctets(s.c1) + ColOctets(s.c2) + ColOctets(s.c3)
  {
    EightOctets(s.c0, s.c1);
    EightOctets(s.c2, s.c3);
    TwoHalves(ColOctets(s.c0) + ColOctets(s.c1), ColOctets(s.c2), ColOctets(s.c3));
  }

  lemma EightOctets(x: Col, y: Col)
    ensures ColOctets(x) + ColOctets(y) == [x.a, x.b, x.c, x.d, y.a, y.b, y.c, y.d]
  {}

  lemma TwoHalves(a: seq<Octet>, b: seq<Octet>, c: seq<Octet>)
    ensures a + (b + c) == a + b + c
  {}

  /** PUT_UINT32_LE, four times. */
  method PutState(output: array<Octet>, x0: bv32, x1: bv32, x2: bv32, x3: bv32)
    requires output.Length == 16
    modifies output
    ensures output[..] == Unload(StateOf(x0, x1, x2, x3))
  {
    hide Column;
    UnloadParts(StateOf(x0, x1, x2, x3));
    SetBlock(output, ColOctets(Column(x0)) + ColOctets(Column(x1)) + ColOctets(Column(x2)) + ColOctets(Column(x3)));
  }

  /** An inner word of the decryption schedule. */
  function InvKeyWord(t: Tables, w: bv32): bv32
    requires |t.fsb| == |t.rt0| == |t.rt1| == |t.rt2| == |t.rt3| == 256
  {
    Xor32(Xor32(Xor32(At(t.rt0, SAt(t.fsb, Octet0(w))), At(t.rt1, SAt(t.fsb, Octet1(w)))),
                At(t.rt2, SAt(t.fsb, Octet2(w)))), At(t.rt3, SAt(t.fsb, Octet3(w))))
  }

  lemma ColumnOfFour(p: Col, q: Col, r: Col, s: Col)
    ensures Column(Xor32(Xor32(Xor32(Word(p), Word(q)), Word(r)), Word(s))) == AddCol4(p, q, r, s)
  {
    hide Xor32, Word, Column, Add;
    var k1 := Xor32(Word(p), Word(q));
    var k2 := Xor32(k1, Word(r));
    ColumnXor(Word(p), Word(q));
    ColumnXor(k1, Word(r));
    ColumnXor(k2, Word(s));
    ColumnWord(p);
    ColumnWord(q);
    ColumnWord(r);
    ColumnWord(s);
    AddAssoc(Add(p.a, q.a), r.a, s.a);
    AddAssoc(Add(p.b, q.b), r.b, s.b);
    AddAssoc(Add(p.c, q.c), r.c, s.c);
    AddAssoc(Add(p.d, q.d), r.d, s.d);
  }

  lemma InvKeyWordIs(t: Tables, w: bv32)
    requires Good(t)
    ensures |t.fsb| == |t.rt0| == |t.rt1| == |t.rt2| == |t.rt3| == 256
    ensures Column(InvKeyWord(t, w)) == InvMix(Column(w))
  {
    hide Xor32, Word, At, SAt, Sub, InvSub, Good, InvMixA, InvMixB, InvMixC, InvMixD, InvMix, Octet0, Octet1, Octet2, Octet3, AddCol;
    var x := Column(w);
    TablesHold(t, x.a);
    TablesHold(t, x.b);
    TablesHold(t, x.c);
    TablesHold(t, x.d);
    TablesHold(t, Sub(x.a));
    TablesHold(t, Sub(x.b));
    TablesHold(t, Sub(x.c));
    TablesHold(t, Sub(x.d));
    SubColRoundTrip(x);
    ColumnOfFour(InvMixA(x.a), InvMixB(x.b), InvMixC(x.c), InvMixD(x.d));
    MixParts(x);
  }

  // ----- both schedules of one key -----

  /** ek starts with the key and continues by the recurrence. */
  ghost predicate IsSchedule(ek: seq<bv32>, key: seq<Octet>, keybits: nat) {
    |ek| == BUFFER && Rounds(keybits) > 0 && 8 * |key| >= keybits
    && (forall i :: 0 <= i < keybits / 32 ==> Column(ek[i]) == Col(key[4 * i], key[4 * i + 1], key[4 * i + 2], key[4 * i + 3]))
    && Expanded(ek, keybits / 32, 4 * (Rounds(keybits) + 1))
  }

  lemma {:induction false} ScheduleWord(ek: seq<bv32>, ek': seq<bv32>, key: seq<Octet>, keybits: nat, i: nat)
    requires IsSchedule(ek, key, keybits) && IsSchedule(ek', key, keybits) && i < 4 * (Rounds(keybits) + 1)
    ensures Column(ek[i]) == Column(ek'[i])
  {
    hide Column, AddCol, Temp;
    var nk := keybits / 32;
    if i >= nk {
      ScheduleWord(ek, ek', key, keybits, i - nk);
      ScheduleWord(ek, ek', key, keybits, i - 1);
      assert Follows(ek, nk, i) && Follows(ek', nk, i);
    }
  }

  /** The key determines the round keys. */
  lemma ScheduleUnique(ek: seq<bv32>, ek': seq<bv32>, key: seq<Octet>, keybits: nat)
    requires IsSchedule(ek, key, keybits) && IsSchedule(ek', key, keybits)
    ensures |ek| == |ek'| == BUFFER && RoundKeys(ek, Rounds(keybits)) == RoundKeys(ek', Rounds(keybits))
  {
    hide Column, Expanded;
    var nr := Rounds(keybits);
    forall i | 0 <= i <= nr ensures KeyAt(ek, 4 * i) == KeyAt(ek', 4 * i) {
      ScheduleWord(ek, ek', key, keybits, 4 * i);
      ScheduleWord(ek, ek', key, keybits, 4 * i + 1);
      ScheduleWord(ek, ek', key, keybits, 4 * i + 2);
      ScheduleWord(ek, ek', key, keybits, 4 * i + 3);
    }
  }

  /** AES under one key as the pair of functions that the modes of operation use. */
  ghost function CipherUnder(ek: seq<State>): BlockCipher
    requires |ek| >= 2
  {
    BlockCipher((b: Block) => Unload(Cipher(ek, Load(b))), (b: Block) => Unload(InvCipher(Reversed(ek), Load(b))))
  }

  /** Decryption inverts encryption and the converse, for every key schedule and block. */
  lemma AesIsPermutation(ek: seq<State>)
    requires |ek| >= 2
    ensures Permutation(CipherUnder(ek))
  {
    hide Cipher, InvCipher, Load, Unload, Reversed;
    var c := CipherUnder(ek);
    forall b: Block ensures c.decrypt(c.encrypt(b)) == b && c.encrypt(c.decrypt(b)) == b {
      DecryptEncrypt(ek, Load(b));
      EncryptDecrypt(ek, Load(b));
      LoadUnload(Cipher(ek, Load(b)), b);
      LoadUnload(InvCipher(Reversed(ek), Load(b)), b);
    }
  }

  /** Both schedules of a key, a block encrypted in place and decrypted in place; `middle` is what the
      buffer holds in between: the cipher of the standard under the key's expansion. */
  method RoundTrip(key: seq<Octet>, keybits: nat, buffer: array<Octet>) returns (ret: int, middle: seq<Octet>, ghost ek: seq<bv32>)
    requires 8 * |key| >= keybits && buffer.Length == 16
    modifies buffer
    ensures ret == if Rounds(keybits) > 0 then 0 else ERR_INVALID_KEY_LENGTH
    ensures ret == 0 ==>
      IsSchedule(ek, key, keybits) && middle == Unload(Cipher(RoundKeys(ek, Rounds(keybits)), Load(old(buffer[..]))))
    ensures buffer[..] == old(buffer[..])
  {
    hide Good, IsSchedule, Cipher, InvCipher, Load, Unload, Reversed;
    var t := GenTables();
    var enc := new AesContext();
    var dec := new AesContext();
    middle, ek := [], [];
    ret := enc.SetKeyEnc(t, key, keybits);
    if ret != 0 {
      return;
    }
    ret, ek := dec.SetKeyDec(t, key, keybits);
    ScheduleUnique(enc.rk[..], ek, key, keybits);
    ghost var s := Load(buffer[..]);
    LoadUnload(Cipher(enc.Keys(), s), buffer[..]);
    DecryptEncrypt(enc.Keys(), s);
    enc.Encrypt(t, buffer, buffer);
    middle := buffer[..];
    dec.Decrypt(t, buffer, buffer);
  }

  lemma ExpandedNone(rk: seq<bv32>, nk: nat)
    requires 0 < nk <= |rk|
    ensures Expanded(rk, nk, nk * 1)
  {}

  lemma ExpandedLess(rk: seq<bv32>, nk: nat, m: nat, n: nat)
    requires nk > 0 && Expanded(rk, nk, m) && n <= m
    ensures Expanded(rk, nk, n)
  {}
}
