/** The cipher of FIPS 197 on states of four columns, and the equivalent inverse cipher. */
module AesCipher {
  import opened Octets
  import opened Gf256
  import opened AesRounds

  datatype State = State(c0: Col, c1: Col, c2: Col, c3: Col)

  ghost function SubCol(x: Col): Col {
    Col(Sub(x.a), Sub(x.b), Sub(x.c), Sub(x.d))
  }

  ghost function InvSubCol(x: Col): Col {
    Col(InvSub(x.a), InvSub(x.b), InvSub(x.c), InvSub(x.d))
  }

  ghost function SubBytes(s: State): State {
    State(SubCol(s.c0), SubCol(s.c1), SubCol(s.c2), SubCol(s.c3))
  }

  ghost function InvSubBytes(s: State): State {
    State(InvSubCol(s.c0), InvSubCol(s.c1), InvSubCol(s.c2), InvSubCol(s.c3))
  }

  /** Row r moves left, or back, by r places. */
  function ShiftRows(s: State): State {
    State(Col(s.c0.a, s.c1.b, s.c2.c, s.c3.d), Col(s.c1.a, s.c2.b, s.c3.c, s.c0.d),
          Col(s.c2.a, s.c3.b, s.c0.c, s.c1.d), Col(s.c3.a, s.c0.b, s.c1.c, s.c2.d))
  }

  function InvShiftRows(s: State): State {
    State(Col(s.c0.a, s.c3.b, s.c2.c, s.c1.d), Col(s.c1.a, s.c0.b, s.c3.c, s.c2.d),
          Col(s.c2.a, s.c1.b, s.c0.c, s.c3.d), Col(s.c3.a, s.c2.b, s.c1.c, s.c0.d))
  }

  function MixColumns(s: State): State {
    State(Mix(s.c0), Mix(s.c1), Mix(s.c2), Mix(s.c3))
  }

  function InvMixColumns(s: State): State {
    State(InvMix(s.c0), InvMix(s.c1), InvMix(s.c2), InvMix(s.c3))
  }

  function AddKey(s: State, k: State): State {
    State(AddCol(s.c0, k.c0), AddCol(s.c1, k.c1), AddCol(s.c2, k.c2), AddCol(s.c3, k.c3))
  }

  ghost function Confuse(s: State): State {
    ShiftRows(SubBytes(s))
  }

  ghost function Unconfuse(s: State): State {
    InvShiftRows(InvSubBytes(s))
  }

  lemma SubColRoundTrip(x: Col)
    ensures InvSubCol(SubCol(x)) == x && SubCol(InvSubCol(x)) == x
  {
    hide Sub, InvSub;
    SubRoundTrip(x.a);
    SubRoundTrip(x.b);
    SubRoundTrip(x.c);
    SubRoundTrip(x.d);
  }

  lemma ConfuseRoundTrip(s: State)
    ensures Unconfuse(Confuse(s)) == s && Confuse(Unconfuse(s)) == s
  {
    hide Sub, InvSub;
    SubColRoundTrip(s.c0);
    SubColRoundTrip(s.c1);
    SubColRoundTrip(s.c2);
    SubColRoundTrip(s.c3);
  }

  lemma MixRoundTrip4(s: State)
    ensures InvMixColumns(MixColumns(s)) == s && MixColumns(InvMixColumns(s)) == s
  {
    hide Mix, InvMix;
    MixRoundTrip(s.c0);
    MixRoundTrip(s.c1);
    MixRoundTrip(s.c2);
    MixRoundTrip(s.c3);
  }

  lemma MixAdd4(s: State, k: State)
    ensures MixColumns(AddKey(s, k)) == AddKey(MixColumns(s), MixColumns(k))
    ensures InvMixColumns(AddKey(s, k)) == AddKey(InvMixColumns(s), InvMixColumns(k))
  {
    hide Mix, InvMix, AddCol;
    MixAdd(s.c0, k.c0); MixAdd(s.c1, k.c1); MixAdd(s.c2, k.c2); MixAdd(s.c3, k.c3);
    InvMixAdd(s.c0, k.c0); InvMixAdd(s.c1, k.c1); InvMixAdd(s.c2, k.c2); InvMixAdd(s.c3, k.c3);
  }

  lemma AddTwice(a: Octet, k: Octet)
    ensures Add(Add(a, k), k) == a
  {}

  lemma AddColTwice(x: Col, k: Col)
    ensures AddCol(AddCol(x, k), k) == x
  {
    hide Add;
    AddTwice(x.a, k.a);
    AddTwice(x.b, k.b);
    AddTwice(x.c, k.c);
    AddTwice(x.d, k.d);
  }

  lemma AddKeyTwice(s: State, k: State)
    ensures AddKey(AddKey(s, k), k) == s
  {
    hide AddCol;
    AddColTwice(s.c0, k.c0);
    AddColTwice(s.c1, k.c1);
    AddColTwice(s.c2, k.c2);
    AddColTwice(s.c3, k.c3);
  }

  // ----- the two ciphers -----

  /** The state after the initial key addition and i rounds (section 5.1). */
  ghost function Forward(ek: seq<State>, i: nat, s: State): State
    requires i < |ek|
  {
    if i == 0 then AddKey(s, ek[0]) else AddKey(MixColumns(Confuse(Forward(ek, i - 1, s))), ek[i])
  }

  /** Encryption: the last round does not mix columns. */
  ghost function Cipher(ek: seq<State>, s: State): State
    requires |ek| >= 2
  {
    AddKey(Confuse(Forward(ek, |ek| - 2, s)), ek[|ek| - 1])
  }

  /** The equivalent inverse cipher (section 5.3.5): the same order of steps as encryption. */
  ghost function Backward(dk: seq<State>, i: nat, s: State): State
    requires i < |dk|
  {
    if i == 0 then AddKey(s, dk[0]) else AddKey(InvMixColumns(Unconfuse(Backward(dk, i - 1, s))), dk[i])
  }

  ghost function InvCipher(dk: seq<State>, s: State): State
    requires |dk| >= 2
  {
    AddKey(Unconfuse(Backward(dk, |dk| - 2, s)), dk[|dk| - 1])
  }

  /** Its key schedule: the round keys in reverse, the inner ones with InvMixColumns applied. */
  function Reversed(ek: seq<State>): (dk: seq<State>)
    requires |ek| >= 2
    ensures |dk| == |ek|
  {
    var nr := |ek| - 1;
    seq(nr + 1, i requires 0 <= i <= nr => if i == 0 || i == nr then ek[nr - i] else InvMixColumns(ek[nr - i]))
  }

  lemma {:induction false} BackwardMeetsForward(ek: seq<State>, i: nat, s: State)
    requires |ek| >= 2 && i <= |ek| - 2
    ensures Backward(Reversed(ek), i, Cipher(ek, s)) == Confuse(Forward(ek, |ek| - 2 - i, s))
  {
    hide AddKey, MixColumns, InvMixColumns, Confuse, Unconfuse;
    var nr := |ek| - 1;
    if i == 0 {
      AddKeyTwice(Confuse(Forward(ek, nr - 1, s)), ek[nr]);
    } else {
      BackwardMeetsForward(ek, i - 1, s);
      var j := nr - i;
      var e := Forward(ek, j, s);
      var m := MixColumns(Confuse(Forward(ek, j - 1, s)));
      assert e == AddKey(m, ek[j]);
      ConfuseRoundTrip(e);
      MixAdd4(e, ek[j]);
      AddKeyTwice(m, ek[j]);
      MixRoundTrip4(Confuse(Forward(ek, j - 1, s)));
    }
  }

  /** Decryption undoes encryption, whatever the round keys. */
  lemma DecryptEncrypt(ek: seq<State>, s: State)
    requires |ek| >= 2
    ensures InvCipher(Reversed(ek), Cipher(ek, s)) == s
  {
    hide AddKey, Confuse, Unconfuse;
    var nr := |ek| - 1;
    BackwardMeetsForward(ek, nr - 1, s);
    ConfuseRoundTrip(Forward(ek, 0, s));
    AddKeyTwice(s, ek[0]);
  }

  lemma {:induction false} ForwardMeetsBackward(ek: seq<State>, j: nat, c: State)
    requires |ek| >= 2 && j <= |ek| - 2
    ensures Forward(ek, j, InvCipher(Reversed(ek), c)) == Unconfuse(Backward(Reversed(ek), |ek| - 2 - j, c))
  {
    hide AddKey, MixColumns, InvMixColumns, Confuse, Unconfuse;
    var nr, dk := |ek| - 1, Reversed(ek);
    if j == 0 {
      AddKeyTwice(Unconfuse(Backward(dk, nr - 1, c)), ek[0]);
    } else {
      ForwardMeetsBackward(ek, j - 1, c);
      var i := nr - j;
      var d := Backward(dk, i, c);
      ConfuseRoundTrip(d);
      var u := Unconfuse(Backward(dk, i - 1, c));
      assert d == AddKey(InvMixColumns(u), InvMixColumns(ek[j]));
      MixAdd4(u, ek[j]);
      MixRoundTrip4(AddKey(u, ek[j]));
      AddKeyTwice(u, ek[j]);
    }
  }

  /** Encryption undoes decryption. */
  lemma EncryptDecrypt(ek: seq<State>, c: State)
    requires |ek| >= 2
    ensures Cipher(ek, InvCipher(Reversed(ek), c)) == c
  {
    hide AddKey, Confuse, Unconfuse;
    var nr, dk := |ek| - 1, Reversed(ek);
    ForwardMeetsBackward(ek, nr - 1, c);
    ConfuseRoundTrip(Backward(dk, 0, c));
    AddKeyTwice(c, ek[nr]);
  }
}
