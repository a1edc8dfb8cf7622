/** The table of small primes, and that it is complete. */
module PrimeTable {
  import opened Divisibility

  const ROW_0: seq<int> := [3, 5, 7, 11, 13, 17, 19, 23, 29, 31]
  const ROW_1: seq<int> := [37, 41, 43, 47, 53, 59, 61, 67, 71, 73, 79, 83, 89, 97, 101, 103]
  const ROW_2: seq<int> := [107, 109, 113, 127, 131, 137, 139, 149, 151, 157, 163, 167, 173, 179, 181, 191]
  const ROW_3: seq<int> := [193, 197, 199, 211, 223, 227, 229, 233, 239, 241, 251, 257, 263, 269, 271, 277]
  const ROW_4: seq<int> := [281, 283, 293, 307, 311, 313, 317, 331, 337, 347, 349, 353, 359, 367, 373, 379]
  const ROW_5: seq<int> := [383, 389, 397, 401, 409, 419, 421, 431, 433, 439, 443, 449, 457, 461, 463, 467]
  const ROW_6: seq<int> := [479, 487, 491, 499, 503, 509, 521, 523, 541, 547, 557, 563, 569, 571, 577, 587]
  const ROW_7: seq<int> := [593, 599, 601, 607, 613, 617, 619, 631, 641, 643, 647, 653, 659, 661, 673, 677]
  const ROW_8: seq<int> := [683, 691, 701, 709, 719, 727, 733, 739, 743, 751, 757, 761, 769, 773, 787, 797]
  const ROW_9: seq<int> := [809, 811, 821, 823, 827, 829, 839, 853, 857, 859, 863, 877, 881, 883, 887, 907]
  const ROW_10: seq<int> := [911, 919, 929, 937, 941, 947, 953, 967, 971, 977, 983, 991, 997]

  /** The table in rows, ended by its sentinel. */
  const SMALL_PRIMES: seq<int> := ROW_0 + ROW_1 + ROW_2 + ROW_3 + ROW_4 + ROW_5
    + ROW_6 + ROW_7 + ROW_8 + ROW_9 + ROW_10 + [-103]

  predicate InRange(s: seq<int>) {
    forall i :: 0 <= i < |s| ==> 3 <= s[i] <= 997
  }

  lemma InRangeConcat(a: seq<int>, b: seq<int>)
    requires InRange(a) && InRange(b)
    ensures InRange(a + b)
  {
  }

  lemma LowRowsInRange()
    ensures InRange(ROW_0)
    ensures InRange(ROW_1)
    ensures InRange(ROW_2)
    ensures InRange(ROW_3)
    ensures InRange(ROW_4)
    ensures InRange(ROW_5)
  {
  }

  lemma HighRowsInRange()
    ensures InRange(ROW_6)
    ensures InRange(ROW_7)
    ensures InRange(ROW_8)
    ensures InRange(ROW_9)
    ensures InRange(ROW_10)
  {
  }

  lemma RowLengths()
    ensures |ROW_0| == 10 && |ROW_10| == 13 && ROW_10[12] == 997
    ensures |ROW_1| == |ROW_2| == |ROW_3| == |ROW_4| == |ROW_5| == 16
    ensures |ROW_6| == |ROW_7| == |ROW_8| == |ROW_9| == 16
  {
  }

  lemma TableFacts()
    ensures |SMALL_PRIMES| == 168 && SMALL_PRIMES[167] == -103 && SMALL_PRIMES[166] == 997
    ensures forall i :: 0 <= i < 167 ==> 3 <= SMALL_PRIMES[i] <= 997
    ensures SMALL_PRIMES[..10] == ROW_0
  {
    hide ROW_0, ROW_1, ROW_2, ROW_3, ROW_4, ROW_5, ROW_6, ROW_7, ROW_8, ROW_9, ROW_10, InRange;
    LowRowsInRange();
    HighRowsInRange();
    RowLengths();
    InRangeConcat(ROW_0, ROW_1);
    var t1 := ROW_0 + ROW_1;
    InRangeConcat(t1, ROW_2);
    var t2 := t1 + ROW_2;
    InRangeConcat(t2, ROW_3);
    var t3 := t2 + ROW_3;
    InRangeConcat(t3, ROW_4);
    var t4 := t3 + ROW_4;
    InRangeConcat(t4, ROW_5);
    var t5 := t4 + ROW_5;
    InRangeConcat(t5, ROW_6);
    var t6 := t5 + ROW_6;
    InRangeConcat(t6, ROW_7);
    var t7 := t6 + ROW_7;
    InRangeConcat(t7, ROW_8);
    var t8 := t7 + ROW_8;
    InRangeConcat(t8, ROW_9);
    var t9 := t8 + ROW_9;
    InRangeConcat(t9, ROW_10);
    var t10 := t9 + ROW_10;
    TableEnds(t10);
  }

  lemma TableEnds(body: seq<int>)
    requires InRange(body) && |body| == 167
    ensures forall i :: 0 <= i < 167 ==> 3 <= (body + [-103])[i] <= 997
  {
  }

  /** Entries before i are smaller than x and do not divide it. */
  ghost predicate NoFactor(x: int, i: nat) {
    i <= |SMALL_PRIMES|
    && forall k :: 0 <= k < i ==> 0 < SMALL_PRIMES[k] < x && !Divides(SMALL_PRIMES[k], x)
  }

  lemma FactorFound(x: int, i: nat)
    requires i < 167 <= |SMALL_PRIMES| && SMALL_PRIMES[i] > 0 && x % SMALL_PRIMES[i] == 0
    ensures !NoFactor(x, 167)
  {
    hide SMALL_PRIMES;
    assert x == x / SMALL_PRIMES[i] * SMALL_PRIMES[i];
  }

  lemma NoFactorStart(x: int)
    ensures NoFactor(x, 0)
  {
  }

  lemma NoFactorNext(x: int, i: nat)
    requires i < |SMALL_PRIMES| && NoFactor(x, i) && 0 < SMALL_PRIMES[i] < x && x % SMALL_PRIMES[i] != 0
    ensures NoFactor(x, i + 1)
  {
    hide SMALL_PRIMES;
  }

  lemma NoFactorLast(x: int)
    requires |SMALL_PRIMES| == 168 && SMALL_PRIMES[166] == 997 && NoFactor(x, 167)
    ensures x > 997
  {
    hide SMALL_PRIMES;
  }

  lemma DividesTrans(a: int, b: int, c: int)
    requires a > 0 && b > 0 && Divides(a, b) && Divides(b, c)
    ensures Divides(a, c)
  {
    var k := DividesElim(b, c);
    DividesMul(a, b, k);
  }

  // ----- the table holds every prime up to 997 -----

  /** A divisor among the first ten entries. */
  predicate Sieved(d: int) {
    d % 3 == 0 || d % 5 == 0 || d % 7 == 0 || d % 11 == 0 || d % 13 == 0 || d % 17 == 0 || d % 19 == 0 || d % 23 == 0
    || d % 29 == 0 || d % 31 == 0
  }

  /** Every second number strictly between a and b has one. */
  predicate Gap(a: int, b: int)
    decreases b - a
  {
    a + 2 >= b || (Sieved(a + 2) && Gap(a + 2, b))
  }

  lemma {:induction false} GapMeans(a: int, b: int, d: int)
    requires Gap(a, b) && a < d < b && d % 2 == a % 2
    ensures Sieved(d)
    decreases b - a
  {
    if d != a + 2 { GapMeans(a + 2, b, d); }
  }

  predicate Step(a: int, b: int) {
    a % 2 == 1 && a < b && Gap(a, b)
  }

  predicate Gaps(s: seq<int>) {
    forall i :: 0 <= i < |s| - 1 ==> Step(s[i], s[i + 1])
  }

  lemma Steps0()
    ensures Step(3, 5) && Step(5, 7) && Step(7, 11) && Step(11, 13)
    ensures Step(13, 17) && Step(17, 19) && Step(19, 23) && Step(23, 29)
    ensures Step(29, 31)
  {}

  lemma Gaps0()
    ensures Gaps(ROW_0)
  {
    hide Gap;
    Steps0();
  }

  lemma Steps1()
    ensures Step(37, 41) && Step(41, 43) && Step(43, 47) && Step(47, 53)
    ensures Step(53, 59) && Step(59, 61) && Step(61, 67) && Step(67, 71)
    ensures Step(71, 73) && Step(73, 79) && Step(79, 83) && Step(83, 89)
    ensures Step(89, 97) && Step(97, 101) && Step(101, 103)
  {}

  lemma Gaps1()
    ensures Gaps(ROW_1)
  {
    hide Gap;
    Steps1();
  }

  lemma Steps2()
    ensures Step(107, 109) && Step(109, 113) && Step(113, 127) && Step(127, 131)
    ensures Step(131, 137) && Step(137, 139) && Step(139, 149) && Step(149, 151)
    ensures Step(151, 157) && Step(157, 163) && Step(163, 167) && Step(167, 173)
    ensures Step(173, 179) && Step(179, 181) && Step(181, 191)
  {}

  lemma Gaps2()
    ensures Gaps(ROW_2)
  {
    hide Gap;
    Steps2();
  }

  lemma Steps3()
    ensures Step(193, 197) && Step(197, 199) && Step(199, 211) && Step(211, 223)
    ensures Step(223, 227) && Step(227, 229) && Step(229, 233) && Step(233, 239)
    ensures Step(239, 241) && Step(241, 251) && Step(251, 257) && Step(257, 263)
    ensures Step(263, 269) && Step(269, 271) && Step(271, 277)
  {}

  lemma Gaps3()
    ensures Gaps(ROW_3)
  {
    hide Gap;
    Steps3();
  }

  lemma Steps4()
    ensures Step(281, 283) && Step(283, 293) && Step(293, 307) && Step(307, 311)
    ensures Step(311, 313) && Step(313, 317) && Step(317, 331) && Step(331, 337)
    ensures Step(337, 347) && Step(347, 349) && Step(349, 353) && Step(353, 359)
    ensures Step(359, 367) && Step(367, 373) && Step(373, 379)
  {}

  lemma Gaps4()
    ensures Gaps(ROW_4)
  {
    hide Gap;
    Steps4();
  }

  lemma Steps5()
    ensures Step(383, 389) && Step(389, 397) && Step(397, 401) && Step(401, 409)
    ensures Step(409, 419) && Step(419, 421) && Step(421, 431) && Step(431, 433)
    ensures Step(433, 439) && Step(439, 443) && Step(443, 449) && Step(449, 457)
    ensures Step(457, 461) && Step(461, 463) && Step(463, 467)
  {}

  lemma Gaps5()
    ensures Gaps(ROW_5)
  {
    hide Gap;
    Steps5();
  }

  lemma Steps6()
    ensures Step(479, 487) && Step(487, 491) && Step(491, 499) && Step(499, 503)
    ensures Step(503, 509) && Step(509, 521) && Step(521, 523) && Step(523, 541)
    ensures Step(541, 547) && Step(547, 557) && Step(557, 563) && Step(563, 569)
    ensures Step(569, 571) && Step(571, 577) && Step(577, 587)
  {}

  lemma Gaps6()
    ensures Gaps(ROW_6)
  {
    hide Gap;
    Steps6();
  }

  lemma Steps7()
    ensures Step(593, 599) && Step(599, 601) && Step(601, 607) && Step(607, 613)
    ensures Step(613, 617) && Step(617, 619) && Step(619, 631) && Step(631, 641)
    ensures Step(641, 643) && Step(643, 647) && Step(647, 653) && Step(653, 659)
    ensures Step(659, 661) && Step(661, 673) && Step(673, 677)
  {}

  lemma Gaps7()
    ensures Gaps(ROW_7)
  {
    hide Gap;
    Steps7();
  }

  lemma Steps8()
    ensures Step(683, 691) && Step(691, 701) && Step(701, 709) && Step(709, 719)
    ensures Step(719, 727) && Step(727, 733) && Step(733, 739) && Step(739, 743)
    ensures Step(743, 751) && Step(751, 757) && Step(757, 761) && Step(761, 769)
    ensures Step(769, 773) && Step(773, 787) && Step(787, 797)
  {}

  lemma Gaps8()
    ensures Gaps(ROW_8)
  {
    hide Gap;
    Steps8();
  }

  lemma Steps9()
    ensures Step(809, 811) && Step(811, 821) && Step(821, 823) && Step(823, 827)
    ensures Step(827, 829) && Step(829, 839) && Step(839, 853) && Step(853, 857)
    ensures Step(857, 859) && Step(859, 863) && Step(863, 877) && Step(877, 881)
    ensures Step(881, 883) && Step(883, 887) && Step(887, 907)
  {}

  lemma Gaps9()
    ensures Gaps(ROW_9)
  {
    hide Gap;
    Steps9();
  }

  lemma Steps10()
    ensures Step(911, 919) && Step(919, 929) && Step(929, 937) && Step(937, 941)
    ensures Step(941, 947) && Step(947, 953) && Step(953, 967) && Step(967, 971)
    ensures Step(971, 977) && Step(977, 983) && Step(983, 991) && Step(991, 997)
  {}

  lemma Gaps10()
    ensures Gaps(ROW_10)
  {
    hide Step;
    Steps10();
  }

  lemma GapsConcat(a: seq<int>, b: seq<int>)
    requires a != [] && b != [] && Gaps(a) && Gaps(b) && Step(a[|a| - 1], b[0])
    ensures Gaps(a + b)
  {
    hide Step;
  }

  lemma Joints()
    ensures Step(31, 37) && Step(103, 107) && Step(191, 193) && Step(277, 281) && Step(379, 383)
    ensures Step(467, 479) && Step(587, 593) && Step(677, 683) && Step(797, 809) && Step(907, 911)
  {}

  lemma RowEnds()
    ensures ROW_0[0] == 3 && ROW_0[|ROW_0| - 1] == 31 && ROW_1[0] == 37 && ROW_1[|ROW_1| - 1] == 103
    ensures ROW_2[0] == 107 && ROW_2[|ROW_2| - 1] == 191 && ROW_3[0] == 193 && ROW_3[|ROW_3| - 1] == 277
    ensures ROW_4[0] == 281 && ROW_4[|ROW_4| - 1] == 379 && ROW_5[0] == 383 && ROW_5[|ROW_5| - 1] == 467
    ensures ROW_6[0] == 479 && ROW_6[|ROW_6| - 1] == 587 && ROW_7[0] == 593 && ROW_7[|ROW_7| - 1] == 677
    ensures ROW_8[0] == 683 && ROW_8[|ROW_8| - 1] == 797 && ROW_9[0] == 809 && ROW_9[|ROW_9| - 1] == 907
    ensures ROW_10[0] == 911 && ROW_10[|ROW_10| - 1] == 997
  {}

  /** The rows one after the other, without the sentinel. */
  function Body(): seq<int> {
    ROW_0 + ROW_1 + ROW_2 + ROW_3 + ROW_4 + ROW_5 + ROW_6 + ROW_7 + ROW_8 + ROW_9 + ROW_10
  }

  lemma BodyGaps()
    ensures Gaps(Body()) && Body() != [] && Body()[0] == 3 && Body()[|Body()| - 1] == 997
  {
    hide ROW_0, ROW_1, ROW_2, ROW_3, ROW_4, ROW_5, ROW_6, ROW_7, ROW_8, ROW_9, ROW_10, Step, Gaps;
    RowLengths();
    RowEnds();
    Joints();
    Gaps0(); Gaps1(); Gaps2(); Gaps3(); Gaps4(); Gaps5(); Gaps6(); Gaps7(); Gaps8(); Gaps9(); Gaps10();
    var t1 := ROW_0 + ROW_1;
    GapsConcat(ROW_0, ROW_1);
    var t2 := t1 + ROW_2;
    GapsConcat(t1, ROW_2);
    var t3 := t2 + ROW_3;
    GapsConcat(t2, ROW_3);
    var t4 := t3 + ROW_4;
    GapsConcat(t3, ROW_4);
    var t5 := t4 + ROW_5;
    GapsConcat(t4, ROW_5);
    var t6 := t5 + ROW_6;
    GapsConcat(t5, ROW_6);
    var t7 := t6 + ROW_7;
    GapsConcat(t6, ROW_7);
    var t8 := t7 + ROW_8;
    GapsConcat(t7, ROW_8);
    var t9 := t8 + ROW_9;
    GapsConcat(t8, ROW_9);
    GapsConcat(t9, ROW_10);
  }

  /** An odd number from the first entry to the last is an entry or divisible by one of the first ten. */
  lemma {:induction false} EntryOrSieved(s: seq<int>, d: int)
    requires s != [] && Gaps(s) && s[0] <= d <= s[|s| - 1] && d % 2 == 1 && s[|s| - 1] % 2 == 1
    ensures d in s || Sieved(d)
  {
    if d != s[0] {
      assert Step(s[0], s[1]);
      if d < s[1] {
        GapMeans(s[0], s[1], d);
      } else {
        var t := s[1..];
        assert Gaps(t) by { hide Step; }
        EntryOrSieved(t, d);
      }
    }
  }

  /** No divisor up to 997. */
  ghost predicate NoSmallDivisor(x: int) {
    forall d: int :: 1 < d <= 997 ==> !Divides(d, x)
  }

  /** Free of the table's primes and of 2 is free of every divisor up to 997. */
  lemma TableComplete(x: int)
    requires x > 997
    ensures x % 2 == 1 && NoFactor(x, 167) <==> NoSmallDivisor(x)
  {
    hide SMALL_PRIMES;
    TableFacts();
    if NoSmallDivisor(x) {
      assert !Divides(2, x);
    }
    if x % 2 == 1 && NoFactor(x, 167) {
      forall d: int | 1 < d <= 997 ensures !Divides(d, x) {
        if Divides(d, x) { DivisorInTable(x, d); }
      }
    }
  }

  lemma DivisorInTable(x: int, d: int)
    requires x % 2 == 1 && 1 < d <= 997 && Divides(d, x)
    ensures !NoFactor(x, 167)
  {
    hide SMALL_PRIMES, Body, NoFactor;
    DividesOdd(d, x);
    BodyGaps();
    EntryOrSieved(Body(), d);
    if d in Body() {
      var k :| 0 <= k < |Body()| && Body()[k] == d;
      EntryOf(k);
      FactorFound(x, k);
    } else {
      var m := SievedBy(d);
      FirstEntries(m);
      EntryOf(m);
      DividesTrans(Body()[m], d, x);
      FactorFound(x, m);
    }
  }

  lemma EntryOf(k: nat)
    requires k < |Body()|
    ensures |Body()| == 167 && |SMALL_PRIMES| == 168 && SMALL_PRIMES[k] == Body()[k] > 0
  {
    hide ROW_0, ROW_1, ROW_2, ROW_3, ROW_4, ROW_5, ROW_6, ROW_7, ROW_8, ROW_9, ROW_10;
    RowLengths();
    TableFacts();
    assert SMALL_PRIMES == Body() + [-103];
  }

  lemma SievedBy(d: int) returns (m: nat)
    requires Sieved(d)
    ensures m < 10 && ROW_0[m] > 0 && Divides(ROW_0[m], d)
  {
    m := if d % 3 == 0 then 0 else if d % 5 == 0 then 1 else if d % 7 == 0 then 2 else if d % 11 == 0 then 3
         else if d % 13 == 0 then 4 else if d % 17 == 0 then 5 else if d % 19 == 0 then 6 else if d % 23 == 0 then 7
         else if d % 29 == 0 then 8 else 9;
  }

  lemma FirstEntries(m: nat)
    requires m < 10
    ensures |ROW_0| == 10 && m < |Body()| && Body()[m] == ROW_0[m]
  {
    hide ROW_0, ROW_1, ROW_2, ROW_3, ROW_4, ROW_5, ROW_6, ROW_7, ROW_8, ROW_9, ROW_10;
    RowLengths();
  }
}
