/** The block paddings of cipher.c: filling the last block, and the scans that recover the length
    of the data without branching on it. */
module BlockPadding {
  import opened Octets

  datatype Padding = Pkcs7 | OneAndZeros | ZerosAndLen | Zeros | NoPadding
  datatype Option = None | Some(value: nat)

  const ERR_INVALID_PADDING := -0x6200
  const SIZE_MODULUS := 0x1_0000_0000_0000_0000

  function Fill(b: Octet, n: nat): (r: seq<Octet>)
    ensures |r| == n
  {
    seq(n, _ => b)
  }

  /** The conversion to an octet of a number below 256. */
  function Narrow(n: nat): Octet {
    if n == 0 then 0 else Narrow(n - 1) + 1
  }

  function Wide(b: Octet): nat {
    b as nat
  }

  lemma {:induction false} WideNarrow(n: nat)
    requires n < 256
    ensures Wide(Narrow(n)) == n
  {
    if n > 0 {
      WideNarrow(n - 1);
      WideNext(Narrow(n - 1));
    }
  }

  lemma WideNext(b: Octet)
    requires Wide(b) < 255
    ensures Wide(b + 1) == Wide(b) + 1
  {}

  lemma WideInjective(a: Octet, b: Octet)
    requires Wide(a) == Wide(b)
    ensures a == b
  {}

  lemma WideBound(b: Octet)
    ensures Wide(b) < 256
  {}

  /** The n octets that complete a block. */
  function Pad(p: Padding, n: nat): (r: seq<Octet>)
    requires 0 < n <= 16
    ensures |r| == n
  {
    match p
    case Pkcs7 => Fill(Narrow(n), n)
    case OneAndZeros => [0x80] + Fill(0, n - 1)
    case ZerosAndLen => Fill(0, n - 1) + [Narrow(n)]
    case _ => Fill(0, n)
  }

  /** Three octets of each padding. */
  lemma PadExamples()
    ensures Pad(Pkcs7, 3) == [0x03, 0x03, 0x03] && Pad(OneAndZeros, 3) == [0x80, 0x00, 0x00]
    ensures Pad(ZerosAndLen, 3) == [0x00, 0x00, 0x03] && Pad(Zeros, 3) == [0x00, 0x00, 0x00]
  {
    assert Narrow(1) == 1 && Narrow(2) == 2 && Narrow(3) == 3;
  }

  /** The length of s without its trailing zeros. */
  function Significant(s: seq<Octet>): (r: nat)
    ensures r <= |s|
    ensures r > 0 ==> s[r - 1] != 0
    ensures forall i :: r <= i < |s| ==> s[i] == 0
  {
    if s == [] then 0 else if s[|s| - 1] != 0 then |s| else Significant(s[..|s| - 1])
  }

  /** The length of the data a block holds, if its padding is well formed. */
  function Unpad(p: Padding, b: Block): (r: Option)
    ensures r.Some? ==> r.value <= 16
  {
    var n, j := Wide(b[15]), Significant(b);
    match p
    case Pkcs7 => if 0 < n <= 16 && forall i :: 16 - n <= i < 16 ==> b[i] == b[15] then Some(16 - n) else None
    case ZerosAndLen => if 0 < n <= 16 && forall i :: 16 - n <= i < 15 ==> b[i] == 0 then Some(16 - n) else None
    case OneAndZeros => if j > 0 && b[j - 1] == 0x80 then Some(j - 1) else None
    case Zeros => Some(j)
    case NoPadding => Some(16)
  }

  /** What the data must look like for the padding to be recognisable: plain zeros cannot be told
      from data that ends in zeros. */
  predicate Recoverable(p: Padding, data: seq<Octet>) {
    p == Zeros && data != [] ==> data[|data| - 1] != 0
  }

  lemma SignificantIs(s: seq<Octet>, n: nat)
    requires n <= |s| && (n > 0 ==> s[n - 1] != 0) && forall i :: n <= i < |s| ==> s[i] == 0
    ensures Significant(s) == n
  {
  }

  lemma UnpadCounted(p: Padding, data: seq<Octet>)
    requires |data| < 16 && (p == Pkcs7 || p == ZerosAndLen)
    ensures Unpad(p, Joined(data, Pad(p, 16 - |data|))) == Some(|data|)
  {
    hide Narrow, Wide, Significant;
    var n := 16 - |data|;
    WideNarrow(n);
    var b := Joined(data, Pad(p, n));
    assert forall i :: |data| <= i < 16 ==> b[i] == Pad(p, n)[i - |data|];
  }

  lemma UnpadScanned(p: Padding, data: seq<Octet>)
    requires |data| < 16 && (p == OneAndZeros || p == Zeros)
    ensures Unpad(p, Joined(data, Pad(p, 16 - |data|))) == Some(|data|) <==> Recoverable(p, data)
  {
    hide Narrow, Wide;
    var b := Joined(data, Pad(p, 16 - |data|));
    assert forall i :: |data| <= i < 16 ==> b[i] == Pad(p, 16 - |data|)[i - |data|];
    if p == OneAndZeros {
      SignificantIs(b, |data| + 1);
    } else if Recoverable(p, data) {
      SignificantIs(b, |data|);
    }
  }

  /** Reading the padding gives back the length of the data, exactly for recoverable data. */
  lemma UnpadPad(p: Padding, data: seq<Octet>)
    requires |data| < 16 && p != NoPadding
    ensures Unpad(p, Joined(data, Pad(p, 16 - |data|))) == Some(|data|) <==> Recoverable(p, data)
  {
    if p == OneAndZeros || p == Zeros {
      UnpadScanned(p, data);
    } else {
      UnpadCounted(p, data);
    }
  }

  lemma NarrowWide(b: Octet)
    ensures Wide(b) < 256 && Narrow(Wide(b)) == b
  {
    WideBound(b);
    WideNarrow(Wide(b));
    WideInjective(Narrow(Wide(b)), b);
  }

  /** Only well-formed blocks are accepted: the block is the data followed by its padding. */
  lemma UnpadSound(p: Padding, b: Block)
    requires Unpad(p, b).Some?
    ensures var n := Unpad(p, b).value; n < 16 ==> b == b[..n] + Pad(p, 16 - n)
  {
    hide Narrow, Wide;
    NarrowWide(b[15]);
    var n := Unpad(p, b).value;
    if n < 16 {
      var w := Pad(p, 16 - n);
      forall i | n <= i < 16 ensures b[i] == w[i - n] {}
    }
  }

  // ----- the procedures -----

  method FillInto(output: array<Octet>, from: nat, to: nat, b: Octet)
    requires from <= to <= output.Length
    modifies output
    ensures output[..] == old(output[..from]) + Fill(b, to - from) + old(output[to..])
  {
    for i := from to to
      invariant forall k :: from <= k < i ==> output[k] == b
      invariant forall k :: 0 <= k < from || i <= k < output.Length ==> output[k] == old(output[k])
    {
      output[i] := b;
    }
  }

  /** add_pkcs_padding, add_one_and_zeros_padding, add_zeros_and_len_padding, add_zeros_padding. */
  method AddPadding(p: Padding, output: array<Octet>, dataLen: nat)
    requires output.Length == 16 && dataLen < 16 && p != NoPadding
    modifies output
    ensures output[..] == old(output[..dataLen]) + Pad(p, 16 - dataLen)
  {
    hide Narrow;
    var paddingLen := 16 - dataLen;
    match p
    case Pkcs7 =>
      FillInto(output, dataLen, 16, Narrow(paddingLen));
    case OneAndZeros =>
      output[dataLen] := 0x80;
      FillInto(output, dataLen + 1, 16, 0x00);
    case ZerosAndLen =>
      FillInto(output, dataLen, 15, 0x00);
      output[15] := Narrow(paddingLen);
    case Zeros =>
      FillInto(output, dataLen, 16, 0x00);
  }

  lemma OrZero(a: Octet, b: Octet)
    ensures a | b == 0 <==> a == 0 && b == 0
  {}

  function Flip(a: Octet, b: Octet): Octet {
    a ^ b
  }

  lemma FlipZero(a: Octet, b: Octet)
    ensures (Flip(a, b) == 0 <==> a == b) && Flip(a, 0) == a
  {}

  /** bad |= v */
  method Accumulate(bad: Octet, v: Octet) returns (r: Octet)
    ensures r == 0 <==> bad == 0 && v == 0
  {
    OrZero(bad, v);
    r := bad | v;
  }

  /** get_pkcs_padding and get_zeros_and_len_padding, which differ in what the padding must hold. */
  method GetCounted(p: Padding, input: array<Octet>) returns (ret: int, dataLen: nat)
    requires input.Length >= 16 && (p == Pkcs7 || p == ZerosAndLen)
    ensures ret == if Unpad(p, input[..16]).Some? then 0 else ERR_INVALID_PADDING
    ensures ret == 0 ==> Some(dataLen) == Unpad(p, input[..16])
  {
    hide Wide, Flip, Unpad, Significant;
    var paddingLen := input[15];
    var n := Wide(paddingLen);
    dataLen := (16 - n) % SIZE_MODULUS;
    var bad := Accumulate(0, if n > 16 then 1 else 0);
    bad := Accumulate(bad, if n == 0 then 1 else 0);
    NarrowWide(paddingLen);
    ghost var counted := bad == 0;
    var padIdx := dataLen;
    for i := 0 to if p == Pkcs7 then 16 else 15
      invariant bad == 0 <==> counted && forall k :: padIdx <= k < i ==> input[k] == if p == Pkcs7 then paddingLen else 0
    {
      FlipZero(input[i], paddingLen);
      var v := if p == Pkcs7 then Flip(input[i], paddingLen) else input[i];
      bad := Accumulate(bad, if i >= padIdx then v else 0);
    }
    ret := if bad != 0 then ERR_INVALID_PADDING else 0;
    CountedIs(p, input[..16], dataLen);
  }

  /** What the two readings accept. */
  lemma CountedIs(p: Padding, b: Block, dataLen: nat)
    requires (p == Pkcs7 || p == ZerosAndLen) && dataLen == (16 - Wide(b[15])) % SIZE_MODULUS
    ensures var n := Wide(b[15]);
            var good := 0 < n <= 16 && forall k :: dataLen <= k < (if p == Pkcs7 then 16 else 15) ==> b[k] == if p == Pkcs7 then b[15] else 0;
            Unpad(p, b) == if good then Some(dataLen) else None
  {
    hide Wide, Significant;
  }

  /** get_one_and_zeros_padding. */
  method GetOneAndZeros(input: array<Octet>) returns (ret: int, dataLen: nat)
    requires input.Length >= 16
    ensures ret == if Unpad(OneAndZeros, input[..16]).Some? then 0 else ERR_INVALID_PADDING
    ensures ret == 0 ==> Some(dataLen) == Unpad(OneAndZeros, input[..16])
  {
    hide Flip;
    var done, bad: Octet := false, 0x80;
    dataLen := 0;
    var i := 16;
    while i > 0
      invariant 0 <= i <= 16
      invariant !done ==> bad == 0x80 && dataLen == 0 && Significant(input[..16]) == Significant(input[..i])
      invariant done ==> Significant(input[..16]) == dataLen + 1 && bad == Flip(0x80, input[dataLen])
    {
      var prevDone := done;
      done := done || input[i - 1] != 0;
      dataLen := if done != prevDone then i - 1 else dataLen;
      FlipZero(bad, 0);
      bad := Flip(bad, if done != prevDone then input[i - 1] else 0);
      assert input[..i][..i - 1] == input[..i - 1];
      i := i - 1;
    }
    FlipZero(0x80, input[dataLen]);
    ret := if bad != 0 then ERR_INVALID_PADDING else 0;
  }

  /** get_zeros_padding. */
  method GetZeros(input: array<Octet>) returns (dataLen: nat)
    requires input.Length >= 16
    ensures Some(dataLen) == Unpad(Zeros, input[..16])
  {
    var done := false;
    dataLen := 0;
    var i := 16;
    while i > 0
      invariant 0 <= i <= 16
      invariant !done ==> dataLen == 0 && Significant(input[..16]) == Significant(input[..i])
      invariant done ==> Significant(input[..16]) == dataLen
    {
      var prevDone := done;
      done := done || input[i - 1] != 0;
      dataLen := if done != prevDone then i else dataLen;
      assert input[..i][..i - 1] == input[..i - 1];
      i := i - 1;
    }
  }

  /** ctx->get_padding. */
  method GetPadding(p: Padding, input: array<Octet>) returns (ret: int, dataLen: nat)
    requires input.Length >= 16
    ensures ret == if Unpad(p, input[..16]).Some? then 0 else ERR_INVALID_PADDING
    ensures ret == 0 ==> Some(dataLen) == Unpad(p, input[..16])
  {
    match p
    case OneAndZeros => ret, dataLen := GetOneAndZeros(input);
    case Zeros => dataLen := GetZeros(input); ret := 0;
    case NoPadding => return 0, 16;
    case _ => ret, dataLen := GetCounted(p, input);
  }
}
