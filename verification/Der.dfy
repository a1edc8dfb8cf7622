/** DER integers and lengths (sections 8.1.3 and 8.3 of X.690): written backwards from the end of
    a buffer, read forwards. */
module Der {
  import opened Arith
  import opened Limbs
  import opened MpiCore
  import opened ByteStrings
  import opened MpiBinary

  const ERR_OUT_OF_DATA := -0x0060
  const ERR_UNEXPECTED_TAG := -0x0062
  const ERR_INVALID_LENGTH := -0x0064
  const ERR_BUF_TOO_SMALL := -0x006C

  const INTEGER: Byte := 0x02
  const SEQUENCE: Byte := 0x30

  // ----- lengths -----

  /** How many octets a long-form length takes; 0 stands for the short form. */
  function LengthSize(n: nat): nat {
    if n < 0x80 then 0 else if n <= 0xFF then 1 else if n <= 0xFFFF then 2 else if n <= 0xFFFFFF then 3 else 4
  }

  function LengthOctets(n: nat): (r: seq<Byte>)
    requires n <= 0xFFFFFFFF
    ensures |r| == LengthSize(n) + 1
  {
    var k := LengthSize(n);
    if k == 0 then [n] else [0x80 + k] + ToBytes(n, k)
  }

  /** What a reader makes of the octets at its position: a length, and how many octets it took to
      say so, or an error. */
  datatype Parsed = Fail(code: int) | Length(len: nat, used: nat)

  function ReadLength(s: seq<Byte>): (r: Parsed)
    ensures r.Length? ==> r.used + r.len <= |s|
  {
    if s == [] then Fail(ERR_OUT_OF_DATA)
    else if s[0] < 0x80 then Within(s, s[0], 1)
    else
      var k := s[0] - 0x80;
      if !(1 <= k <= 4) then Fail(ERR_INVALID_LENGTH)
      else if |s| < k + 1 then Fail(ERR_OUT_OF_DATA)
      else Within(s, BigEndian(s[1..k + 1]), k + 1)
  }

  function Within(s: seq<Byte>, len: nat, used: nat): Parsed
    requires used <= |s|
  {
    if len > |s| - used then Fail(ERR_OUT_OF_DATA) else Length(len, used)
  }

  function ReadTag(s: seq<Byte>, tag: Byte): (r: Parsed)
    ensures r.Length? ==> r.used + r.len <= |s|
  {
    if s == [] then Fail(ERR_OUT_OF_DATA)
    else if s[0] != tag then Fail(ERR_UNEXPECTED_TAG)
    else match ReadLength(s[1..])
      case Fail(code) => Fail(code)
      case Length(len, used) => Length(len, used + 1)
  }

  /** A tag and a length in the short form, or in the long form with one to four octets, not
      necessarily the fewest. */
  predicate Heads(h: seq<Byte>, tag: Byte, len: nat) {
    |h| >= 2 && h[0] == tag
    && if |h| == 2 then h[1] == len < 0x80 else |h| <= 6 && h[1] == 0x80 + (|h| - 2) && BigEndian(h[2..]) == len
  }

  /** The reader accepts exactly that, with the content inside the octets. */
  lemma TagRead(s: seq<Byte>, tag: Byte, len: nat, used: nat)
    ensures ReadTag(s, tag) == Length(len, used) <==> used + len <= |s| && Heads(s[..used], tag, len)
  {
    hide BigEndian;
    if s != [] {
      if used > 0 { LengthRead(s[1..], len, used - 1); }
      if 2 <= used <= |s| {
        assert s[1..][..used - 1] == s[..used][1..];
        assert s[..used][1..][1..] == s[..used][2..];
      }
    }
  }

  lemma LengthRead(s: seq<Byte>, len: nat, used: nat)
    ensures ReadLength(s) == Length(len, used) <==>
      (1 <= used && used + len <= |s|
       && if used == 1 then s[0] == len < 0x80 else used <= 5 && s[0] == 0x80 + (used - 1) && BigEndian(s[..used][1..]) == len)
  {
    hide BigEndian;
    if s != [] && 0x81 <= s[0] <= 0x84 && |s| >= s[0] - 0x80 + 1 {
      var k := s[0] - 0x80;
      assert s[1..k + 1] == s[..k + 1][1..];
    }
  }

  function Tlv(tag: Byte, content: seq<Byte>): (r: seq<Byte>)
    requires |content| <= 0xFFFFFFFF
    ensures |r| == 2 + LengthSize(|content|) + |content|
  {
    [tag] + (LengthOctets(|content|) + content)
  }

  lemma PowersOf256()
    ensures Pow(256, 0) == 1 && Pow(256, 1) == 0x100 && Pow(256, 2) == 0x1_0000 && Pow(256, 3) == 0x100_0000
    ensures Pow(256, 4) == 0x1_0000_0000
  {}

  lemma LengthFits(n: nat)
    requires n <= 0xFFFFFFFF && LengthSize(n) > 0
    ensures n < Pow(256, LengthSize(n))
  {
    PowersOf256();
  }

  /** Reading a written length gives it back, whatever follows. */
  lemma LengthRoundTrip(n: nat, rest: seq<Byte>)
    requires n <= 0xFFFFFFFF && n <= |rest|
    ensures ReadLength(LengthOctets(n) + rest) == Length(n, LengthSize(n) + 1)
  {
    hide ToBytes, BigEndian;
    var k := LengthSize(n);
    if k > 0 {
      LengthFits(n);
      NumberRoundTrip(n, k);
      var s := LengthOctets(n) + rest;
      assert s[1..k + 1] == ToBytes(n, k);
    }
  }

  lemma TlvRoundTrip(tag: Byte, content: seq<Byte>, rest: seq<Byte>)
    requires |content| <= 0xFFFFFFFF
    ensures var s, u := Tlv(tag, content) + rest, 2 + LengthSize(|content|);
            ReadTag(s, tag) == Length(|content|, u) && s[u..u + |content|] == content && s[u + |content|..] == rest
  {
    hide LengthOctets, ReadLength;
    var s, n := Tlv(tag, content) + rest, |content|;
    LengthRoundTrip(n, content + rest);
    assert s[1..] == LengthOctets(n) + (content + rest);
    assert s == [tag] + LengthOctets(n) + content + rest;
  }

  // ----- integers -----

  function SizeOf(x: nat): nat {
    if x == 0 then 0 else 1 + SizeOf(x / 256)
  }

  lemma {:induction false} SizeOfBounds(x: nat)
    ensures x < Pow(256, SizeOf(x)) && (x > 0 ==> SizeOf(x) > 0 && Pow(256, SizeOf(x) - 1) <= x)
  {
    PowersOf256();
    if x > 0 {
      SizeOfBounds(x / 256);
    }
  }

  lemma SizeUnique(x: nat, n: nat)
    requires x < Pow(256, n) && (n > 0 ==> Pow(256, n - 1) <= x)
    ensures n == SizeOf(x)
  {
    SizeOfBounds(x);
    var k := SizeOf(x);
    if n < k {
      PowMono256(n, k - 1);
    } else if k < n {
      PowMono256(k, n - 1);
    }
  }

  /** The content octets of a number: the shortest big-endian form, behind a zero octet if the
      number is marked positive and the form starts with a one bit. For zero the form is empty, and
      the octet looked at is the one that follows it in the buffer. */
  function Content(positive: bool, x: nat, following: Byte): (r: seq<Byte>)
    ensures |r| <= SizeOf(x) + 1
  {
    var b := ToBytes(x, SizeOf(x));
    if positive && (b + [following])[0] >= 0x80 then [0] + b else b
  }

  lemma LeadingZero(s: seq<Byte>)
    ensures BigEndian([0] + s) == BigEndian(s)
  {
    BytesConcat([0], s);
    assert BigEndian([0]) == 0 by { assert [0][..0] == []; }
  }

  lemma ContentValue(positive: bool, x: nat, following: Byte)
    ensures BigEndian(Content(positive, x, following)) == x
  {
    hide BigEndian, ToBytes, SizeOf;
    SizeOfBounds(x);
    NumberRoundTrip(x, SizeOf(x));
    LeadingZero(ToBytes(x, SizeOf(x)));
  }

  // ----- what the content octets denote -----

  /** The number that content octets denote in two's complement (section 8.3.3 of X.690). */
  function Denoted(c: seq<Byte>): int {
    if c != [] && c[0] >= 0x80 then BigEndian(c) - Pow(256, |c|) else BigEndian(c)
  }

  /** At least one octet, and none that could be left off (sections 8.3.1 and 8.3.2). */
  predicate Shortest(c: seq<Byte>) {
    c != [] && (|c| > 1 ==> !(c[0] == 0 && c[1] < 0x80) && !(c[0] == 0xFF && c[1] >= 0x80))
  }

  predicate Encodes(c: seq<Byte>, v: int) {
    Shortest(c) && Denoted(c) == v
  }

  /** The written content is the encoding of the number, exactly: for a positive sign, if the number
      is not zero or the octet that happens to follow has its top bit set; for a negative one, if the
      magnitude is half a power of 256. */
  lemma ContentEncodes(positive: bool, x: nat, following: Byte)
    ensures Encodes(Content(positive, x, following), if positive then x else 0 - x)
            <==> if positive then x > 0 || following >= 0x80 else 2 * x == Pow(256, SizeOf(x))
  {
    hide BigEndian, ToBytes, Pow, SizeOf;
    var c := Content(positive, x, following);
    ContentValue(positive, x, following);
    SizeOfBounds(x);
    if x == 0 {
      SizeOfZero(0);
      PowersOf256();
      assert ToBytes(0, 0) == [];
    } else {
      FirstOctet(x);
    }
  }

  /** The first octet is not zero, and its top bit says which half of the range the number is in. */
  lemma FirstOctet(x: nat)
    requires x > 0
    ensures var n := SizeOf(x); var b := ToBytes(x, n);
            n > 0 && b[0] > 0 && (b[0] >= 0x80 <==> 2 * x >= Pow(256, n)) && (2 * x == Pow(256, n) ==> b[0] == 0x80)
  {
    hide ToBytes, Pow, SizeOf;
    SizeOfBounds(x);
    var n := SizeOf(x);
    ToBytesAt(x, n, n - 1);
    PowPos(256, n - 1);
    var P := Pow(256, n - 1);
    PowNext(n);
    LeadingDigit(x, P);
  }

  lemma PowNext(n: nat)
    requires n > 0
    ensures Pow(256, n) == 256 * Pow(256, n - 1)
  {}

  lemma LeadingDigit(x: nat, P: int)
    requires 0 < P <= x < 256 * P
    ensures 0 < x / P < 256 && x / P % 256 == x / P && (x / P >= 0x80 <==> x >= 0x80 * P) && (x == 0x80 * P ==> x / P == 0x80)
  {
    var q := x / P;
    assert x == P * q + x % P;
    if q <= 0 { MulMono(q, 0, P); }
    if q >= 256 { MulMono(256, q, P); }
    if q >= 0x80 { MulMono(0x80, q, P); } else { MulMono(q + 1, 0x80, P); }
    if x == 0x80 * P { DivUnique(x, P, 0x80, 0); }
  }

  /** Zero in front of an octet below 0x80 is written without any content, in place of one zero
      octet, and minus one as plus one. */
  lemma ContentWitness()
    ensures Content(true, 0, 0) == [] && !Shortest([]) && Encodes([0], 0)
    ensures Content(false, 1, 0) == [1] && Encodes([1], 1) && Encodes([0xFF], -1)
    ensures Content(false, 0x80, 0) == [0x80] && Encodes([0x80], -0x80)
  {
    assert ToBytes(1, 1) == ToBytes(0, 0) + [1] == [1];
    assert ToBytes(0x80, 1) == ToBytes(0, 0) + [0x80] == [0x80];
    assert SizeOf(1) == 1 && SizeOf(0x80) == 1;
    assert forall v: Byte :: [v][..0] == [] && BigEndian([v]) == v;
    PowersOf256();
  }

  /** The encoding of a non-zero number is independent of the buffer. */
  lemma ContentOfNonZero(x: nat, following: Byte)
    requires x > 0
    ensures Content(true, x, following) == Content(true, x, 0)
  {
    hide ToBytes;
    assert |ToBytes(x, SizeOf(x))| > 0;
  }

  // ----- writers -----

  /** *--(*p) = v. */
  method Push(buf: array<Byte>, p: nat, v: Byte) returns (p': nat)
    requires 0 < p <= buf.Length
    modifies buf
    ensures p' == p - 1 && buf[p'..] == [v] + old(buf[p..])
  {
    p' := p - 1;
    buf[p'] := v;
  }

  /** mbedtls_asn1_write_len, with *p as an index and the start of the buffer at 0. */
  method WriteLen(buf: array<Byte>, p: nat, len: nat) returns (ret: int, p': nat)
    requires p <= buf.Length
    modifies buf
    ensures ret ==
      if len > 0xFFFFFFFF then ERR_INVALID_LENGTH
      else if p < LengthSize(len) + 1 then ERR_BUF_TOO_SMALL else LengthSize(len) + 1
    ensures ret < 0 ==> buf[..] == old(buf[..]) && p' == p
    ensures ret >= 0 ==> p' == p - ret && buf[p'..] == LengthOctets(len) + old(buf[p..])
  {
    hide BigEndian, ToBytes;
    p' := p;
    ghost var rest := buf[p..];
    if len < 0x80 {
      if p < 1 { return ERR_BUF_TOO_SMALL, p; }
      p' := Push(buf, p', len);
      return 1, p';
    }
    if len <= 0xFF {
      if p < 2 { return ERR_BUF_TOO_SMALL, p; }
      p' := Push(buf, p', len);
      p' := Push(buf, p', 0x81);
      Bytes1(len);
      assert [0x81] + ([len] + rest) == [0x81] + [len] + rest;
      return 2, p';
    }
    if len <= 0xFFFF {
      if p < 3 { return ERR_BUF_TOO_SMALL, p; }
      p' := WriteLow2(buf, p', len);
      p' := Push(buf, p', 0x82);
      assert [0x82] + (ToBytes(len, 2) + rest) == [0x82] + ToBytes(len, 2) + rest;
      return 3, p';
    }
    if len <= 0xFFFFFF {
      if p < 4 { return ERR_BUF_TOO_SMALL, p; }
      p' := WriteLow3(buf, p', len);
      p' := Push(buf, p', 0x83);
      assert [0x83] + (ToBytes(len, 3) + rest) == [0x83] + ToBytes(len, 3) + rest;
      return 4, p';
    }
    if len > 0xFFFFFFFF { return ERR_INVALID_LENGTH, p; }
    if p < 5 { return ERR_BUF_TOO_SMALL, p; }
    p' := WriteLow4(buf, p', len);
    p' := Push(buf, p', 0x84);
    assert [0x84] + (ToBytes(len, 4) + rest) == [0x84] + ToBytes(len, 4) + rest;
    ret := 5;
  }

  /** The low two, three and four octets of a length. */
  method WriteLow2(buf: array<Byte>, p: nat, len: nat) returns (p': nat)
    requires 2 <= p <= buf.Length
    modifies buf
    ensures p' == p - 2 && buf[p'..] == ToBytes(len, 2) + old(buf[p..])
  {
    hide ToBytes;
    p' := Push(buf, p, len % 256);
    p' := Push(buf, p', len / 256 % 256);
    Bytes2(len);
  }

  method WriteLow3(buf: array<Byte>, p: nat, len: nat) returns (p': nat)
    requires 3 <= p <= buf.Length
    modifies buf
    ensures p' == p - 3 && buf[p'..] == ToBytes(len, 3) + old(buf[p..])
  {
    hide ToBytes;
    p' := WriteLow2(buf, p, len);
    p' := Push(buf, p', len / 256 / 256 % 256);
    Bytes2(len);
    Bytes3(len);
  }

  method WriteLow4(buf: array<Byte>, p: nat, len: nat) returns (p': nat)
    requires 4 <= p <= buf.Length
    modifies buf
    ensures p' == p - 4 && buf[p'..] == ToBytes(len, 4) + old(buf[p..])
  {
    hide ToBytes;
    p' := WriteLow3(buf, p, len);
    p' := Push(buf, p', len / 256 / 256 / 256 % 256);
    Bytes3(len);
    Bytes4(len);
  }

  lemma Bytes1(n: nat)
    requires n < 256
    ensures ToBytes(n, 1) == [n]
  {
    assert ToBytes(n, 1) == ToBytes(n / 256, 0) + [n % 256];
  }

  lemma Bytes2(n: nat)
    ensures ToBytes(n, 2) == [n / 256 % 256, n % 256]
  {
    assert ToBytes(n / 256, 1) == ToBytes(n / 256 / 256, 0) + [n / 256 % 256];
  }

  lemma Bytes3(n: nat)
    ensures ToBytes(n, 3) == [n / 256 / 256 % 256, n / 256 % 256, n % 256]
  {
    Bytes2(n / 256);
  }

  lemma Bytes4(n: nat)
    ensures ToBytes(n, 4) == [n / 256 / 256 / 256 % 256, n / 256 / 256 % 256, n / 256 % 256, n % 256]
  {
    Bytes3(n / 256);
  }

  method WriteTag(buf: array<Byte>, p: nat, tag: Byte) returns (ret: int, p': nat)
    requires p <= buf.Length
    modifies buf
    ensures ret == if p < 1 then ERR_BUF_TOO_SMALL else 1
    ensures ret < 0 ==> buf[..] == old(buf[..]) && p' == p
    ensures ret >= 0 ==> p' == p - 1 && buf[p'..] == [tag] + old(buf[p..])
  {
    if p < 1 { return ERR_BUF_TOO_SMALL, p; }
    p' := Push(buf, p, tag);
    ret := 1;
  }

  /** Length and tag in front of a content already written at [p, q). */
  method WriteHeader(buf: array<Byte>, p: nat, q: nat, tag: Byte) returns (ret: int, p': nat)
    requires p <= q <= buf.Length
    modifies buf
    ensures ret ==
      if q - p > 0xFFFFFFFF then ERR_INVALID_LENGTH
      else if p < 2 + LengthSize(q - p) then ERR_BUF_TOO_SMALL else 2 + LengthSize(q - p) + (q - p)
    ensures ret >= 0 ==> p' == q - ret && buf[p'..] == Tlv(tag, old(buf[p..q])) + old(buf[q..])
  {
    hide LengthOctets;
    ghost var content, rest := buf[p..q], buf[q..];
    assert buf[p..] == content + rest;
    ret, p' := WriteLen(buf, p, q - p);
    if ret < 0 { return; }
    ret, p' := WriteTag(buf, p', tag);
    if ret < 0 { return; }
    Header(tag, LengthOctets(q - p), content, rest);
    ret := q - p';
  }

  lemma Header(tag: Byte, l: seq<Byte>, content: seq<Byte>, rest: seq<Byte>)
    ensures [tag] + (l + (content + rest)) == [tag] + (l + content) + rest
  {}

  /** The magnitude of X, and a zero octet in front of it where DER would read a minus sign; `beyond`
      is the octet behind the buffer, and `outside` tells whether it is read. */
  method WriteContent(X: Mpi, buf: array<Byte>, p: nat, beyond: Byte) returns (ret: int, p': nat, outside: bool)
    requires p <= buf.Length
    modifies buf
    ensures outside <==> X.s == 1 && Nat(X.p) == 0 && p == buf.Length
    ensures var c := Content(X.s == 1, Nat(X.p), if p < buf.Length then old(buf[p]) else beyond);
            if p < |c| then ret == ERR_BUF_TOO_SMALL else ret == |c| && p' == p - |c| && buf[p'..] == c + old(buf[p..])
  {
    hide Nat, Pow, BigEndian, ToBytes, SizeOf;
    outside := false;
    ghost var following, rest := if p < buf.Length then buf[p] else beyond, buf[p..];
    SizeOfZero(Nat(X.p));
    ghost var b := ToBytes(Nat(X.p), SizeOf(Nat(X.p)));
    ret, p' := WriteNumber(X, buf, p);
    if ret < 0 { return; }
    var len := ret;
    outside := X.s == 1 && p' == buf.Length;
    var first := if p' < buf.Length then buf[p'] else beyond;
    assert p' < buf.Length ==> buf[p'] == buf[p'..][0];
    assert first == (b + [following])[0];
    if X.s == 1 && first >= 0x80 {
      if p' < 1 {
        return ERR_BUF_TOO_SMALL, p', outside;
      }
      p' := Push(buf, p', 0x00);
      len := len + 1;
      assert [0] + (b + rest) == [0] + b + rest;
    }
    ret := len;
  }

  /** The magnitude of X in as few octets as it takes. */
  method WriteNumber(X: Mpi, buf: array<Byte>, p: nat) returns (ret: int, p': nat)
    requires p <= buf.Length
    modifies buf
    ensures var n := SizeOf(Nat(X.p));
            if p < n then ret == ERR_BUF_TOO_SMALL
            else ret == n && p' == p - n && buf[p'..] == ToBytes(Nat(X.p), n) + old(buf[p..])
  {
    hide Nat, Pow, BigEndian, ToBytes, SizeOf;
    ghost var rest := buf[p..];
    var len := MpiBinary.Size(X);
    SizeUnique(Nat(X.p), len);
    if p < len {
      return ERR_BUF_TOO_SMALL, p;
    }
    p' := p - len;
    var _ := WriteBinary(X, buf, p', len);
    assert p' + len == p && buf[p..] == rest;
    assert buf[p'..] == buf[p'..p] + buf[p..];
    ret := len;
  }

  lemma SizeOfZero(x: nat)
    ensures SizeOf(x) == 0 <==> x == 0
  {}

  /** (int) of a size_t. */
  function ToInt(n: nat): int {
    var low := n % 0x1_0000_0000;
    if low < 0x8000_0000 then low else low - 0x1_0000_0000
  }

  lemma ToIntSmall(n: nat)
    requires n < 0x8000_0000
    ensures ToInt(n) == n
  {}

  /** mbedtls_asn1_write_mpi. The octet at p is read when X is zero: `beyond` if that is behind the
      buffer, which `outside` tells. */
  method WriteMpi(X: Mpi, buf: array<Byte>, p: nat, beyond: Byte) returns (ret: int, p': nat, outside: bool)
    requires p <= buf.Length
    modifies buf
    ensures outside <==> X.s == 1 && Nat(X.p) == 0 && p == buf.Length
    ensures var c := Content(X.s == 1, Nat(X.p), if p < buf.Length then old(buf[p]) else beyond);
            if p < |c| then ret == ERR_BUF_TOO_SMALL
            else if |c| > 0xFFFFFFFF then ret == ERR_INVALID_LENGTH
            else if p < |Tlv(INTEGER, c)| then ret == ERR_BUF_TOO_SMALL
            else ret == ToInt(|Tlv(INTEGER, c)|) && p' == p - |Tlv(INTEGER, c)| && buf[p'..] == Tlv(INTEGER, c) + old(buf[p..])
  {
    hide Nat, Content, Tlv, ToInt;
    ghost var c := Content(X.s == 1, Nat(X.p), if p < buf.Length then buf[p] else beyond);
    ret, p', outside := WriteContent(X, buf, p, beyond);
    if ret < 0 { return; }
    SplitAt(buf[p'..], c, old(buf[p..]));
    assert buf[p'..p] == buf[p'..][..p - p'] && buf[p..] == buf[p'..][p - p'..];
    ret, p' := WriteHeader(buf, p', p, INTEGER);
    if ret < 0 { return; }
    ret := ToInt(ret);
  }

  lemma SplitAt(s: seq<Byte>, a: seq<Byte>, b: seq<Byte>)
    requires s == a + b
    ensures s[..|a|] == a && s[|a|..] == b
  {}

  // ----- readers -----

  /** mbedtls_asn1_get_len: p advances past the length octets. */
  method GetLen(buf: array<Byte>, p: nat, end: nat) returns (ret: int, p': nat, len: nat)
    requires p <= end <= buf.Length
    ensures match ReadLength(buf[p..end])
            case Fail(code) => ret == code
            case Length(l, used) => ret == 0 && len == l && p' == p + used
  {
    hide BigEndian;
    p', len := p, 0;
    ghost var s := buf[p..end];
    if end - p < 1 { return ERR_OUT_OF_DATA, p', len; }
    if buf[p] < 0x80 {
      len := buf[p];
      p' := p + 1;
    } else {
      var k := buf[p] - 0x80;
      if !(1 <= k <= 4) { return ERR_INVALID_LENGTH, p', len; }
      if end - p < k + 1 { return ERR_OUT_OF_DATA, p', len; }
      len := LongLength(buf, p, k);
      assert s[1..k + 1] == buf[p + 1..p + 1 + k];
      p' := p + k + 1;
    }
    if len > end - p' { return ERR_OUT_OF_DATA, p', len; }
    ret := 0;
  }

  /** The cases of the switch: one to four octets, most significant first. */
  method LongLength(buf: array<Byte>, p: nat, k: nat) returns (len: nat)
    requires 1 <= k <= 4 && p + k < buf.Length
    ensures len == BigEndian(buf[p + 1..p + 1 + k])
  {
    hide BigEndian;
    ghost var s := buf[p + 1..p + 1 + k];
    assert forall i :: 0 <= i < k ==> s[i] == buf[p + 1 + i];
    Horner(s);
    if k == 1 {
      len := buf[p + 1];
    } else if k == 2 {
      len := (buf[p + 1] as int) * 0x100 + buf[p + 2];
    } else if k == 3 {
      len := (buf[p + 1] as int) * 0x10000 + (buf[p + 2] as int) * 0x100 + buf[p + 3];
    } else {
      len := (buf[p + 1] as int) * 0x1000000 + (buf[p + 2] as int) * 0x10000 + (buf[p + 3] as int) * 0x100 + buf[p + 4];
    }
  }

  lemma Horner(s: seq<Byte>)
    requires 1 <= |s| <= 4
    ensures BigEndian(s) ==
      if |s| == 1 then s[0]
      else if |s| == 2 then (s[0] as int) * 0x100 + s[1]
      else if |s| == 3 then (s[0] as int) * 0x10000 + (s[1] as int) * 0x100 + s[2]
      else (s[0] as int) * 0x1000000 + (s[1] as int) * 0x10000 + (s[2] as int) * 0x100 + s[3]
  {
    var t := s[..|s| - 1];
    assert BigEndian(s) == BigEndian(t) * 256 + s[|s| - 1];
    if |s| > 1 {
      Horner(t);
    }
  }

  /** mbedtls_asn1_get_tag. */
  method GetTag(buf: array<Byte>, p: nat, end: nat, tag: Byte) returns (ret: int, p': nat, len: nat)
    requires p <= end <= buf.Length
    ensures match ReadTag(buf[p..end], tag)
            case Fail(code) => ret == code
            case Length(l, used) => ret == 0 && len == l && p' == p + used
  {
    hide ReadLength;
    p', len := p, 0;
    if end - p < 1 { return ERR_OUT_OF_DATA, p', len; }
    if buf[p] != tag { return ERR_UNEXPECTED_TAG, p', len; }
    assert buf[p..end][1..] == buf[p + 1..end];
    ret, p', len := GetLen(buf, p + 1, end);
  }

  lemma TagFails(s: seq<Byte>, tag: Byte)
    ensures ReadTag(s, tag).Fail? ==> ReadTag(s, tag).code != 0
  {}

  /** mbedtls_asn1_get_mpi: the content octets as an unsigned number. */
  method GetMpi(buf: array<Byte>, p: nat, end: nat, X: Mpi) returns (ret: int, p': nat)
    requires p <= end <= buf.Length
    modifies X
    ensures match ReadTag(buf[p..end], INTEGER)
            case Fail(code) => ret == code
            case Length(l, used) => ret == 0 && p' == p + used + l && X.V() == BigEndian(buf[p + used..p + used + l])
  {
    hide ReadTag, BigEndian;
    var len: nat;
    ret, p', len := GetTag(buf, p, end, INTEGER);
    TagFails(buf[p..end], INTEGER);
    if ret != 0 { return; }
    ReadBinary(X, buf[p'..p' + len]);
    p' := p' + len;
  }
}
