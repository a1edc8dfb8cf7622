/** cJSON's printing into memory: into one growing buffer, and into a block of a length computed
    beforehand for every value. Both write the text that JsonText gives, and no more than they
    have room for. */
module JsonPrint {
  import opened ByteStrings
  import opened JsonText
  import opened PowerOfTwo

  // ----- printed text has no terminating zero inside -----

  lemma {:induction false} PlainDecimal(n: nat)
    ensures Plain(Decimal(n))
  {
    if n >= 10 { PlainDecimal(n / 10); }
  }

  lemma {:induction false} PlainEscaped(s: seq<Byte>)
    requires Plain(s)
    ensures Plain(Escaped(s))
  {
    if s != [] {
      assert Plain(Escape(s[0]));
      PlainEscaped(s[1..]);
    }
  }

  lemma PlainQuote(s: seq<Byte>)
    requires Plain(s)
    ensures Plain(Quote(s))
  {
    hide Escaped;
    PlainEscaped(s);
  }

  lemma {:induction false} PlainTabs(n: int)
    ensures Plain(Tabs(n))
  {
    if n > 0 { PlainTabs(n - 1); }
  }

  lemma {:induction false} PlainPrint(v: Json, depth: nat, fmt: bool)
    requires Printable(v)
    ensures Plain(Print(v, depth, fmt))
    decreases v, 0
  {
    hide Quote, Tabs, Decimal, PrintItems, PrintMembers;
    match v
    case Number(z) => PlainDecimal(if z < 0 then -z else z);
    case String(s) => PlainQuote(s);
    case Array(c) => PlainItems(c, depth + 1, fmt);
    case Object(c) =>
      PlainMembers(c, depth + 1, fmt);
      PlainTabs(depth);
      PlainTabs(depth - 1);
    case _ =>
  }

  lemma {:induction false} PlainItems(c: Chain, depth: nat, fmt: bool)
    requires PrintableChain(c, false)
    ensures Plain(PrintItems(c, depth, fmt))
    decreases c, 1
  {
    hide Print, Printable;
    if c.Link? {
      PlainPrint(c.item, depth, fmt);
      PlainItems(c.next, depth, fmt);
    }
  }

  lemma {:induction false} PlainMembers(c: Chain, depth: nat, fmt: bool)
    requires PrintableChain(c, true)
    ensures Plain(PrintMembers(c, depth, fmt))
    decreases c, 1
  {
    hide Print, Printable, Quote, Tabs;
    if c.Link? {
      PlainTabs(depth);
      PlainQuote(c.name);
      PlainPrint(c.item, depth, fmt);
      PlainMembers(c.next, depth, fmt);
    }
  }

  /** An int needs at most 11 of the 21 characters it is given. */
  lemma {:induction false} DecimalLength(n: nat, k: nat)
    requires n < Power10(k) && k > 0
    ensures |Decimal(n)| <= k
  {
    if n >= 10 {
      assert Power10(1) == 10;
      DecimalLength(n / 10, k - 1);
    }
  }

  lemma IntLength(z: int)
    requires -0x8000_0000 <= z < 0x8000_0000
    ensures |PrintNumber(z)| <= 11
  {
    hide Decimal;
    assert Power10(5) == 100000;
    assert Power10(10) == 10_000_000_000;
    DecimalLength(if z < 0 then -z else z, 10);
  }

  // ----- storing characters -----

  /** The block holds the text and its terminating zero. */
  ghost predicate Terminated(a: array<Byte>, text: seq<Byte>)
    reads a
  {
    |text| < a.Length && a[..|text|] == text && a[|text|] == 0
  }

  /** *ptr++ = x. */
  method Store(a: array<Byte>, ptr: nat, x: Byte) returns (next: nat)
    requires ptr < a.Length
    modifies a
    ensures next == ptr + 1 && a[..next] == old(a[..ptr]) + [x]
  {
    a[ptr] := x;
    next := ptr + 1;
  }

  /** memcpy. */
  method Copy(a: array<Byte>, ptr: nat, text: seq<Byte>) returns (next: nat)
    requires ptr + |text| <= a.Length
    modifies a
    ensures next == ptr + |text| && a[..next] == old(a[..ptr]) + text
  {
    ghost var before := a[..ptr];
    next := ptr;
    for i := 0 to |text|
      invariant next == ptr + i && a[..next] == before + text[..i]
    {
      next := Store(a, next, text[i]);
      assert text[..i + 1] == text[..i] + [text[i]];
    }
    assert text[..|text|] == text;
  }

  /** strlen. */
  method StringLength(a: array<Byte>, from: nat, ghost text: seq<Byte>) returns (n: nat)
    requires Terminated(a, text) && from <= |text|
    requires forall i :: from <= i < |text| ==> text[i] != 0
    ensures from + n == |text|
  {
    n := 0;
    assert forall i :: 0 <= i < |text| ==> a[i] == a[..|text|][i];
    while a[from + n] != 0
      invariant from + n <= |text|
      decreases |text| - n
    {
      n := n + 1;
    }
  }

  // ----- print_string_ptr -----

  /** Whether a character is printed as an escape. */
  predicate Special(c: Byte) {
    c < 32 || c == QUOTE || c == BACKSLASH
  }

  predicate Simple(s: seq<Byte>) {
    forall i :: 0 <= i < |s| ==> !Special(s[i])
  }

  lemma {:induction false} EscapedSimple(s: seq<Byte>)
    requires Simple(s)
    ensures Escaped(s) == s
  {
    if s != [] {
      EscapedSimple(s[1..]);
      assert s == [s[0]] + s[1..];
    }
  }

  lemma EscapedNext(s: seq<Byte>, i: nat)
    requires i < |s|
    ensures Escaped(s[i..]) == Escape(s[i]) + Escaped(s[i + 1..])
  {
    assert s[i..][1..] == s[i + 1..];
  }

  /** The first two loops: is anything to be escaped, and how long is the escaped text. */
  method MeasureString(str: seq<Byte>) returns (flag: bool, len: nat)
    requires Plain(str)
    ensures flag <==> !Simple(str)
    ensures len == |Escaped(str)|
  {
    hide Escaped, Escape;
    flag := false;
    for i := 0 to |str|
      invariant flag <==> !Simple(str[..i])
    {
      flag := flag || (0 < str[i] < 32 || str[i] == QUOTE || str[i] == BACKSLASH);
      SimpleNext(str, i);
    }
    assert str[..|str|] == str;
    if !flag {
      EscapedSimple(str);
      return flag, |str|;
    }
    len := 0;
    assert str[0..] == str;
    for i := 0 to |str|
      invariant len + |Escaped(str[i..])| == |Escaped(str)|
    {
      var token := str[i];
      EscapedNext(str, i);
      EscapeLength(token);
      len := len + 1;
      if token == QUOTE || token == BACKSLASH || token == 8 || token == 12 || token == 10 || token == 13 || token == 9 {
        len := len + 1;
      } else if token < 32 {
        len := len + 5;
      }
    }
    EscapedNothing();
    assert str[|str|..] == [];
  }

  lemma EscapedNothing()
    ensures Escaped([]) == []
  {}

  lemma SimpleNext(s: seq<Byte>, i: nat)
    requires i < |s|
    ensures Simple(s[..i + 1]) <==> Simple(s[..i]) && !Special(s[i])
  {
    assert s[..i + 1] == s[..i] + [s[i]];
  }

  lemma EscapeLength(c: Byte)
    ensures |Escape(c)| == if c == QUOTE || c == BACKSLASH || c == 8 || c == 12 || c == 10 || c == 13 || c == 9 then 2 else if c < 32 then 6 else 1
  {}

  /** The characters of one escape: the backslash and what follows. */
  method StoreEscape(a: array<Byte>, ptr: nat, token: Byte) returns (next: nat)
    requires Special(token) && token != 0 && ptr + |Escape(token)| <= a.Length
    modifies a
    ensures next == ptr + |Escape(token)| && a[..next] == old(a[..ptr]) + Escape(token)
  {
    next := Store(a, ptr, BACKSLASH);
    if token == BACKSLASH || token == QUOTE { next := Store(a, next, token); }
    else if token == 8 { next := Store(a, next, 98); }
    else if token == 12 { next := Store(a, next, 102); }
    else if token == 10 { next := Store(a, next, 110); }
    else if token == 13 { next := Store(a, next, 114); }
    else if token == 9 { next := Store(a, next, 116); }
    else { next := Copy(a, next, [117, ZERO, ZERO, HexDigit(token / 16), HexDigit(token % 16)]); }
  }

  /** The string in quotes, and the terminating zero, at ptr; `flag` says that there is something
      to escape. */
  method StoreString(a: array<Byte>, ptr: nat, str: seq<Byte>, flag: bool)
    requires Plain(str) && (flag <==> !Simple(str)) && ptr + |Escaped(str)| + 3 <= a.Length
    modifies a
    ensures Terminated(a, old(a[..ptr]) + Quote(str))
  {
    hide Escaped, Escape;
    ghost var before := a[..ptr];
    var next: nat := Store(a, ptr, QUOTE);
    if !flag {
      EscapedSimple(str);
      next := Copy(a, next, str);
      a[next] := 0;
    } else {
      assert str[0..] == str;
      assert a[..next] + Escaped(str) == before + [QUOTE] + Escaped(str);
      for i := 0 to |str|
        invariant next + |Escaped(str[i..])| + 2 <= a.Length
        invariant a[..next] + Escaped(str[i..]) == before + [QUOTE] + Escaped(str)
        modifies a
      {
        ghost var done := a[..next];
        EscapedNext(str, i);
        if Special(str[i]) {
          next := StoreEscape(a, next, str[i]);
        } else {
          EscapeSpecial(str[i]);
          next := Store(a, next, str[i]);
        }
        Assoc(done, Escape(str[i]), Escaped(str[i + 1..]));
      }
      EscapedNothing();
      assert str[|str|..] == [] && a[..next] + [] == a[..next];
    }
    next := Store(a, next, QUOTE);
    a[next] := 0;
    assert a[..next] == before + [QUOTE] + Escaped(str) + [QUOTE];
  }

  lemma EscapeSpecial(c: Byte)
    requires !Special(c)
    ensures Escape(c) == [c]
  {}

  lemma Assoc(a: seq<Byte>, b: seq<Byte>, c: seq<Byte>)
    ensures a + (b + c) == (a + b) + c
  {}

  // ----- the growing buffer -----

  class PrintBuffer {
    var buffer: array<Byte>
    var offset: nat

    constructor (prebuffer: nat)
      ensures fresh(buffer) && buffer.Length == prebuffer && offset == 0
    {
      buffer := new Byte[prebuffer];
      offset := 0;
    }

    /** What has been written up to the offset. */
    ghost function Done(): seq<Byte>
      reads this, buffer
      requires offset <= buffer.Length
    {
      buffer[..offset]
    }

    /** The offset is inside the buffer, behind the text `done`. */
    ghost predicate Reached(done: seq<Byte>)
      reads this, buffer
    {
      offset <= buffer.Length && buffer[..offset] == done
    }

    /** ensure: room for `needed` characters from the offset on, what was written kept. */
    method Ensure(needed: nat)
      requires offset <= buffer.Length
      modifies this`buffer
      ensures buffer == old(buffer) || fresh(buffer)
      ensures offset + needed <= buffer.Length
      ensures Reached(old(Done()))
    {
      hide Pow2gt;
      var n := needed + offset;
      if n <= buffer.Length {
        return;
      }
      var newbuffer := new Byte[Pow2gt(n)];
      ghost var done := buffer[..offset];
      var i := Copy(newbuffer, 0, buffer[..]);
      assert newbuffer[..offset] == newbuffer[..i][..offset];
      assert buffer[..][..offset] == done;
      buffer := newbuffer;
    }

    /** update: the offset moves to the terminating zero. */
    method Update(ghost text: seq<Byte>)
      requires Terminated(buffer, text) && offset <= |text|
      requires forall i :: offset <= i < |text| ==> text[i] != 0
      modifies this`offset
      ensures Reached(text)
    {
      var n := StringLength(buffer, offset, text);
      offset := offset + n;
    }

    /** Room for a text, and the text written at the offset, with a terminating zero if there is
        room for it; the offset stays. */
    method Put(text: seq<Byte>, room: nat)
      requires offset <= buffer.Length && |text| <= room
      modifies this`buffer, buffer
      ensures buffer == old(buffer) || fresh(buffer)
      ensures offset + |text| <= buffer.Length && buffer[..offset + |text|] == old(Done()) + text
      ensures |text| < room ==> Terminated(buffer, old(Done()) + text)
    {
      Ensure(room);
      var next := Copy(buffer, offset, text);
      if |text| < room {
        buffer[next] := 0;
      }
    }

    /** Put, and the offset moves behind the text. */
    method Append(text: seq<Byte>, room: nat)
      requires offset <= buffer.Length && |text| <= room
      modifies this, buffer
      ensures buffer == old(buffer) || fresh(buffer)
      ensures Reached(old(Done()) + text)
    {
      Put(text, room);
      offset := offset + |text|;
    }

    /** print_string_ptr. */
    method PrintString(str: seq<Byte>)
      requires offset <= buffer.Length && Plain(str)
      modifies this`buffer, buffer
      ensures buffer == old(buffer) || fresh(buffer)
      ensures Terminated(buffer, old(Done()) + Quote(str))
    {
      hide Quote;
      var flag, len := MeasureString(str);
      Ensure(len + 3);
      StoreString(buffer, offset, str, flag);
    }

    /** print_number. */
    method PrintInt(z: int)
      requires offset <= buffer.Length && -0x8000_0000 <= z < 0x8000_0000
      modifies this`buffer, buffer
      ensures buffer == old(buffer) || fresh(buffer)
      ensures Terminated(buffer, old(Done()) + PrintNumber(z))
    {
      hide PrintNumber;
      IntLength(z);
      if z == 0 {
        PrintZero();
        Put([ZERO], 2);
      } else {
        Put(PrintNumber(z), 21);
      }
    }

    /** print_value: the text of the tree is appended, with its terminating zero, and the offset
        is left somewhere in it. The address returned, as an offset, is meaningful only for a
        value that is not inside a formatted object. */
    method PrintValue(v: Json, depth: nat, fmt: bool) returns (out: nat)
      requires offset <= buffer.Length && Printable(v)
      modifies this, buffer
      ensures buffer == old(buffer) || fresh(buffer)
      ensures Terminated(buffer, old(Done()) + Print(v, depth, fmt))
      ensures old(offset) <= offset <= old(offset) + |Print(v, depth, fmt)|
      ensures out == if fmt && v.Object? && v.members.Link? then depth else old(offset)
      decreases v, 0
    {
      hide Quote, PrintNumber, PrintItems, PrintMembers, Tabs;
      out := offset;
      match v
      case Null => Put(NULL, 5);
      case False => Put(FALSE, 6);
      case True => Put(TRUE, 5);
      case Number(z) => PrintInt(z);
      case String(s) => PrintString(s);
      case Array(c) => out := PrintArray(c, depth, fmt);
      case Object(c) => out := PrintObject(c, depth, fmt);
    }

    method PrintArray(c: Chain, depth: nat, fmt: bool) returns (out: nat)
      requires offset <= buffer.Length && PrintableChain(c, false)
      modifies this, buffer
      ensures buffer == old(buffer) || fresh(buffer)
      ensures Terminated(buffer, old(Done()) + Print(Array(c), depth, fmt))
      ensures old(offset) <= offset <= old(offset) + |Print(Array(c), depth, fmt)|
      ensures out == old(offset)
      decreases c, 2
    {
      hide Print, PrintItems, Printable, PrintableChain, Terminated, Plain;
      out := offset;
      ghost var text := Done() + Print(Array(c), depth, fmt);
      if c == End {
        EmptyArray(depth, fmt);
        Put([OPEN, CLOSE], 3);
        return;
      }
      ArrayText(Done(), c, depth, fmt);
      Append([OPEN], 1);
      var child := c;
      while child.Link?
        invariant offset <= buffer.Length && out <= offset
        invariant PrintableChain(child, false)
        invariant buffer == old(buffer) || fresh(buffer)
        invariant Done() + (PrintItems(child, depth + 1, fmt) + [CLOSE]) == text
        decreases child
      {
        ItemText(Done(), child, depth + 1, fmt);
        ChainParts(child, false);
        PrintItem(child, depth + 1, fmt);
        child := child.next;
      }
      ItemsEnd(Done(), depth + 1, fmt);
      Put([CLOSE], 2);
    }

    /** One turn of the loop of print_array. */
    method PrintItem(c: Chain, depth: nat, fmt: bool)
      requires offset <= buffer.Length && c.Link? && Printable(c.item)
      modifies this, buffer
      ensures buffer == old(buffer) || fresh(buffer)
      ensures old(offset) <= offset && Reached(old(Done()) + Item(c, depth, fmt))
      decreases c, 0
    {
      hide Print, Printable, Terminated, Plain;
      ghost var done := Done();
      PlainPrint(c.item, depth, fmt);
      var _ := PrintValue(c.item, depth, fmt);
      PlainBehind(done, Print(c.item, depth, fmt));
      Update(done + Print(c.item, depth, fmt));
      if c.next.Link? {
        if fmt { Append([COMMA, BLANK], 3); } else { Append([COMMA], 2); }
      }
      Assoc(done, Print(c.item, depth, fmt), When(c.next.Link?, if fmt then [COMMA, BLANK] else [COMMA]));
    }

    method PrintObject(c: Chain, depth: nat, fmt: bool) returns (out: nat)
      requires offset <= buffer.Length && PrintableChain(c, true)
      modifies this, buffer
      ensures buffer == old(buffer) || fresh(buffer)
      ensures Terminated(buffer, old(Done()) + Print(Object(c), depth, fmt))
      ensures old(offset) <= offset <= old(offset) + |Print(Object(c), depth, fmt)|
      ensures out == if fmt && c.Link? then depth else old(offset)
      decreases c, 2
    {
      hide Print, PrintMembers, Printable, PrintableChain, Terminated, Closing, Tabs, Plain, Member;
      out := offset;
      ghost var text := Done() + Print(Object(c), depth, fmt);
      if c == End {
        EmptyObject(depth, fmt);
        Put([BEGIN] + When(fmt, [NEWLINE] + Tabs(depth - 1)) + [FINISH], if fmt then depth + 4 else 3);
        return;
      }
      ObjectText(Done(), c, depth, fmt);
      Append(if fmt then [BEGIN, NEWLINE] else [BEGIN], if fmt then 3 else 2);
      var child := c;
      while child.Link?
        invariant offset <= buffer.Length && out <= offset
        invariant PrintableChain(child, true)
        invariant buffer == old(buffer) || fresh(buffer)
        invariant Done() + (PrintMembers(child, depth + 1, fmt) + Closing(depth, fmt)) == text
        decreases child
      {
        MembersText(Done(), child, depth + 1, fmt, Closing(depth, fmt));
        ChainParts(child, true);
        PrintMember(child, depth + 1, fmt);
        child := child.next;
      }
      MembersEnd(Done(), depth, fmt);
      Put(Closing(depth, fmt), if fmt then depth + 2 else 2);
      if fmt { out := depth; }
    }

    /** One turn of the loop of print_object. */
    method PrintMember(c: Chain, depth: nat, fmt: bool)
      requires offset <= buffer.Length && c.Link? && Plain(c.name) && Printable(c.item)
      modifies this, buffer
      ensures buffer == old(buffer) || fresh(buffer)
      ensures old(offset) <= offset && Reached(old(Done()) + Member(c, depth, fmt))
      decreases c, 0
    {
      hide Print, Quote, Printable, Terminated, Plain, Tabs, Member;
      ghost var done := Done();
      PrintName(c.name, depth, fmt);
      ghost var named := Done();
      PlainPrint(c.item, depth, fmt);
      var _ := PrintValue(c.item, depth, fmt);
      PlainBehind(named, Print(c.item, depth, fmt));
      Update(named + Print(c.item, depth, fmt));
      var end := When(c.next.Link?, [COMMA]) + When(fmt, [NEWLINE]);
      Append(end, |end| + 1);
      MemberSteps(done, c, depth, fmt);
    }

    /** Its first part: the indentation, the name and the colon. */
    method PrintName(name: seq<Byte>, depth: nat, fmt: bool)
      requires offset <= buffer.Length && Plain(name)
      modifies this, buffer
      ensures buffer == old(buffer) || fresh(buffer)
      ensures old(offset) <= offset
      ensures Reached(((old(Done()) + When(fmt, Tabs(depth))) + Quote(name)) + ([COLON] + When(fmt, [TAB])))
    {
      hide Quote, Terminated, Plain, Tabs;
      ghost var done := Done();
      if fmt {
        Append(Tabs(depth), depth);
      } else {
        assert done + [] == done;
      }
      assert Done() == done + When(fmt, Tabs(depth));
      ghost var indented := Done();
      PlainQuote(name);
      PrintString(name);
      PlainBehind(indented, Quote(name));
      Update(indented + Quote(name));
      Append([COLON] + When(fmt, [TAB]), if fmt then 2 else 1);
    }
  }

  lemma PlainBehind(done: seq<Byte>, text: seq<Byte>)
    requires Plain(text)
    ensures forall i :: |done| <= i < |done + text| ==> (done + text)[i] != 0
  {}

  lemma PrintZero()
    ensures PrintNumber(0) == [ZERO]
  {}

  lemma EmptyArray(depth: nat, fmt: bool)
    ensures Print(Array(End), depth, fmt) == [OPEN, CLOSE]
  {}

  lemma EmptyObject(depth: nat, fmt: bool)
    ensures var s := Print(Object(End), depth, fmt);
            s == [BEGIN] + When(fmt, [NEWLINE] + Tabs(depth - 1)) + [FINISH] && |s| < if fmt then depth + 4 else 3
  {}

  lemma ChainParts(c: Chain, named: bool)
    requires c.Link? && PrintableChain(c, named)
    ensures Plain(c.name) && Printable(c.item) && PrintableChain(c.next, named)
  {}

  lemma ArrayText(done: seq<Byte>, c: Chain, depth: nat, fmt: bool)
    ensures done + Print(Array(c), depth, fmt) == (done + [OPEN]) + (PrintItems(c, depth + 1, fmt) + [CLOSE])
  {
    hide PrintItems;
  }

  /** The text of one item, up to the next one. */
  function Item(c: Chain, depth: nat, fmt: bool): seq<Byte>
    requires c.Link?
  {
    Print(c.item, depth, fmt) + When(c.next.Link?, if fmt then [COMMA, BLANK] else [COMMA])
  }

  lemma ItemFirst(c: Chain, depth: nat, fmt: bool)
    requires c.Link?
    ensures PrintItems(c, depth, fmt) == Item(c, depth, fmt) + PrintItems(c.next, depth, fmt)
  {
    hide Print;
  }

  lemma ItemText(done: seq<Byte>, c: Chain, depth: nat, fmt: bool)
    requires c.Link?
    ensures done + (PrintItems(c, depth, fmt) + [CLOSE])
            == (done + Item(c, depth, fmt)) + (PrintItems(c.next, depth, fmt) + [CLOSE])
  {
    hide Item;
    ItemFirst(c, depth, fmt);
  }

  lemma ItemsEnd(done: seq<Byte>, depth: nat, fmt: bool)
    ensures done + (PrintItems(End, depth, fmt) + [CLOSE]) == done + [CLOSE]
  {
    assert [] + [CLOSE] == [CLOSE];
  }

  /** The text of one member, up to the next one. */
  function Member(c: Chain, depth: nat, fmt: bool): seq<Byte>
    requires c.Link?
  {
    When(fmt, Tabs(depth)) + Quote(c.name) + [COLON] + When(fmt, [TAB]) + Print(c.item, depth, fmt)
    + When(c.next != End, [COMMA]) + When(fmt, [NEWLINE])
  }

  /** The end of an object with members. */
  function Closing(depth: nat, fmt: bool): (r: seq<Byte>)
    ensures |r| == if fmt then depth + 1 else 1
  {
    When(fmt, Tabs(depth)) + [FINISH]
  }

  lemma ObjectText(done: seq<Byte>, c: Chain, depth: nat, fmt: bool)
    requires c.Link?
    ensures done + Print(Object(c), depth, fmt)
            == (done + if fmt then [BEGIN, NEWLINE] else [BEGIN]) + (PrintMembers(c, depth + 1, fmt) + Closing(depth, fmt))
  {
    hide PrintMembers, Tabs;
  }

  lemma MembersText(done: seq<Byte>, c: Chain, depth: nat, fmt: bool, close: seq<Byte>)
    requires c.Link?
    ensures done + (PrintMembers(c, depth, fmt) + close)
            == (done + Member(c, depth, fmt)) + (PrintMembers(c.next, depth, fmt) + close)
  {
    hide Member;
    assert PrintMembers(c, depth, fmt) == Member(c, depth, fmt) + PrintMembers(c.next, depth, fmt) by {
      MemberFirst(c, depth, fmt);
    }
  }

  lemma MemberFirst(c: Chain, depth: nat, fmt: bool)
    requires c.Link?
    ensures PrintMembers(c, depth, fmt) == Member(c, depth, fmt) + PrintMembers(c.next, depth, fmt)
  {
    hide Print, Quote, Tabs, When;
  }

  lemma MembersEnd(done: seq<Byte>, depth: nat, fmt: bool)
    ensures done + (PrintMembers(End, depth + 1, fmt) + Closing(depth, fmt)) == done + Closing(depth, fmt)
  {
    hide Closing;
    assert [] + Closing(depth, fmt) == Closing(depth, fmt);
  }

  lemma MemberSteps(done: seq<Byte>, c: Chain, depth: nat, fmt: bool)
    requires c.Link?
    ensures done + Member(c, depth, fmt)
            == ((((done + When(fmt, Tabs(depth))) + Quote(c.name)) + ([COLON] + When(fmt, [TAB]))) + Print(c.item, depth, fmt))
               + (When(c.next.Link?, [COMMA]) + When(fmt, [NEWLINE]))
    ensures |Member(c, depth, fmt)|
            == (if fmt then depth else 0) + |Quote(c.name)| + (if fmt then 2 else 1) + |Print(c.item, depth, fmt)|
               + (if c.next.Link? then 1 else 0) + (if fmt then 1 else 0)
  {
    hide Print, Quote, Tabs;
  }

  /** cJSON_PrintBuffered. The address that is returned is the start of the buffer. */
  method PrintBuffered(v: Json, prebuffer: nat, fmt: bool) returns (text: array<Byte>)
    requires Printable(v)
    ensures fresh(text) && Terminated(text, Print(v, 0, fmt))
  {
    hide Print, Terminated;
    var p := new PrintBuffer(prebuffer);
    var out := p.PrintValue(v, 0, fmt);
    assert [] + Print(v, 0, fmt) == Print(v, 0, fmt);
    text := p.buffer;
    assert out == 0;
  }

  /** For the inner object of {"": {"": null}}, formatted, the address returned is 1, its depth; its
      text starts at 7. */
  method NestedAddress(prebuffer: nat) returns (start: nat, out: nat)
    ensures start == 7 && out == 1
  {
    hide Terminated;
    var inner := Object(Link([], Json.Null, End));
    var p := new PrintBuffer(prebuffer);
    p.Append([BEGIN, NEWLINE], 3);
    p.PrintName([], 1, true);
    start := p.offset;
    assert Tabs(1) == [TAB];
    out := p.PrintValue(inner, 1, true);
  }

  // ----- a block for every value -----

  /** A new block with a text and its terminating zero at the start. */
  method NewBlock(text: seq<Byte>, room: nat) returns (out: array<Byte>)
    requires |text| < room
    ensures fresh(out) && out.Length == room && Terminated(out, text)
  {
    out := new Byte[room];
    var next := Copy(out, 0, text);
    out[next] := 0;
    assert out[..next] == out[..0] + text;
  }

  /** print_string_ptr without a buffer. */
  method StringBlock(str: seq<Byte>) returns (out: array<Byte>)
    requires Plain(str)
    ensures fresh(out) && Terminated(out, Quote(str))
  {
    hide Quote;
    var flag, len := MeasureString(str);
    out := new Byte[len + 3];
    StoreString(out, 0, str, flag);
    assert [] + Quote(str) == Quote(str);
  }

  /** print_value without a buffer. */
  method ValueBlock(v: Json, depth: nat, fmt: bool) returns (out: array<Byte>)
    requires Printable(v)
    ensures fresh(out) && Terminated(out, Print(v, depth, fmt))
    decreases v, 0
  {
    hide Quote, PrintNumber, PrintItems, PrintMembers, Tabs, Terminated;
    match v
    case Null => out := NewBlock(NULL, 5);
    case False => out := NewBlock(FALSE, 6);
    case True => out := NewBlock(TRUE, 5);
    case Number(z) =>
      IntLength(z);
      if z == 0 {
        PrintZero();
        out := NewBlock([ZERO], 2);
      } else {
        out := NewBlock(PrintNumber(z), 21);
      }
    case String(s) => out := StringBlock(s);
    case Array(c) => out := ArrayBlock(c, depth, fmt);
    case Object(c) => out := ObjectBlock(c, depth, fmt);
  }

  /** The chain from its k-th link on. */
  function From(c: Chain, k: nat): Chain {
    if k == 0 || c == End then c else From(c.next, k - 1)
  }

  function Count(c: Chain): nat {
    if c == End then 0 else 1 + Count(c.next)
  }

  lemma {:induction false} FromNext(c: Chain, k: nat)
    requires k < Count(c)
    ensures From(c, k).Link? && From(c, k + 1) == From(c, k).next
  {
    if k > 0 { FromNext(c.next, k - 1); }
  }

  /** Block k holds the text of the k-th item. */
  ghost predicate Entries(c: Chain, entries: seq<array<Byte>>, depth: nat, fmt: bool)
    reads set e | e in entries
  {
    forall k: nat :: k < |entries| ==> From(c, k).Link? && Terminated(entries[k], Print(From(c, k).item, depth, fmt))
  }

  /** Block k holds the quoted name of the k-th member. */
  ghost predicate Names(c: Chain, names: seq<array<Byte>>)
    reads set e | e in names
  {
    forall k: nat :: k < |names| ==> From(c, k).Link? && Terminated(names[k], Quote(From(c, k).name))
  }

  /** strlen of a block. */
  method TextLength(a: array<Byte>, ghost text: seq<Byte>) returns (n: nat)
    requires Terminated(a, text) && Plain(text)
    ensures n == |text|
  {
    n := StringLength(a, 0, text);
  }

  /** strlen and memcpy of a block. */
  method CopyBlock(a: array<Byte>, ptr: nat, block: array<Byte>, ghost text: seq<Byte>) returns (next: nat)
    requires Terminated(block, text) && Plain(text) && block != a && ptr + |text| <= a.Length
    modifies a
    ensures next == ptr + |text| && a[..next] == old(a[..ptr]) + text
  {
    var tmplen := TextLength(block, text);
    next := Copy(a, ptr, block[..tmplen]);
  }

  method ArrayBlock(c: Chain, depth: nat, fmt: bool) returns (out: array<Byte>)
    requires PrintableChain(c, false)
    ensures fresh(out) && Terminated(out, Print(Array(c), depth, fmt))
    decreases c, 2
  {
    hide Print, PrintItems, Printable, PrintableChain, Terminated, Entries;
    if c == End {
      EmptyArray(depth, fmt);
      out := NewBlock([OPEN, CLOSE], 3);
      return;
    }
    var entries, len := ItemTexts(c, depth + 1, fmt);
    out := new Byte[len];
    ComposeArray(c, depth, fmt, entries, out);
  }

  /** The loop that prints the items; len bounds the text. */
  method ItemTexts(c: Chain, depth: nat, fmt: bool) returns (entries: seq<array<Byte>>, len: nat)
    requires PrintableChain(c, false)
    ensures |entries| == Count(c) && (forall e <- entries :: fresh(e)) && Entries(c, entries, depth, fmt)
    ensures |PrintItems(c, depth, fmt)| + 5 <= len
    decreases c, 1
  {
    hide Print, PrintItems, Printable, PrintableChain, Terminated, Plain, Entries;
    entries, len := [], 5;
    NoEntries(c, depth, fmt);
    var child := c;
    while child.Link?
      invariant child == From(c, |entries|) && |entries| + Count(child) == Count(c)
      invariant PrintableChain(child, false)
      invariant forall e <- entries :: fresh(e)
      invariant Entries(c, entries, depth, fmt)
      invariant |PrintItems(c, depth, fmt)| + 5 <= len + |PrintItems(child, depth, fmt)|
      decreases child
    {
      ChainParts(child, false);
      var ret := ValueBlock(child.item, depth, fmt);
      PlainPrint(child.item, depth, fmt);
      var n := TextLength(ret, Print(child.item, depth, fmt));
      ItemLength(child, depth, fmt);
      FromNext(c, |entries|);
      len := len + n + 2 + if fmt then 1 else 0;
      EntriesMore(c, entries, ret, depth, fmt);
      entries := entries + [ret];
      child := child.next;
    }
    NoItems(depth, fmt);
  }

  /** The loop that puts the blocks together. */
  method ComposeArray(c: Chain, depth: nat, fmt: bool, entries: seq<array<Byte>>, out: array<Byte>)
    requires PrintableChain(c, false) && |entries| == Count(c) && Entries(c, entries, depth + 1, fmt)
    requires out !in entries && |PrintItems(c, depth + 1, fmt)| + 5 <= out.Length
    modifies out
    ensures Terminated(out, Print(Array(c), depth, fmt))
  {
    hide Print, PrintItems, Printable, PrintableChain, Terminated, Plain, Entries;
    ghost var text := [OPEN] + PrintItems(c, depth + 1, fmt);
    var ptr: nat := Store(out, 0, OPEN);
    out[ptr] := 0;
    ghost var child := c;
    assert out[..0] == [];
    for i := 0 to |entries|
      invariant ptr <= out.Length && child == From(c, i) && i + Count(child) == Count(c)
      invariant PrintableChain(child, false)
      invariant Entries(c, entries, depth + 1, fmt)
      invariant out[..ptr] + PrintItems(child, depth + 1, fmt) == text
    {
      ghost var done := out[..ptr];
      ItemNext(done, child, depth + 1, fmt);
      EntryAt(c, entries, depth + 1, fmt, i);
      ChainParts(child, false);
      PlainPrint(child.item, depth + 1, fmt);
      ptr := CopyBlock(out, ptr, entries[i], Print(child.item, depth + 1, fmt));
      if i != |entries| - 1 {
        ptr := Copy(out, ptr, if fmt then [COMMA, BLANK] else [COMMA]);
        out[ptr] := 0;
      }
      FromNext(c, i);
      child := child.next;
    }
    NoItems(depth + 1, fmt);
    ptr := Store(out, ptr, CLOSE);
    out[ptr] := 0;
    assert Print(Array(c), depth, fmt) == text + [CLOSE] by { ArrayWhole(c, depth, fmt); }
    EndBlock(out, ptr, text + [CLOSE]);
  }

  lemma ArrayWhole(c: Chain, depth: nat, fmt: bool)
    ensures Print(Array(c), depth, fmt) == [OPEN] + PrintItems(c, depth + 1, fmt) + [CLOSE]
  {}

  lemma EndBlock(a: array<Byte>, ptr: nat, text: seq<Byte>)
    requires ptr < a.Length && a[..ptr] == text && a[ptr] == 0
    ensures Terminated(a, text)
  {}

  lemma EntryAt(c: Chain, entries: seq<array<Byte>>, depth: nat, fmt: bool, k: nat)
    requires Entries(c, entries, depth, fmt) && k < |entries|
    ensures From(c, k).Link? && Terminated(entries[k], Print(From(c, k).item, depth, fmt))
  {}

  lemma EntriesMore(c: Chain, entries: seq<array<Byte>>, e: array<Byte>, depth: nat, fmt: bool)
    requires Entries(c, entries, depth, fmt)
    requires From(c, |entries|).Link? && Terminated(e, Print(From(c, |entries|).item, depth, fmt))
    ensures Entries(c, entries + [e], depth, fmt)
  {}

  lemma NamesMore(c: Chain, names: seq<array<Byte>>, e: array<Byte>)
    requires Names(c, names) && From(c, |names|).Link? && Terminated(e, Quote(From(c, |names|).name))
    ensures Names(c, names + [e])
  {}

  lemma NoEntries(c: Chain, depth: nat, fmt: bool)
    ensures Entries(c, [], depth, fmt) && Names(c, [])
  {}

  lemma NameAt(c: Chain, names: seq<array<Byte>>, k: nat)
    requires Names(c, names) && k < |names|
    ensures From(c, k).Link? && Terminated(names[k], Quote(From(c, k).name))
  {}

  lemma ItemLength(c: Chain, depth: nat, fmt: bool)
    requires c.Link?
    ensures |PrintItems(c, depth, fmt)| <= |Print(c.item, depth, fmt)| + 2 + (if fmt then 1 else 0) + |PrintItems(c.next, depth, fmt)|
  {
    hide Print;
  }

  lemma NoItems(depth: nat, fmt: bool)
    ensures PrintItems(End, depth, fmt) == []
  {}

  lemma ItemNext(done: seq<Byte>, c: Chain, depth: nat, fmt: bool)
    requires c.Link?
    ensures done + PrintItems(c, depth, fmt) == (done + Item(c, depth, fmt)) + PrintItems(c.next, depth, fmt)
    ensures done + Item(c, depth, fmt)
            == (done + Print(c.item, depth, fmt)) + When(c.next.Link?, if fmt then [COMMA, BLANK] else [COMMA])
  {
    hide Item, Print, PrintItems, When;
    ItemFirst(c, depth, fmt);
    Assoc(done, Item(c, depth, fmt), PrintItems(c.next, depth, fmt));
    ItemParts(c, depth, fmt);
    Assoc(done, Print(c.item, depth, fmt), When(c.next.Link?, if fmt then [COMMA, BLANK] else [COMMA]));
  }

  lemma ItemParts(c: Chain, depth: nat, fmt: bool)
    requires c.Link?
    ensures Item(c, depth, fmt) == Print(c.item, depth, fmt) + When(c.next.Link?, if fmt then [COMMA, BLANK] else [COMMA])
  {
    hide Print, When;
  }

  method ObjectBlock(c: Chain, depth: nat, fmt: bool) returns (out: array<Byte>)
    requires PrintableChain(c, true)
    ensures fresh(out) && Terminated(out, Print(Object(c), depth, fmt))
    decreases c, 2
  {
    hide Print, PrintMembers, Printable, PrintableChain, Terminated, Entries, Names;
    if c == End {
      EmptyObject(depth, fmt);
      out := NewBlock([BEGIN] + When(fmt, [NEWLINE] + Tabs(depth - 1)) + [FINISH], if fmt then depth + 4 else 3);
      return;
    }
    var names, entries, len := MemberTexts(c, depth + 1, fmt);
    out := new Byte[len];
    ComposeObject(c, depth, fmt, names, entries, out);
  }

  method MemberTexts(c: Chain, depth: nat, fmt: bool) returns (names: seq<array<Byte>>, entries: seq<array<Byte>>, len: nat)
    requires PrintableChain(c, true)
    ensures |names| == |entries| == Count(c)
    ensures (forall e <- names :: fresh(e)) && (forall e <- entries :: fresh(e))
    ensures Names(c, names) && Entries(c, entries, depth, fmt)
    ensures |PrintMembers(c, depth, fmt)| + 7 + (if fmt then depth else 0) <= len
    decreases c, 1
  {
    hide Print, PrintMembers, Printable, PrintableChain, Terminated, Quote, Plain, Entries, Names;
    names, entries, len := [], [], 7 + if fmt then depth else 0;
    NoEntries(c, depth, fmt);
    ghost var start := len;
    var child := c;
    while child.Link?
      invariant |names| == |entries|
      invariant child == From(c, |entries|) && |entries| + Count(child) == Count(c)
      invariant PrintableChain(child, true)
      invariant (forall e <- names :: fresh(e)) && (forall e <- entries :: fresh(e))
      invariant Names(c, names) && Entries(c, entries, depth, fmt)
      invariant |PrintMembers(c, depth, fmt)| + start <= len + |PrintMembers(child, depth, fmt)|
      decreases child
    {
      ChainParts(child, true);
      var str := StringBlock(child.name);
      var ret := ValueBlock(child.item, depth, fmt);
      PlainQuote(child.name);
      PlainPrint(child.item, depth, fmt);
      var r := TextLength(ret, Print(child.item, depth, fmt));
      var n := TextLength(str, Quote(child.name));
      MemberLength(child, depth, fmt);
      FromNext(c, |entries|);
      len := len + r + n + 2 + if fmt then 2 + depth else 0;
      NamesMore(c, names, str);
      names := names + [str];
      EntriesMore(c, entries, ret, depth, fmt);
      entries := entries + [ret];
      child := child.next;
    }
    NoMembers(depth, fmt);
  }

  method ComposeObject(c: Chain, depth: nat, fmt: bool, names: seq<array<Byte>>, entries: seq<array<Byte>>, out: array<Byte>)
    requires c.Link? && PrintableChain(c, true) && |names| == |entries| == Count(c)
    requires Names(c, names) && Entries(c, entries, depth + 1, fmt)
    requires out !in names && out !in entries && |PrintMembers(c, depth + 1, fmt)| + 7 + (if fmt then depth + 1 else 0) <= out.Length
    modifies out
    ensures Terminated(out, Print(Object(c), depth, fmt))
  {
    hide Print, PrintMembers, Printable, PrintableChain, Quote, Terminated, Plain, Names, Entries, Member;
    ghost var start := if fmt then [BEGIN, NEWLINE] else [BEGIN];
    ghost var text := start + PrintMembers(c, depth + 1, fmt);
    assert out[..0] == [];
    var ptr: nat := Copy(out, 0, if fmt then [BEGIN, NEWLINE] else [BEGIN]);
    out[ptr] := 0;
    ghost var child := c;
    for i := 0 to |entries|
      invariant ptr <= out.Length && child == From(c, i) && i + Count(child) == Count(c)
      invariant PrintableChain(child, true)
      invariant Names(c, names) && Entries(c, entries, depth + 1, fmt)
      invariant out[..ptr] + PrintMembers(child, depth + 1, fmt) == text
    {
      MemberNext(out[..ptr], child, depth + 1, fmt);
      ChainParts(child, true);
      FromNext(c, i);
      NameAt(c, names, i);
      EntryAt(c, entries, depth + 1, fmt, i);
      ptr := ComposeMember(child, depth + 1, fmt, names[i], entries[i], out, ptr, i != |entries| - 1);
      child := child.next;
    }
    NoMembers(depth + 1, fmt);
    ptr := Copy(out, ptr, Closing(depth, fmt));
    out[ptr] := 0;
    assert Print(Object(c), depth, fmt) == text + Closing(depth, fmt) by { ObjectWhole(c, depth, fmt); }
    EndBlock(out, ptr, text + Closing(depth, fmt));
  }

  lemma ObjectWhole(c: Chain, depth: nat, fmt: bool)
    requires c.Link?
    ensures Print(Object(c), depth, fmt)
            == (if fmt then [BEGIN, NEWLINE] else [BEGIN]) + PrintMembers(c, depth + 1, fmt) + Closing(depth, fmt)
  {
    hide PrintMembers, Tabs;
  }

  /** One turn of that loop. */
  method ComposeMember(ghost c: Chain, depth: nat, fmt: bool, name: array<Byte>, entry: array<Byte>, out: array<Byte>, from: nat, more: bool)
    returns (ptr: nat)
    requires c.Link? && Plain(c.name) && Printable(c.item) && (more <==> c.next.Link?)
    requires Terminated(name, Quote(c.name)) && Terminated(entry, Print(c.item, depth, fmt)) && name != out && entry != out
    requires from + |Member(c, depth, fmt)| < out.Length
    modifies out
    ensures ptr == from + |Member(c, depth, fmt)| && out[..ptr] == old(out[..from]) + Member(c, depth, fmt)
  {
    hide Print, Quote, Printable, Terminated, Plain, Tabs, Member;
    MemberSteps(out[..from], c, depth, fmt);
    PlainQuote(c.name);
    PlainPrint(c.item, depth, fmt);
    ptr := Copy(out, from, When(fmt, Tabs(depth)));
    ptr := CopyBlock(out, ptr, name, Quote(c.name));
    ptr := Copy(out, ptr, [COLON] + When(fmt, [TAB]));
    ptr := CopyBlock(out, ptr, entry, Print(c.item, depth, fmt));
    ptr := Copy(out, ptr, When(more, [COMMA]) + When(fmt, [NEWLINE]));
    out[ptr] := 0;
  }

  lemma MemberLength(c: Chain, depth: nat, fmt: bool)
    requires c.Link?
    ensures |PrintMembers(c, depth, fmt)|
            <= |Print(c.item, depth, fmt)| + |Quote(c.name)| + 2 + (if fmt then 2 + depth else 0) + |PrintMembers(c.next, depth, fmt)|
  {
    hide Print, Quote, Tabs;
  }

  lemma NoMembers(depth: nat, fmt: bool)
    ensures PrintMembers(End, depth, fmt) == []
  {}

  lemma MemberNext(done: seq<Byte>, c: Chain, depth: nat, fmt: bool)
    requires c.Link?
    ensures done + PrintMembers(c, depth, fmt) == (done + Member(c, depth, fmt)) + PrintMembers(c.next, depth, fmt)
  {
    hide Member;
    MemberFirst(c, depth, fmt);
  }
}
