/** Printed replies are read back whatever the chunking, and encoded commands say what was meant. */
module RespLaws {
  import opened Wrappers
  import opened Decimal
  import opened Resp

  // ---- printing replies ------------------------------------------------------------

  function Digits(n: nat): (s: Bytes)
    ensures s == Print(n) && s != [] && AllDigits(s)
  {
    Print(n)
  }

  function ShowInt(i: int): Bytes {
    if i < 0 then ['-'] + Digits(-i) else Digits(i)
  }

  /** A reply on the wire. */
  function Show(r: Reply): Bytes
    decreases r, 0
  {
    match r
    case Simple(body) => ['+'] + body + CRLF
    case Integer(i) => [':'] + ShowInt(i) + CRLF
    case Bulk(data) => ['$'] + Digits(|data|) + CRLF + data + CRLF
    case Nil => ['$', '-', '1'] + CRLF
    case Array(items) => ['*'] + Digits(|items|) + CRLF + ShowAll(items)
  }

  function ShowAll(rs: seq<Reply>): Bytes
    decreases rs, 1
  {
    if rs == [] then [] else Show(rs[0]) + ShowAll(rs[1..])
  }

  /** No simple string, at any depth, holds a CRLF. */
  predicate Clean(r: Reply)
    decreases r
  {
    match r
    case Simple(body) => !HasCrlf(body)
    case Array(items) => forall i :: 0 <= i < |items| ==> Clean(items[i])
    case _ => true
  }

  // ---- lines -----------------------------------------------------------------------

  /** A line without a CRLF of its own ends at the CRLF put after it. */
  lemma {:induction false} LineEnds(line: Bytes, tail: Bytes)
    requires !HasCrlf(line)
    ensures CrlfAt(line + CRLF + tail) == |line|
  {
    var t := line + CRLF + tail;
    if line != [] {
      assert t[1..] == line[1..] + CRLF + tail;
      NoCrlfInTail(line);
      LineEnds(line[1..], tail);
      if |line| == 1 { assert t[1] == '\r'; }
    }
  }

  lemma NoCrlfInTail(line: Bytes)
    requires line != [] && !HasCrlf(line)
    ensures !HasCrlf(line[1..]) && (|line| > 1 ==> !(line[0] == '\r' && line[1] == '\n'))
  {
  }

  lemma {:induction false} NoReturnNoCrlf(s: Bytes)
    requires forall i :: 0 <= i < |s| ==> s[i] != '\r'
    ensures !HasCrlf(s)
  {
    if |s| >= 2 { NoReturnNoCrlf(s[1..]); }
  }

  lemma TagNoCrlf(tag: Byte, body: Bytes)
    requires tag != '\r' && !HasCrlf(body)
    ensures !HasCrlf([tag] + body)
  {
    assert ([tag] + body)[1..] == body;
  }

  // ---- integers --------------------------------------------------------------------

  lemma {:induction false} NothingToStrip(s: string)
    requires s != "" && !IsSpace(s[0]) && !IsSpace(s[|s| - 1])
    ensures StripRight(StripLeft(s)) == s
  {
  }

  lemma {:induction false} NoUnderscores(s: string)
    requires AllDigits(s)
    ensures DropUnderscores(s) == s
  {
    if s != "" {
      NoUnderscores(s[..|s| - 1]);
      assert s == s[..|s| - 1] + [s[|s| - 1]];
    }
  }

  lemma UnsignedOfDigits(s: string)
    requires s != "" && AllDigits(s)
    ensures Unsigned(s) == Some(Read(s))
  {
    NoUnderscores(s);
  }

  lemma UnsignedOfPrinted(n: nat)
    ensures Unsigned(Digits(n)) == Some(n)
  {
    UnsignedOfDigits(Digits(n));
    ReadPrint(n);
  }

  lemma SignedOfPlain(s: string, n: nat)
    requires s != "" && IsDigit(s[0]) && Unsigned(s) == Some(n)
    ensures Signed(s) == Some(n)
  {
  }

  lemma SignedOfMinus(s: string, t: string, n: nat)
    requires t != "" && t[0] == '-' && t[1..] == s && Unsigned(s) == Some(n)
    ensures Signed(t) == Some(-(n as int))
  {
  }

  lemma ShownIsStripped(i: int)
    ensures StripRight(StripLeft(ShowInt(i))) == ShowInt(i)
  {
    var s := ShowInt(i);
    assert IsDigit(Digits(if i < 0 then -i else i)[0]);
    var d := Digits(if i < 0 then -i else i);
    assert s[|s| - 1] == d[|d| - 1] && IsDigit(d[|d| - 1]);
    NothingToStrip(s);
  }

  lemma SignedOfShown(i: int)
    ensures Signed(ShowInt(i)) == Some(i)
  {
    var digits := Digits(if i < 0 then -i else i);
    UnsignedOfPrinted(if i < 0 then -i else i);
    if i < 0 {
      assert ShowInt(i)[1..] == digits;
      SignedOfMinus(digits, ShowInt(i), -i);
    } else {
      SignedOfPlain(digits, i);
    }
  }

  /** Python's `int` reads back what a number prints as. */
  lemma PyIntOfShown(i: int)
    ensures PyInt(ShowInt(i)) == Some(i)
  {
    ShownIsStripped(i);
    SignedOfShown(i);
  }

  lemma ShownHasNoCrlf(i: int)
    ensures !HasCrlf(ShowInt(i))
  {
    var s := ShowInt(i);
    forall k | 0 <= k < |s| ensures s[k] != '\r' {
      if i < 0 && k > 0 { assert IsDigit(Digits(-i)[k - 1]); }
    }
    NoReturnNoCrlf(s);
  }

  // ---- one header line -------------------------------------------------------------

  /** Reading past a header line: the tag, the body, and what follows. */
  lemma HeaderSplits(tag: Byte, body: Bytes, tail: Bytes)
    requires tag != '\r' && !HasCrlf(body)
    ensures var t := [tag] + body + CRLF + tail;
            && HasCrlf(t) && CrlfAt(t) == 1 + |body|
            && t[..CrlfAt(t)] == [tag] + body && t[CrlfAt(t) + 2..] == tail
  {
    TagNoCrlf(tag, body);
    LineEnds([tag] + body, tail);
  }

  lemma ParseHeader(tag: Byte, n: int, tail: Bytes)
    requires tag == ':' || tag == '$' || tag == '*'
    ensures Parse([tag] + ShowInt(n) + CRLF + tail) == ParseSized(tag, n, tail)
  {
    ShownHasNoCrlf(n);
    HeaderSplits(tag, ShowInt(n), tail);
    LineOf(tag, n, [tag] + ShowInt(n), tail);
  }

  lemma SizedLine(line: Bytes, n: int, rest: Bytes)
    requires line != [] && (line[0] == ':' || line[0] == '$' || line[0] == '*') && PyInt(line[1..]) == Some(n)
    ensures ParseLine(line, rest) == ParseSized(line[0], n, rest)
  {
  }

  lemma LineOf(tag: Byte, n: int, line: Bytes, tail: Bytes)
    requires (tag == ':' || tag == '$' || tag == '*') && line == [tag] + ShowInt(n)
    ensures ParseLine(line, tail) == ParseSized(tag, n, tail)
  {
    assert line[0] == tag && line[1..] == ShowInt(n);
    PyIntOfShown(n);
    SizedLine(line, n, tail);
  }

  // ---- round trip ------------------------------------------------------------------

  lemma Reassociate(a: Bytes, b: Bytes, c: Bytes, d: Bytes)
    ensures a + b + c + d == a + b + (c + d)
  {
  }

  lemma ParseShownSimple(body: Bytes, tail: Bytes)
    requires !HasCrlf(body)
    ensures Parse(Show(Simple(body)) + tail) == Parsed(Simple(body), tail)
  {
    HeaderSplits('+', body, tail);
    var line := ['+'] + body;
    assert line[0] == '+' && line[1..] == body;
  }

  lemma ParseShownBulk(data: Bytes, tail: Bytes)
    ensures Parse(Show(Bulk(data)) + tail) == Parsed(Bulk(data), tail)
  {
    ParseHeader('$', |data|, data + CRLF + tail);
    assert Show(Bulk(data)) + tail == ['$'] + ShowInt(|data|) + CRLF + (data + CRLF + tail);
    ShownBulkSplits(data, tail);
  }

  lemma ShownBulkSplits(data: Bytes, tail: Bytes)
    ensures ParseBulk(data + CRLF + tail, |data|) == Parsed(Bulk(data), tail)
  {
    var t := data + CRLF + tail;
    assert t[..|data|] == data && t[|data| + 2..] == tail;
  }

  lemma ShowNil()
    ensures Show(Nil) == ['$'] + ShowInt(-1) + CRLF
  {
    assert Digits(1) == ['1'];
  }

  lemma ParseShownNil(tail: Bytes)
    ensures Parse(Show(Nil) + tail) == Parsed(Nil, tail)
  {
    ShowNil();
    ParseHeader('$', -1, tail);
  }

  lemma ParseShownArray(items: seq<Reply>, tail: Bytes)
    requires ParseMany(ShowAll(items) + tail, |items|, []) == Parsed(Array(items), tail)
    ensures Parse(Show(Array(items)) + tail) == Parsed(Array(items), tail)
  {
    ParseHeader('*', |items|, ShowAll(items) + tail);
    ShowArray(items, tail);
  }

  lemma ShowArray(items: seq<Reply>, tail: Bytes)
    ensures Show(Array(items)) + tail == ['*'] + ShowInt(|items|) + CRLF + (ShowAll(items) + tail)
  {
    Reassociate(['*'] + ShowInt(|items|), CRLF, ShowAll(items), tail);
  }

  ghost predicate ReadsBack(r: Reply, tail: Bytes) {
    Parse(Show(r) + tail) == Parsed(r, tail)
  }

  ghost predicate AllReadBack(rs: seq<Reply>, tail: Bytes, read: seq<Reply>) {
    ParseMany(ShowAll(rs) + tail, |rs|, read) == Parsed(Array(read + rs), tail)
  }

  lemma ParseManyStep(t: Bytes, n: nat, read: seq<Reply>, r: Reply, rest: Bytes)
    requires n > 0 && Parse(t) == Parsed(r, rest)
    ensures ParseMany(t, n, read) == ParseMany(rest, n - 1, read + [r])
  {
  }

  lemma ReadBackNone(tail: Bytes, read: seq<Reply>)
    ensures AllReadBack([], tail, read)
  {
    assert ShowAll([]) + tail == tail && read + [] == read;
  }

  lemma ReadBackCons(rs: seq<Reply>, tail: Bytes, read: seq<Reply>)
    requires rs != [] && ReadsBack(rs[0], ShowAll(rs[1..]) + tail) && AllReadBack(rs[1..], tail, read + [rs[0]])
    ensures AllReadBack(rs, tail, read)
  {
    var rest := ShowAll(rs[1..]) + tail;
    assert ShowAll(rs) + tail == Show(rs[0]) + rest;
    ParseManyStep(ShowAll(rs) + tail, |rs|, read, rs[0], rest);
    assert read + [rs[0]] + rs[1..] == read + rs;
  }

  lemma ReadBackArray(items: seq<Reply>, tail: Bytes)
    requires AllReadBack(items, tail, [])
    ensures ReadsBack(Array(items), tail)
  {
    assert [] + items == items;
    ParseShownArray(items, tail);
  }

  /** A clean reply of any depth is read back, and reading stops right behind it. */
  lemma {:induction false} ParseShown(r: Reply, tail: Bytes)
    requires Clean(r)
    ensures ReadsBack(r, tail)
    decreases r, 0
  {
    match r
    case Simple(body) => ParseShownSimple(body, tail);
    case Integer(i) => ParseHeader(':', i, tail);
    case Bulk(data) => ParseShownBulk(data, tail);
    case Nil => ParseShownNil(tail);
    case Array(items) =>
      ParseManyShown(items, tail, []);
      ReadBackArray(items, tail);
  }

  lemma {:induction false} ParseManyShown(rs: seq<Reply>, tail: Bytes, read: seq<Reply>)
    requires forall i :: 0 <= i < |rs| ==> Clean(rs[i])
    ensures AllReadBack(rs, tail, read)
    decreases rs, 1
  {
    if rs == [] {
      ReadBackNone(tail, read);
    } else {
      ParseShown(rs[0], ShowAll(rs[1..]) + tail);
      ParseManyShown(rs[1..], tail, read + [rs[0]]);
      ReadBackCons(rs, tail, read);
    }
  }

  lemma LineIsClean(t: Bytes)
    requires HasCrlf(t)
    ensures !HasCrlf(t[..CrlfAt(t)])
  {
    PrefixHasNoCrlf(t, CrlfAt(t));
  }

  lemma {:induction false} PrefixHasNoCrlf(t: Bytes, n: nat)
    requires n <= CrlfAt(t)
    ensures !HasCrlf(t[..n])
  {
    if n >= 2 {
      PrefixHasNoCrlf(t[1..], n - 1);
      assert t[..n][1..] == t[1..][..n - 1];
    }
  }

  lemma TailHasNoCrlf(line: Bytes)
    requires line != [] && !HasCrlf(line)
    ensures !HasCrlf(line[1..])
  {
  }

  /** The parser never yields a simple string with a CRLF in it. */
  lemma {:induction false} ParsedIsClean(t: Bytes)
    requires Parse(t).Parsed?
    ensures Clean(Parse(t).reply)
    decreases |t|, 0
  {
    LineIsClean(t);
    ParsedLineIsClean(t[..CrlfAt(t)], t[CrlfAt(t) + 2..]);
  }

  lemma {:induction false} ParsedLineIsClean(line: Bytes, rest: Bytes)
    requires !HasCrlf(line) && ParseLine(line, rest).Parsed?
    ensures Clean(ParseLine(line, rest).reply)
    decreases |rest|, 2, 1
  {
    TailHasNoCrlf(line);
    if line[0] == '*' { ParsedArrayIsClean(PyInt(line[1..]).value, rest); }
  }

  lemma {:induction false} ParsedArrayIsClean(n: int, rest: Bytes)
    requires ParseSized('*', n, rest).Parsed?
    ensures Clean(ParseSized('*', n, rest).reply)
    decreases |rest|, 2, 0
  {
    if n != -1 { ManyParsedAreClean(rest, if n < 0 then 0 else n, []); }
  }

  lemma {:induction false} ManyParsedAreClean(t: Bytes, n: nat, read: seq<Reply>)
    requires ParseMany(t, n, read).Parsed? && forall i :: 0 <= i < |read| ==> Clean(read[i])
    ensures Clean(ParseMany(t, n, read).reply)
    decreases |t|, 1
  {
    if n > 0 {
      ParsedIsClean(t);
      ManyParsedAreClean(Parse(t).rest, n - 1, read + [Parse(t).reply]);
    }
  }

  /** Exactly the replies without a CRLF in a simple string survive printing and reading. */
  lemma ReplyRoundTripsIff(r: Reply, tail: Bytes)
    ensures Parse(Show(r) + tail) == Parsed(r, tail) <==> Clean(r)
  {
    if Clean(r) { ParseShown(r, tail); }
    if Parse(Show(r) + tail) == Parsed(r, tail) { ParsedIsClean(Show(r) + tail); }
  }

  // ---- bulk lengths below -1 -------------------------------------------------------

  /** What the code makes of a bulk length `n` when `k` of the bytes behind the line are in the buffer. */
  function SlicedAt(t: Bytes, n: int, k: nat): (Bytes, Bytes)
    requires k <= |t|
  {
    (PyPrefix(t[..k], n), PyDrop(t[..k], n + 2) + t[k..])
  }

  lemma SlicedShort(t: Bytes, n: int, k: nat)
    requires n < -1 && |t| <= Harmless(n) && k <= |t|
    ensures SlicedAt(t, n, k) == ([], t)
  {
    assert t[..k] + t[k..] == t;
    ShortBuffer(t[..k], t[k..], n);
  }

  /** With nothing buffered the bulk string is empty and nothing is dropped; with everything, one of them differs. */
  lemma SlicedLong(t: Bytes, n: int)
    requires n < -1 && |t| > Harmless(n)
    ensures SlicedAt(t, n, 0) == ([], t) && SlicedAt(t, n, |t|) != ([], t)
  {
    assert t[..0] == [] && t[0..] == t && [] + t == t && t[..|t|] == t && t[|t|..] == [];
    if n == -2 {
      assert |PyPrefix(t, n)| == |t| - 2;
    } else {
      assert |PyDrop(t, n + 2) + []| == -(n + 2);
    }
  }

  /** The bulk string and the position after it are the same however much is buffered exactly up to `Harmless` bytes. */
  lemma BufferMattersIff(t: Bytes, n: int)
    requires n < -1
    ensures (forall k: nat, m: nat :: k <= |t| && m <= |t| ==> SlicedAt(t, n, k) == SlicedAt(t, n, m)) <==>
            |t| <= Harmless(n)
    ensures ParseBulk(t, n).DependsOnBuffer? <==> |t| > Harmless(n)
  {
    if |t| <= Harmless(n) {
      forall k: nat, m: nat | k <= |t| && m <= |t| ensures SlicedAt(t, n, k) == SlicedAt(t, n, m) {
        SlicedShort(t, n, k);
        SlicedShort(t, n, m);
      }
    } else {
      SlicedLong(t, n);
    }
  }

  lemma MinusThreeLine(tail: Bytes)
    ensures var t: Bytes := ['$', '-', '3'] + CRLF + tail;
            CrlfAt(t) == 3 && t[5..] == tail && NegativeBulk(t) == Some(-3)
  {
    assert Digits(3) == ['3'];
    assert ShowInt(-3) == ['-', '3'];
    ShownHasNoCrlf(-3);
    HeaderSplits('$', ShowInt(-3), tail);
    assert ['$'] + ShowInt(-3) + CRLF + tail == ['$', '-', '3'] + CRLF + tail;
    PyIntOfShown(-3);
    var t: Bytes := ['$', '-', '3'] + CRLF + tail;
    assert t[1..3] == ShowInt(-3);
  }

  lemma FlatOne(t: Bytes)
    ensures Flat([t]) == t
  {
    assert [t][1..] == [] && t + [] == t;
  }

  lemma FlatTwo(line: Bytes, data: Bytes)
    requires line != []
    ensures Flat([line, data]) == line + data
  {
    FlatOne(data);
    assert [line, data][1..] == [data];
  }

  lemma AfterFirstChunk(line: Bytes, more: seq<Bytes>, data: Bytes)
    requires line != [] && HasCrlf(line + data)
    ensures AfterLine([], [line + data] + more) == ((line + data)[CrlfAt(line + data) + 2..], more)
  {
    var t := line + data;
    assert ([t] + more)[1..] == more && [] + t == t;
    assert AfterLine(t, more) == (t[CrlfAt(t) + 2..], more);
  }

  method ReadAtOnce(data: Bytes) returns (r: Result<Reply, RespError>)
    ensures r == Success(Bulk(PyPrefix(data, -3)))
  {
    var line: Bytes := ['$', '-', '3'] + CRLF;
    MinusThreeLine(data);
    FlatOne(line + data);
    AfterFirstChunk(line, [], data);
    assert [line + data] + [] == [line + data];
    var reader := new Reader([line + data]);
    assert reader.Stream() == line + data;
    r := reader.ParseReply();
  }

  method ReadInTwo(data: Bytes) returns (r: Result<Reply, RespError>)
    ensures r == Success(Bulk([]))
  {
    var line: Bytes := ['$', '-', '3'] + CRLF;
    MinusThreeLine(data);
    MinusThreeLine([]);
    FlatTwo(line, data);
    assert line + [] == line && [line] + [data] == [line, data] && line[5..] == [];
    AfterFirstChunk(line, [data], []);
    var reader := new Reader([line, data]);
    assert reader.Stream() == line + data;
    r := reader.ParseReply();
  }

  /** The same bytes, received at once and in two pieces, are read as "a" and as the empty string. */
  method NegativeLengthDependsOnChunks() returns (whole: Result<Reply, RespError>, pieces: Result<Reply, RespError>)
    ensures whole == Success(Bulk(['a'])) && pieces == Success(Bulk([]))
  {
    var data: Bytes := ['a', 'b', 'c', 'd'];
    assert PyPrefix(data, -3) == ['a'];
    whole := ReadAtOnce(data);
    pieces := ReadInTwo(data);
  }
}
