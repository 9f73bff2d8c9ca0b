/**
 * The streaming RESP reader of `redis-pubsub-exporter.py`: a recursive parser over a buffer that is
 * refilled from the socket, and its flat specification.
 */
module Resp {
  import opened Wrappers
  import opened Decimal

  /** A byte, written as the character of the same code. */
  type Byte = c: char | (c as int) < 256 witness '0'

  type Bytes = seq<Byte>

  const CRLF: Bytes := "\r\n"

  datatype Reply = Simple(body: Bytes) | Integer(value: int) | Bulk(data: Bytes) | Nil | Array(items: seq<Reply>)

  datatype RespError = Closed | EmptyReply | ErrorReply(body: Bytes) | BadInteger(body: Bytes)
      | Unsupported(line: Bytes)

  // ---- lines and integers ----------------------------------------------------------

  /** Where the first CRLF starts, or the length when there is none. */
  function CrlfAt(t: Bytes): (i: nat)
    ensures i < |t| ==> i + 2 <= |t|
    ensures i <= |t|
  {
    if |t| < 2 then |t|
    else if t[0] == '\r' && t[1] == '\n' then 0
    else 1 + CrlfAt(t[1..])
  }

  predicate HasCrlf(t: Bytes) {
    CrlfAt(t) < |t|
  }

  predicate IsSpace(c: char) {
    c == ' ' || ('\t' <= c <= '\r')
  }

  function StripLeft(s: string): string {
    if s != "" && IsSpace(s[0]) then StripLeft(s[1..]) else s
  }

  function StripRight(s: string): string {
    if s != "" && IsSpace(s[|s| - 1]) then StripRight(s[..|s| - 1]) else s
  }

  /** Digits with single underscores between them, as Python's `int` reads them. */
  predicate IsNumeral(s: string) {
    && s != "" && IsDigit(s[0]) && IsDigit(s[|s| - 1])
    && forall i :: 0 < i < |s| ==> IsDigit(s[i]) || (s[i] == '_' && s[i - 1] != '_')
  }

  function DropUnderscores(s: string): (r: string) {
    if s == "" then ""
    else DropUnderscores(s[..|s| - 1]) + (if s[|s| - 1] == '_' then "" else [s[|s| - 1]])
  }

  function Unsigned(numeral: string): Option<nat> {
    var digits := DropUnderscores(numeral);
    if IsNumeral(numeral) && AllDigits(digits) then Some(Read(digits)) else None
  }

  function Negated(n: Option<nat>): Option<int> {
    if n.Some? then Some(-(n.value as int)) else None
  }

  function Signed(s: string): Option<int> {
    if s != "" && s[0] == '-' then Negated(Unsigned(s[1..]))
    else if s != "" && s[0] == '+' then Unsigned(s[1..])
    else Unsigned(s)
  }

  /** `int(body)`; `None` is its `ValueError`. */
  function PyInt(body: string): Option<int> {
    Signed(StripRight(StripLeft(body)))
  }

  // ---- the flat specification ------------------------------------------------------

  /**
   * The result of reading one reply off a byte stream. A bulk length below -1 makes the code slice the
   * buffer from its end, so that beyond `Harmless` bytes the result depends on how much was received.
   */
  datatype Outcome = Parsed(reply: Reply, rest: Bytes) | Failed(error: RespError) | DependsOnBuffer

  /** How many bytes may follow a bulk length `n` below -1 without the buffer mattering. */
  function Harmless(n: int): nat
    requires n < -1
  {
    if n == -2 then 2 else -n - 2
  }

  function ParseBulk(t: Bytes, n: int): Outcome {
    if n == -1 then Parsed(Nil, t)
    else if n < 0 then (if |t| <= Harmless(n) then Parsed(Bulk([]), t) else DependsOnBuffer)
    else if |t| < n + 2 then Failed(Closed)
    else Parsed(Bulk(t[..n]), t[n + 2..])
  }

  function Parse(t: Bytes): (o: Outcome)
    ensures o.Parsed? ==> |o.rest| < |t|
    decreases |t|, 0
  {
    if HasCrlf(t) then ParseLine(t[..CrlfAt(t)], t[CrlfAt(t) + 2..]) else Failed(Closed)
  }

  /** The reply that starts with `line`. */
  function ParseLine(line: Bytes, rest: Bytes): (o: Outcome)
    ensures o.Parsed? ==> |o.rest| <= |rest|
    decreases |rest|, 2, 1
  {
    if line == [] then Failed(EmptyReply)
    else
      var tag, body := line[0], line[1..];
      if tag == '+' then Parsed(Simple(body), rest)
      else if tag == '-' then Failed(ErrorReply(body))
      else if tag == ':' || tag == '$' || tag == '*' then
        if PyInt(body).None? then Failed(BadInteger(body)) else ParseSized(tag, PyInt(body).value, rest)
      else Failed(Unsupported(line))
  }

  /** A reply whose line carries the integer `n`. */
  function ParseSized(tag: Byte, n: int, rest: Bytes): (o: Outcome)
    ensures o.Parsed? ==> |o.rest| <= |rest|
    decreases |rest|, 2, 0
  {
    if tag == ':' then Parsed(Integer(n), rest)
    else if tag == '$' then ParseBulk(rest, n)
    else if n == -1 then Parsed(Nil, rest)
    else ParseMany(rest, if n < 0 then 0 else n, [])
  }

  /** `n` more replies after those already read. */
  function ParseMany(t: Bytes, n: nat, read: seq<Reply>): (o: Outcome)
    ensures o.Parsed? ==> |o.rest| <= |t|
    decreases |t|, 1
  {
    if n == 0 then Parsed(Array(read), t)
    else
      var o := Parse(t);
      if o.Parsed? then ParseMany(o.rest, n - 1, read + [o.reply]) else o
  }

  // ---- the reader ------------------------------------------------------------------

  /** What the socket still delivers; an empty chunk is the end of the stream. */
  function Flat(chunks: seq<Bytes>): Bytes {
    if chunks == [] || chunks[0] == [] then [] else chunks[0] + Flat(chunks[1..])
  }

  /** Python's `s[:n]`: a negative `n` counts from the end. */
  function PyPrefix(s: Bytes, n: int): Bytes {
    if n < -|s| then [] else if n < 0 then s[..|s| + n] else if n > |s| then s else s[..n]
  }

  /** What `del s[:n]` leaves. */
  function PyDrop(s: Bytes, n: int): Bytes {
    if n < -|s| then s else if n < 0 then s[|s| + n..] else if n > |s| then [] else s[n..]
  }

  /** Buffer and chunks once the first line is read: no more is received than it takes to see its CRLF. */
  function AfterLine(buf: Bytes, chunks: seq<Bytes>): (Bytes, seq<Bytes>)
    decreases |chunks|
  {
    if HasCrlf(buf) then (buf[CrlfAt(buf) + 2..], chunks)
    else if chunks == [] || chunks[0] == [] then (buf, chunks)
    else AfterLine(buf + chunks[0], chunks[1..])
  }

  /** The length below -1 that the first line announces for a bulk string, if it does. */
  function NegativeBulk(t: Bytes): Option<int> {
    if HasCrlf(t) && CrlfAt(t) > 0 && t[0] == '$' && PyInt(t[1..CrlfAt(t)]).Some? && PyInt(t[1..CrlfAt(t)]).value < -1
    then PyInt(t[1..CrlfAt(t)]) else None
  }

  lemma LineSplits(buf: Bytes, more: Bytes, i: nat)
    requires i + 2 <= |buf|
    ensures (buf + more)[..i] == buf[..i] && (buf + more)[i + 2..] == buf[i + 2..] + more
  {
  }

  lemma BulkSplits(buf: Bytes, more: Bytes, n: nat)
    requires n + 2 <= |buf|
    ensures PyPrefix(buf, n) == (buf + more)[..n] && PyDrop(buf, n + 2) + more == (buf + more)[n + 2..]
  {
  }

  /** With few bytes left a negative slice is empty, and deleting from the end deletes nothing. */
  lemma ShortBuffer(buf: Bytes, more: Bytes, n: int)
    requires n < -1
    ensures |buf + more| <= Harmless(n) ==> PyPrefix(buf, n) == [] && PyDrop(buf, n + 2) + more == buf + more
  {
  }

  class Reader {
    var buf: Bytes
    var chunks: seq<Bytes>

    constructor (chunks: seq<Bytes>)
      ensures buf == [] && this.chunks == chunks && Stream() == Flat(chunks)
    {
      buf, this.chunks := [], chunks;
    }

    /** Everything not yet consumed: the buffer, then what the socket still delivers. */
    ghost function Stream(): Bytes
      reads this
    {
      buf + Flat(chunks)
    }

    /** One `recv`: false when the peer has closed. */
    method Refill() returns (ok: bool)
      modifies this
      ensures Stream() == old(Stream()) && old(buf) <= buf
      ensures ok <==> old(chunks) != [] && old(chunks)[0] != []
      ensures ok ==>
              buf == old(buf) + old(chunks)[0] && chunks == old(chunks)[1..] && |Flat(chunks)| < |old(Flat(chunks))|
      ensures !ok ==> buf == old(buf) == old(Stream()) && chunks == old(chunks)
    {
      if chunks == [] || chunks[0] == [] { return false; }
      var chunk := chunks[0];
      chunks := chunks[1..];
      buf := buf + chunk;
      return true;
    }

    method ReadLine() returns (r: Result<Bytes, RespError>)
      modifies this
      ensures r.Failure? <==> !HasCrlf(old(Stream()))
      ensures r.Failure? ==> r.error == Closed && Stream() == old(Stream())
      ensures r.Success? ==>
              var i := CrlfAt(old(Stream())); r.value == old(Stream())[..i] && Stream() == old(Stream())[i + 2..]
      ensures (buf, chunks) == AfterLine(old(buf), old(chunks))
    {
      while !HasCrlf(buf)
        invariant Stream() == old(Stream()) && AfterLine(buf, chunks) == AfterLine(old(buf), old(chunks))
        decreases |Flat(chunks)|
      {
        var ok := Refill();
        if !ok { return Failure(Closed); }
      }
      var i := CrlfAt(buf);
      CrlfIsStable(buf, Flat(chunks));
      LineSplits(buf, Flat(chunks), i);
      var line := buf[..i];
      buf := buf[i + 2..];
      return Success(line);
    }

    method ReadN(n: int) returns (r: Result<Bytes, RespError>)
      modifies this
      ensures n >= 0 ==> (r.Failure? <==> |old(Stream())| < n + 2)
      ensures r.Failure? ==> r.error == Closed
      ensures n >= 0 && r.Success? ==> r.value == old(Stream())[..n] && Stream() == old(Stream())[n + 2..]
      ensures n < -1 ==> r == Success(PyPrefix(old(buf), n)) && buf == PyDrop(old(buf), n + 2) && chunks == old(chunks)
      ensures |Stream()| <= |old(Stream())|
    {
      while |buf| < n + 2
        invariant Stream() == old(Stream())
        invariant n < -1 ==> buf == old(buf) && chunks == old(chunks)
        decreases |Flat(chunks)|
      {
        var ok := Refill();
        if !ok { return Failure(Closed); }
      }
      if n >= 0 { BulkSplits(buf, Flat(chunks), n); }
      var data := PyPrefix(buf, n);
      buf := PyDrop(buf, n + 2);
      return Success(data);
    }

    method ParseReply() returns (r: Result<Reply, RespError>)
      modifies this
      ensures Parse(old(Stream())).Parsed? ==>
              r == Success(Parse(old(Stream())).reply) && Stream() == Parse(old(Stream())).rest
      ensures Parse(old(Stream())).Failed? ==> r == Failure(Parse(old(Stream())).error)
      ensures NegativeBulk(old(Stream())).Some? ==>
                var n, (b, c) := NegativeBulk(old(Stream())).value, AfterLine(old(buf), old(chunks));
                r == Success(Bulk(PyPrefix(b, n))) && buf == PyDrop(b, n + 2) && chunks == c
      ensures HasCrlf(old(Stream())) && old(Stream())[0] == '-' ==>
                r == Failure(ErrorReply(old(Stream())[1..CrlfAt(old(Stream()))]))
      ensures r.Success? ==> |Stream()| < |old(Stream())|
      decreases |Stream()|, 0
    {
      ghost var t := Stream();
      var read := ReadLine();
      if read.Failure? { return Failure(read.error); }
      ghost var rest := Stream();
      assert Parse(t) == ParseLine(read.value, rest);
      var line := read.value;
      if line == [] { return Failure(EmptyReply); }
      var tag, body := line[0], line[1..];
      if tag == '+' { return Success(Simple(body)); }
      if tag == '-' { return Failure(ErrorReply(body)); }
      if tag != ':' && tag != '$' && tag != '*' { return Failure(Unsupported(line)); }
      var n := PyInt(body);
      if n.None? { return Failure(BadInteger(body)); }
      assert ParseLine(line, rest) == ParseSized(tag, n.value, rest);
      if tag == ':' { return Success(Integer(n.value)); }
      if n.value == -1 { return Success(Nil); }
      if tag == '$' {
        r := ReadBulk(n.value);
      } else {
        r := ParseItems(n.value);
      }
    }

    method ReadBulk(n: int) returns (r: Result<Reply, RespError>)
      requires n != -1
      modifies this
      ensures var o := ParseBulk(old(Stream()), n);
              && (o.Parsed? ==> r == Success(o.reply) && Stream() == o.rest)
              && (o.Failed? ==> r == Failure(o.error))
      ensures n < -1 ==>
              r == Success(Bulk(PyPrefix(old(buf), n))) && buf == PyDrop(old(buf), n + 2) && chunks == old(chunks)
      ensures |Stream()| <= |old(Stream())|
    {
      if n < 0 { ShortBuffer(buf, Flat(chunks), n); }
      var data := ReadN(n);
      return if data.Success? then Success(Bulk(data.value)) else Failure(data.error);
    }

    method ParseItems(n: int) returns (r: Result<Reply, RespError>)
      modifies this
      ensures var o := ParseMany(old(Stream()), if n < 0 then 0 else n, []);
              && (o.Parsed? ==> r == Success(o.reply) && Stream() == o.rest)
              && (o.Failed? ==> r == Failure(o.error))
      ensures |Stream()| <= |old(Stream())| || r.Failure?
      decreases |Stream()|, 1
    {
      var items: seq<Reply> := [];
      var i := 0;
      ghost var t := Stream();
      while i < n
        invariant 0 <= i && (n >= 0 ==> i <= n) && |Stream()| <= |t|
        invariant n >= 0 ==>
                  ParseMany(t, n, []) == ParseMany(Stream(), n - i, items) || ParseMany(t, n, []) == DependsOnBuffer
        invariant n < 0 ==> i == 0 && Stream() == t && items == []
        decreases n - i
      {
        var item := ParseReply();
        if item.Failure? { return Failure(item.error); }
        items := items + [item.value];
        i := i + 1;
      }
      return Success(Array(items));
    }
  }

  /** More bytes after the first CRLF do not move it. */
  lemma {:induction false} CrlfIsStable(t: Bytes, more: Bytes)
    requires HasCrlf(t)
    ensures CrlfAt(t + more) == CrlfAt(t)
  {
    if !(t[0] == '\r' && t[1] == '\n') {
      assert (t + more)[1..] == t[1..] + more;
      CrlfIsStable(t[1..], more);
    }
  }

  // ---- commands --------------------------------------------------------------------

  /** Python's UTF-8 encoding of one character (section 3 of RFC 3629). */
  function Utf8Char(c: char): (bytes: Bytes)
    ensures bytes != []
  {
    var n := c as int;
    if n < 0x80 then [c]
    else if n < 0x800 then [(0xc0 + n / 64) as char, (0x80 + n % 64) as char]
    else if n < 0x10000 then [(0xe0 + n / 4096) as char, (0x80 + n / 64 % 64) as char, (0x80 + n % 64) as char]
    else [(0xf0 + n / 262144) as char, (0x80 + n / 4096 % 64) as char, (0x80 + n / 64 % 64) as char,
          (0x80 + n % 64) as char]
  }

  function Utf8(s: string): Bytes {
    if s == "" then [] else Utf8Char(s[0]) + Utf8(s[1..])
  }

  function Part(arg: string): string {
    "$" + Print(|arg|) + "\r\n" + arg + "\r\n"
  }

  function Parts(args: seq<string>): string {
    if args == [] then "" else Parts(args[..|args| - 1]) + Part(args[|args| - 1])
  }

  /** The command as text: lengths count characters. */
  function CommandText(args: seq<string>): string {
    "*" + Print(|args|) + "\r\n" + Parts(args)
  }

  method EncodeCmd(args: seq<string>) returns (out: Bytes)
    ensures out == Utf8(CommandText(args))
  {
    var text := "*" + Print(|args|) + "\r\n";
    ghost var header := text;
    for i := 0 to |args|
      invariant text == header + Parts(args[..i])
    {
      assert args[..i + 1][..i] == args[..i];
      text := text + Part(args[i]);
      assert text == header + (Parts(args[..i]) + Part(args[i]));
    }
    assert args[..|args|] == args;
    return Utf8(text);
  }

  /** One command, one reply: what is sent, and what is read back. */
  method Issue(reader: Reader, args: seq<string>) returns (sent: Bytes, r: Result<Reply, RespError>)
    modifies reader
    ensures sent == Utf8(CommandText(args))
    ensures var o := Parse(old(reader.Stream()));
            && (o.Parsed? ==> r == Success(o.reply) && reader.Stream() == o.rest)
            && (o.Failed? ==> r == Failure(o.error))
    ensures NegativeBulk(old(reader.Stream())).Some? ==>
              var n, (b, c) := NegativeBulk(old(reader.Stream())).value, AfterLine(old(reader.buf), old(reader.chunks));
              r == Success(Bulk(PyPrefix(b, n))) && reader.buf == PyDrop(b, n + 2) && reader.chunks == c
  {
    sent := EncodeCmd(args);
    r := reader.ParseReply();
  }
}
