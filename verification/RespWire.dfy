/**
 * The replies as a grammar over the bytes, independent of how they are read: what the reader accepts, which
 * reply each first byte stands for, and what fails it.
 */
module RespWire {
  import opened Wrappers
  import opened Decimal
  import opened Resp
  import opened RespLaws

  // ---- lines -----------------------------------------------------------------------

  ghost predicate IsOneLine(line: Bytes) {
    forall i :: 0 <= i < |line| - 1 ==> !(line[i] == '\r' && line[i + 1] == '\n')
  }

  /** The stream is a line, its CRLF, and the rest. */
  ghost predicate FirstLine(t: Bytes, line: Bytes, rest: Bytes) {
    t == line + CRLF + rest && IsOneLine(line)
  }

  lemma {:induction false} OneLineHasNoCrlf(line: Bytes)
    ensures IsOneLine(line) <==> !HasCrlf(line)
  {
    if |line| >= 2 {
      OneLineHasNoCrlf(line[1..]);
      if IsOneLine(line) {
        forall i | 0 <= i < |line| - 2 ensures !(line[1..][i] == '\r' && line[1..][i + 1] == '\n') {
          assert line[1..][i] == line[i + 1];
        }
      }
      if IsOneLine(line[1..]) && !(line[0] == '\r' && line[1] == '\n') {
        forall i | 0 <= i < |line| - 1 ensures !(line[i] == '\r' && line[i + 1] == '\n') {
          if i > 0 { assert line[1..][i - 1] == line[i]; }
        }
      }
    }
  }

  lemma FirstLineIs(t: Bytes, line: Bytes, rest: Bytes)
    requires FirstLine(t, line, rest)
    ensures HasCrlf(t) && CrlfAt(t) == |line| && t[..CrlfAt(t)] == line && t[CrlfAt(t) + 2..] == rest
    ensures Parse(t) == ParseLine(line, rest)
  {
    OneLineHasNoCrlf(line);
    LineEnds(line, rest);
  }

  lemma {:induction false} CrlfIsThere(t: Bytes)
    requires HasCrlf(t)
    ensures t[CrlfAt(t)] == '\r' && t[CrlfAt(t) + 1] == '\n' && IsOneLine(t[..CrlfAt(t)])
  {
    if !(t[0] == '\r' && t[1] == '\n') {
      CrlfIsThere(t[1..]);
      var line := t[..CrlfAt(t)];
      assert line[1..] == t[1..][..CrlfAt(t[1..])];
      forall i | 0 <= i < |line| - 1 ensures !(line[i] == '\r' && line[i + 1] == '\n') {
        if i > 0 { assert line[1..][i - 1] == line[i] && line[1..][i] == line[i + 1]; }
      }
    }
  }

  /** A stream with a CRLF has a first line. */
  lemma SomeFirstLine(t: Bytes) returns (line: Bytes, rest: Bytes)
    requires HasCrlf(t)
    ensures FirstLine(t, line, rest)
  {
    CrlfIsThere(t);
    line, rest := t[..CrlfAt(t)], t[CrlfAt(t) + 2..];
    assert t == line + [t[CrlfAt(t)], t[CrlfAt(t) + 1]] + rest;
  }

  // ---- the grammar -----------------------------------------------------------------

  /**
   * What may follow a line for it to carry the reply, and what is then left: a simple string is a "+" line, an
   * integer a ":" line, a bulk string a "$" line with a length and that many bytes and two more, an array a "*"
   * line with a length and that many replies, and nil a "$" or "*" line with the length -1. A bulk string is
   * empty, and consumes nothing, for a length below -1 with few bytes behind it; an array is for any such length.
   */
  ghost predicate Carries(line: Bytes, tail: Bytes, r: Reply, rest: Bytes)
    decreases r, 2
  {
    line != [] &&
    match r
    case Simple(body) => line == ['+'] + body && tail == rest
    case Integer(n) => line[0] == ':' && PyInt(line[1..]) == Some(n) && tail == rest
    case Nil => (line[0] == '$' || line[0] == '*') && PyInt(line[1..]) == Some(-1) && tail == rest
    case Bulk(data) =>
      && line[0] == '$' && PyInt(line[1..]).Some?
      && var n := PyInt(line[1..]).value;
         if n >= 0 then |data| == n && |tail| == n + 2 + |rest| && data <= tail && rest == tail[n + 2..]
         else n < -1 && data == [] && tail == rest && |tail| <= (if n == -2 then 2 else -n - 2)
    case Array(items) =>
      && line[0] == '*' && PyInt(line[1..]).Some? && PyInt(line[1..]).value != -1
      && |items| == (if PyInt(line[1..]).value < 0 then 0 else PyInt(line[1..]).value)
      && AllOnWire(tail, items, rest)
  }

  /** The stream starts with the reply on the wire, and the rest follows. */
  ghost predicate OnWire(t: Bytes, r: Reply, rest: Bytes)
    decreases r, 3
  {
    exists line, tail {:trigger FirstLine(t, line, tail)} :: FirstLine(t, line, tail) && Carries(line, tail, r, rest)
  }

  ghost predicate AllOnWire(t: Bytes, items: seq<Reply>, rest: Bytes)
    decreases items, 1
  {
    if items == [] then t == rest
    else exists mid {:trigger OnWire(t, items[0], mid)} :: OnWire(t, items[0], mid) && AllOnWire(mid, items[1..], rest)
  }

  lemma AllOnWireCons(t: Bytes, r: Reply, mid: Bytes, items: seq<Reply>, rest: Bytes)
    requires OnWire(t, r, mid) && AllOnWire(mid, items, rest)
    ensures AllOnWire(t, [r] + items, rest)
  {
    assert ([r] + items)[0] == r && ([r] + items)[1..] == items;
  }

  // ---- what is read is on the wire -------------------------------------------------

  lemma BulkIsCarried(line: Bytes, tail: Bytes, n: int)
    requires line != [] && line[0] == '$' && PyInt(line[1..]) == Some(n) && ParseBulk(tail, n).Parsed?
    ensures Carries(line, tail, ParseBulk(tail, n).reply, ParseBulk(tail, n).rest)
  {
  }

  lemma {:induction false} ReadIsOnWire(t: Bytes)
    requires Parse(t).Parsed?
    ensures OnWire(t, Parse(t).reply, Parse(t).rest)
    decreases |t|, 0
  {
    var line, tail := SomeFirstLine(t);
    FirstLineIs(t, line, tail);
    LineIsCarried(line, tail);
  }

  lemma {:induction false} LineIsCarried(line: Bytes, tail: Bytes)
    requires ParseLine(line, tail).Parsed?
    ensures Carries(line, tail, ParseLine(line, tail).reply, ParseLine(line, tail).rest)
    decreases |tail|, 2
  {
    var tag, body := line[0], line[1..];
    if tag == '+' {
      assert line == ['+'] + body;
    } else if tag == '$' {
      if PyInt(body).value != -1 { BulkIsCarried(line, tail, PyInt(body).value); }
    } else if tag == '*' && PyInt(body).value != -1 {
      var n := PyInt(body).value;
      ManyAreOnWire(tail, if n < 0 then 0 else n, []);
    }
  }

  lemma {:induction false} ManyAreOnWire(t: Bytes, n: nat, read: seq<Reply>)
    requires ParseMany(t, n, read).Parsed?
    ensures var o := ParseMany(t, n, read);
            && o.reply.Array? && |o.reply.items| == |read| + n && read <= o.reply.items
            && AllOnWire(t, o.reply.items[|read|..], o.rest)
    decreases |t|, 1
  {
    if n > 0 {
      var r, mid := Parse(t).reply, Parse(t).rest;
      ReadIsOnWire(t);
      ManyAreOnWire(mid, n - 1, read + [r]);
      var all := ParseMany(t, n, read).reply.items;
      assert all[|read|] == (read + [r])[|read|] && all[|read|..] == [r] + all[|read| + 1..];
      AllOnWireCons(t, r, mid, all[|read| + 1..], ParseMany(t, n, read).rest);
    }
  }

  // ---- what is on the wire is read -------------------------------------------------

  lemma {:induction false} OnWireIsRead(t: Bytes, r: Reply, rest: Bytes)
    requires OnWire(t, r, rest)
    ensures Parse(t) == Parsed(r, rest)
    decreases r, 3
  {
    var line, tail :| FirstLine(t, line, tail) && Carries(line, tail, r, rest);
    FirstLineIs(t, line, tail);
    CarriedIsRead(line, tail, r, rest);
  }

  lemma {:induction false} CarriedIsRead(line: Bytes, tail: Bytes, r: Reply, rest: Bytes)
    requires Carries(line, tail, r, rest)
    ensures ParseLine(line, tail) == Parsed(r, rest)
    decreases r, 2
  {
    match r
    case Simple(body) => assert line[0] == '+' && line[1..] == body;
    case Integer(_) =>
    case Nil =>
    case Bulk(data) => if PyInt(line[1..]).value >= 0 { assert data == tail[..|data|]; }
    case Array(items) =>
      AllOnWireAreRead(tail, items, rest, []);
      assert [] + items == items;
  }

  lemma {:induction false} AllOnWireAreRead(t: Bytes, items: seq<Reply>, rest: Bytes, read: seq<Reply>)
    requires AllOnWire(t, items, rest)
    ensures ParseMany(t, |items|, read) == Parsed(Array(read + items), rest)
    decreases items, 1
  {
    if items == [] {
      assert read + items == read;
    } else {
      var mid :| OnWire(t, items[0], mid) && AllOnWire(mid, items[1..], rest);
      OnWireIsRead(t, items[0], mid);
      AllOnWireAreRead(mid, items[1..], rest, read + [items[0]]);
      ParseManyStep(t, |items|, read, items[0], mid);
      assert read + [items[0]] + items[1..] == read + items;
    }
  }

  /** Over every byte stream, a reply is read, up to its end, exactly when the stream starts with it on the wire. */
  lemma ReadIffOnWire(t: Bytes, r: Reply, rest: Bytes)
    ensures Parse(t) == Parsed(r, rest) <==> OnWire(t, r, rest)
  {
    if Parse(t) == Parsed(r, rest) { ReadIsOnWire(t); }
    if OnWire(t, r, rest) { OnWireIsRead(t, r, rest); }
  }

  /**
   * A simple string is only ever read behind a "+", an integer behind a ":", a bulk string behind a "$", an
   * array behind a "*", nil behind a "$" or "*"; so nothing is read behind a "-".
   */
  lemma FirstByteTellsReply(t: Bytes)
    requires Parse(t).Parsed?
    ensures t != [] &&
            match Parse(t).reply
            case Simple(_) => t[0] == '+'
            case Integer(_) => t[0] == ':'
            case Bulk(_) => t[0] == '$'
            case Array(_) => t[0] == '*'
            case Nil => t[0] == '$' || t[0] == '*'
  {
    ReadIsOnWire(t);
    var line, tail :| FirstLine(t, line, tail) && Carries(line, tail, Parse(t).reply, Parse(t).rest);
    assert t[0] == line[0];
  }

  // ---- what fails ------------------------------------------------------------------

  /** Whatever follows, a first line that starts with "-" fails with exactly the text after it. */
  lemma ErrorLineFails(t: Bytes, text: Bytes, rest: Bytes)
    requires FirstLine(t, ['-'] + text, rest)
    ensures Parse(t) == Failed(ErrorReply(text))
  {
    FirstLineIs(t, ['-'] + text, rest);
    var line: Bytes := ['-'] + text;
    assert line[0] == '-' && line[1..] == text;
  }

  lemma {:induction false} FailedElement(t: Bytes, n: nat, read: seq<Reply>, items: seq<Reply>, mid: Bytes)
    requires |items| < n && AllOnWire(t, items, mid) && Parse(mid).Failed?
    ensures ParseMany(t, n, read) == Parse(mid)
    decreases |items|
  {
    if items != [] {
      var next :| OnWire(t, items[0], next) && AllOnWire(next, items[1..], mid);
      OnWireIsRead(t, items[0], next);
      ParseManyStep(t, n, read, items[0], next);
      FailedElement(next, n - 1, read + [items[0]], items[1..], mid);
    }
  }

  /** An error line among the elements an array announces, behind any replies, fails the whole array. */
  lemma ErrorElementFailsArray(t: Bytes, line: Bytes, tail: Bytes, n: nat, items: seq<Reply>, mid: Bytes, text: Bytes,
                               rest: Bytes)
    requires FirstLine(t, ['*'] + line, tail) && PyInt(line) == Some(n) && |items| < n
    requires AllOnWire(tail, items, mid) && FirstLine(mid, ['-'] + text, rest)
    ensures Parse(t) == Failed(ErrorReply(text))
  {
    FirstLineIs(t, ['*'] + line, tail);
    ErrorLineFails(mid, text, rest);
    FailedElement(tail, n, [], items, mid);
    var all: Bytes := ['*'] + line;
    assert all[0] == '*' && all[1..] == line;
  }

  /**
   * Every other way a stream can start is refused by name: no line, an empty line, a length or integer that is
   * none, or an unknown first byte.
   */
  lemma DriftIsLoud(t: Bytes, line: Bytes, rest: Bytes)
    ensures (forall l, r :: !FirstLine(t, l, r)) ==> Parse(t) == Failed(Closed)
    ensures FirstLine(t, line, rest) && line == [] ==> Parse(t) == Failed(EmptyReply)
    ensures FirstLine(t, line, rest) && line != [] && line[0] !in {'+', '-', ':', '$', '*'} ==>
              Parse(t) == Failed(Unsupported(line))
    ensures FirstLine(t, line, rest) && line != [] && line[0] in {':', '$', '*'} && PyInt(line[1..]) == None ==>
              Parse(t) == Failed(BadInteger(line[1..]))
  {
    if HasCrlf(t) { var l, r := SomeFirstLine(t); }
    if FirstLine(t, line, rest) { FirstLineIs(t, line, rest); }
  }

  /** A refused login: the reader raises what the server said, on any chunking of its answer. */
  method RefusedLogin(chunks: seq<Bytes>, text: Bytes) returns (r: Result<Reply, RespError>)
    requires Flat(chunks) == ['-'] + text + CRLF && IsOneLine(['-'] + text)
    ensures r == Failure(ErrorReply(text))
  {
    var reader := new Reader(chunks);
    assert Flat(chunks) == (['-'] + text) + CRLF + [];
    ErrorLineFails(Flat(chunks), text, []);
    r := reader.ParseReply();
  }
}
