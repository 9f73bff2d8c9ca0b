/** An encoded command is read back as its arguments exactly when every argument is ASCII. */
module RespCommands {
  import opened Wrappers
  import opened Decimal
  import opened Resp
  import opened RespLaws

  predicate IsAscii(s: string) {
    forall i :: 0 <= i < |s| ==> (s[i] as int) < 0x80
  }

  /** The reply a server would read off a command. */
  function Meant(args: seq<string>): seq<Reply> {
    seq(|args|, i requires 0 <= i < |args| => Bulk(Utf8(args[i])))
  }

  lemma {:induction false} Utf8Concat(a: string, b: string)
    ensures Utf8(a + b) == Utf8(a) + Utf8(b)
  {
    if a == "" {
      assert a + b == b;
    } else {
      assert (a + b)[1..] == a[1..] + b;
      Utf8Concat(a[1..], b);
    }
  }

  lemma {:induction false} Utf8OfAscii(s: string)
    requires IsAscii(s)
    ensures Utf8(s) == s
  {
    if s != "" {
      Utf8OfAscii(s[1..]);
      assert s == [s[0]] + s[1..];
    }
  }

  /** The encoding is longer than the text unless the text is ASCII. */
  lemma {:induction false} Utf8Grows(s: string)
    ensures |Utf8(s)| >= |s| && (|Utf8(s)| == |s| <==> IsAscii(s))
  {
    if s != "" {
      Utf8Grows(s[1..]);
      assert s == [s[0]] + s[1..];
      AsciiCons(s[0], s[1..]);
    }
  }

  lemma AsciiCons(c: char, s: string)
    ensures IsAscii([c] + s) <==> (c as int) < 0x80 && IsAscii(s)
  {
    var all := [c] + s;
    if IsAscii(all) {
      assert all[0] == c;
      forall i | 0 <= i < |s| ensures (s[i] as int) < 0x80 { assert all[i + 1] == s[i]; }
    }
  }

  // ---- the bytes of a command ------------------------------------------------------

  function ArgBytes(arg: string): Bytes {
    ['$'] + Digits(|arg|) + CRLF + Utf8(arg) + CRLF
  }

  function AllArgBytes(args: seq<string>): Bytes {
    if args == [] then [] else ArgBytes(args[0]) + AllArgBytes(args[1..])
  }

  lemma HeaderIsAscii(tag: char, n: nat)
    requires (tag as int) < 0x80
    ensures IsAscii([tag] + Print(n) + "\r\n")
  {
    var s := [tag] + Print(n) + "\r\n";
    forall i | 0 <= i < |s| ensures (s[i] as int) < 0x80 {
      if 0 < i <= |Print(n)| { assert s[i] == Print(n)[i - 1] && IsDigit(Print(n)[i - 1]); }
    }
  }

  lemma PartInBytes(arg: string)
    ensures Utf8(Part(arg)) == ArgBytes(arg)
  {
    var header := "$" + Print(|arg|) + "\r\n";
    HeaderIsAscii('$', |arg|);
    Utf8OfAscii(header);
    Utf8OfAscii("\r\n");
    Utf8Concat(header, arg);
    Utf8Concat(header + arg, "\r\n");
  }

  lemma {:induction false} AllArgBytesLast(args: seq<string>, arg: string)
    ensures AllArgBytes(args + [arg]) == AllArgBytes(args) + ArgBytes(arg)
  {
    if args == [] {
      assert args + [arg] == [arg] && [arg][1..] == [];
    } else {
      assert (args + [arg])[1..] == args[1..] + [arg];
      AllArgBytesLast(args[1..], arg);
    }
  }

  lemma {:induction false} PartsInBytes(args: seq<string>)
    ensures Utf8(Parts(args)) == AllArgBytes(args)
  {
    if args != [] {
      var init, last := args[..|args| - 1], args[|args| - 1];
      PartsInBytes(init);
      Utf8Concat(Parts(init), Part(last));
      PartInBytes(last);
      AllArgBytesLast(init, last);
      assert args == init + [last];
    }
  }

  lemma CommandInBytes(args: seq<string>)
    ensures Utf8(CommandText(args)) == ['*'] + ShowInt(|args|) + CRLF + AllArgBytes(args)
  {
    var header := "*" + Print(|args|) + "\r\n";
    HeaderIsAscii('*', |args|);
    Utf8OfAscii(header);
    Utf8Concat(header, Parts(args));
    PartsInBytes(args);
  }

  // ---- reading them back -----------------------------------------------------------

  /** The declared length counts characters, so that many bytes of the argument are read. */
  lemma ParseArg(arg: string, tail: Bytes)
    ensures |Utf8(arg)| >= |arg|
    ensures Parse(ArgBytes(arg) + tail) == Parsed(Bulk(Utf8(arg)[..|arg|]), (Utf8(arg) + CRLF + tail)[|arg| + 2..])
  {
    Utf8Grows(arg);
    ParseHeader('$', |arg|, Utf8(arg) + CRLF + tail);
    Regroup(['$'] + Digits(|arg|) + CRLF, Utf8(arg), tail);
    CutBulk(Utf8(arg), |arg|, tail);
  }

  lemma Regroup(header: Bytes, data: Bytes, tail: Bytes)
    ensures header + data + CRLF + tail == header + (data + CRLF + tail)
  {
  }

  lemma CutBulk(data: Bytes, n: nat, tail: Bytes)
    requires n <= |data|
    ensures ParseBulk(data + CRLF + tail, n) == Parsed(Bulk(data[..n]), (data + CRLF + tail)[n + 2..])
  {
    assert (data + CRLF + tail)[..n] == data[..n];
  }

  lemma ParseAsciiArg(arg: string, tail: Bytes)
    requires IsAscii(arg)
    ensures Parse(ArgBytes(arg) + tail) == Parsed(Bulk(Utf8(arg)), tail)
  {
    ParseArg(arg, tail);
    Utf8OfAscii(arg);
    assert arg[..|arg|] == arg && (Utf8(arg) + CRLF + tail)[|arg| + 2..] == tail;
  }

  lemma {:induction false} ManyExtends(t: Bytes, n: nat, read: seq<Reply>)
    requires ParseMany(t, n, read).Parsed?
    ensures var r := ParseMany(t, n, read).reply; r.Array? && read <= r.items
    decreases n
  {
    if n > 0 { ManyExtends(Parse(t).rest, n - 1, read + [Parse(t).reply]); }
  }

  ghost predicate AllAscii(args: seq<string>) {
    forall i :: 0 <= i < |args| ==> IsAscii(args[i])
  }

  lemma MeantCons(args: seq<string>)
    requires args != []
    ensures Meant(args) == [Bulk(Utf8(args[0]))] + Meant(args[1..])
  {
  }

  lemma AllAsciiCons(args: seq<string>)
    requires args != []
    ensures AllAscii(args) <==> IsAscii(args[0]) && AllAscii(args[1..])
  {
    if AllAscii(args) {
      forall i | 0 <= i < |args[1..]| ensures IsAscii(args[1..][i]) { assert args[1..][i] == args[i + 1]; }
    }
    if IsAscii(args[0]) && AllAscii(args[1..]) {
      forall i | 0 <= i < |args| ensures IsAscii(args[i]) { if i > 0 { assert args[i] == args[1..][i - 1]; } }
    }
  }

  /** A cut argument is never the one meant, whatever is read after it. */
  lemma CutArgIsWrong(args: seq<string>, tail: Bytes, read: seq<Reply>, o: Outcome)
    requires args != [] && !IsAscii(args[0])
    requires o == ParseMany(AllArgBytes(args) + tail, |args|, read)
    ensures o.Parsed? ==> o.reply != Array(read + Meant(args))
  {
    var more := AllArgBytes(args[1..]) + tail;
    assert AllArgBytes(args) + tail == ArgBytes(args[0]) + more;
    ParseArg(args[0], more);
    Utf8Grows(args[0]);
    var cut := Bulk(Utf8(args[0])[..|args[0]|]);
    var rest := (Utf8(args[0]) + CRLF + more)[|args[0]| + 2..];
    ParseManyStep(AllArgBytes(args) + tail, |args|, read, cut, rest);
    if o.Parsed? {
      ManyExtends(rest, |args| - 1, read + [cut]);
      assert o.reply.items[|read|] == cut;
      assert (read + Meant(args))[|read|] == Bulk(Utf8(args[0]));
    }
  }

  lemma {:induction false} ArgsReadBackIff(args: seq<string>, tail: Bytes, read: seq<Reply>)
    ensures var o := ParseMany(AllArgBytes(args) + tail, |args|, read);
            && (AllAscii(args) ==> o == Parsed(Array(read + Meant(args)), tail))
            && (!AllAscii(args) ==> o.Parsed? ==> o.reply != Array(read + Meant(args)))
    decreases |args|
  {
    if args == [] {
      assert AllArgBytes(args) + tail == tail && read + Meant(args) == read;
    } else {
      AllAsciiCons(args);
      if IsAscii(args[0]) {
        AsciiArgStep(args, tail, read);
        ArgsReadBackIff(args[1..], tail, read + [Bulk(Utf8(args[0]))]);
        MeantCons(args);
        assert read + Meant(args) == read + [Bulk(Utf8(args[0]))] + Meant(args[1..]);
      } else {
        CutArgIsWrong(args, tail, read, ParseMany(AllArgBytes(args) + tail, |args|, read));
      }
    }
  }

  lemma AsciiArgStep(args: seq<string>, tail: Bytes, read: seq<Reply>)
    requires args != [] && IsAscii(args[0])
    ensures ParseMany(AllArgBytes(args) + tail, |args|, read) ==
            ParseMany(AllArgBytes(args[1..]) + tail, |args| - 1, read + [Bulk(Utf8(args[0]))])
  {
    var more := AllArgBytes(args[1..]) + tail;
    assert AllArgBytes(args) + tail == ArgBytes(args[0]) + more;
    ParseAsciiArg(args[0], more);
    ParseManyStep(AllArgBytes(args) + tail, |args|, read, Bulk(Utf8(args[0])), more);
  }

  /** A command is read back as the array of its encoded arguments if and only if every argument is ASCII. */
  lemma CommandReadsBackIff(args: seq<string>, tail: Bytes)
    ensures Parse(Utf8(CommandText(args)) + tail) == Parsed(Array(Meant(args)), tail) <==> AllAscii(args)
  {
    CommandInBytes(args);
    Reassociate(['*'] + ShowInt(|args|), CRLF, AllArgBytes(args), tail);
    ParseHeader('*', |args|, AllArgBytes(args) + tail);
    ArgsReadBackIff(args, tail, []);
    assert [] + Meant(args) == Meant(args);
  }

  /** "é" is declared as one byte long and takes two. */
  lemma AccentedArgumentIsCut(tail: Bytes)
    ensures Parse(Utf8(CommandText(["\U{e9}"])) + tail) != Parsed(Array(Meant(["\U{e9}"])), tail)
  {
    CommandReadsBackIff(["\U{e9}"], tail);
    var accented := "\U{e9}";
    assert accented[0] as int == 0xe9;
    assert ["\U{e9}"][0] == accented;
  }
}
