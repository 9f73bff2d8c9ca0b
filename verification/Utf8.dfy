/**
 * The hand-written UTF-8 encoder of `load/lib/shards.js`, over UTF-16 code units, against the encoding
 * and the strict grammar of RFC 3629.
 */
module Utf8 {
  import opened Wrappers

  type Unit = bv16
  type Byte = bv8

  // ---- RFC 3629: encoding and strict decoding --------------------------------------

  /** A Unicode scalar value: any code point but the surrogates. */
  predicate Scalar(cp: bv32) {
    cp <= 0x10ffff && !(0xd800 <= cp <= 0xdfff)
  }

  predicate AllScalar(cps: seq<bv32>) {
    cps == [] || (Scalar(cps[0]) && AllScalar(cps[1..]))
  }

  function Byte1(cp: bv32): Byte requires cp < 0x80 { cp as bv8 }

  function Lead2(cp: bv32): Byte requires cp < 0x800 { (0xc0 | (cp >> 6)) as bv8 }

  function Lead3(cp: bv32): Byte requires cp <= 0xffff { (0xe0 | (cp >> 12)) as bv8 }

  function Lead4(cp: bv32): Byte requires cp <= 0x10ffff { (0xf0 | (cp >> 18)) as bv8 }

  function Tail(bits: bv32): Byte { (0x80 | (bits & 0x3f)) as bv8 }

  function EncodePoint(cp: bv32): seq<Byte>
    requires cp <= 0x10ffff
  {
    if cp < 0x80 then [Byte1(cp)]
    else if cp < 0x800 then [Lead2(cp), Tail(cp)]
    else if cp <= 0xffff then [Lead3(cp), Tail(cp >> 6), Tail(cp)]
    else [Lead4(cp), Tail(cp >> 12), Tail(cp >> 6), Tail(cp)]
  }

  function Encode(cps: seq<bv32>): seq<Byte>
    requires AllScalar(cps)
  {
    if cps == [] then [] else EncodePoint(cps[0]) + Encode(cps[1..])
  }

  predicate IsTail(b: Byte) { 0x80 <= b <= 0xbf }

  function Bits6(b: Byte): bv32 { (b & 0x3f) as bv32 }

  predicate IsTwo(b0: Byte, b1: Byte) {
    0xc2 <= b0 <= 0xdf && IsTail(b1)
  }

  function TwoPoint(b0: Byte, b1: Byte): bv32 {
    ((b0 & 0x1f) as bv32 << 6) | Bits6(b1)
  }

  /** Three bytes: no overlong form, no surrogate. */
  predicate IsThree(b0: Byte, b1: Byte, b2: Byte) {
    && 0xe0 <= b0 <= 0xef && IsTail(b1) && IsTail(b2)
    && (b0 == 0xe0 ==> 0xa0 <= b1) && (b0 == 0xed ==> b1 <= 0x9f)
  }

  function ThreePoint(b0: Byte, b1: Byte, b2: Byte): bv32 {
    ((b0 & 0x0f) as bv32 << 12) | (Bits6(b1) << 6) | Bits6(b2)
  }

  /** Four bytes: no overlong form, nothing above U+10FFFF. */
  predicate IsFour(b0: Byte, b1: Byte, b2: Byte, b3: Byte) {
    && 0xf0 <= b0 <= 0xf4 && IsTail(b1) && IsTail(b2) && IsTail(b3)
    && (b0 == 0xf0 ==> 0x90 <= b1) && (b0 == 0xf4 ==> b1 <= 0x8f)
  }

  function FourPoint(b0: Byte, b1: Byte, b2: Byte, b3: Byte): bv32 {
    ((b0 & 0x07) as bv32 << 18) | (Bits6(b1) << 12) | (Bits6(b2) << 6) | Bits6(b3)
  }

  datatype Decoded = Decoded(cp: bv32, size: nat)

  /** The first character of a byte sequence, by the grammar of section 4 of RFC 3629. */
  function DecodeOne(s: seq<Byte>): (d: Option<Decoded>)
    ensures d.Some? ==> 1 <= d.value.size <= |s|
  {
    if s == [] then None
    else if s[0] < 0x80 then Some(Decoded(s[0] as bv32, 1))
    else if |s| >= 2 && IsTwo(s[0], s[1]) then Some(Decoded(TwoPoint(s[0], s[1]), 2))
    else if |s| >= 3 && IsThree(s[0], s[1], s[2]) then Some(Decoded(ThreePoint(s[0], s[1], s[2]), 3))
    else if |s| >= 4 && IsFour(s[0], s[1], s[2], s[3]) then Some(Decoded(FourPoint(s[0], s[1], s[2], s[3]), 4))
    else None
  }

  function Decode(s: seq<Byte>): Option<seq<bv32>> {
    if s == [] then Some([])
    else
      match DecodeOne(s)
      case None => None
      case Some(d) =>
        var rest := Decode(s[d.size..]);
        if rest.Some? then Some([d.cp] + rest.value) else None
  }

  // ---- UTF-16 ----------------------------------------------------------------------

  predicate High(u: Unit) { 0xd800 <= u <= 0xdbff }

  predicate Low(u: Unit) { 0xdc00 <= u <= 0xdfff }

  function PairPoint(c: Unit, c2: Unit): (cp: bv32)
    ensures 0x10000 <= cp <= 0x10ffff
  {
    0x10000 + ((c & 0x3ff) as bv32 << 10) + (c2 & 0x3ff) as bv32
  }

  predicate Paired(str: seq<Unit>) {
    |str| > 1 && High(str[0]) && Low(str[1])
  }

  /** The code points of a string; an unpaired surrogate stands for itself. */
  function Points(str: seq<Unit>): seq<bv32> {
    if str == [] then []
    else if Paired(str) then [PairPoint(str[0], str[1])] + Points(str[2..])
    else [str[0] as bv32] + Points(str[1..])
  }

  /** Every surrogate is paired. */
  predicate WellFormed(str: seq<Unit>) {
    str == [] ||
    (if Paired(str) then WellFormed(str[2..]) else !High(str[0]) && !Low(str[0]) && WellFormed(str[1..]))
  }

  function HighUnit(cp: bv32): Unit
    requires 0x10000 <= cp <= 0x10ffff
  {
    (0xd800 | ((cp - 0x10000) >> 10)) as bv16
  }

  function LowUnit(cp: bv32): Unit { (0xdc00 | (cp & 0x3ff)) as bv16 }

  function UnitsOfPoint(cp: bv32): seq<Unit>
    requires cp <= 0x10ffff
  {
    if cp <= 0xffff then [cp as bv16]
    else [HighUnit(cp), LowUnit(cp)]
  }

  function Units(cps: seq<bv32>): seq<Unit>
    requires AllScalar(cps)
  {
    if cps == [] then [] else UnitsOfPoint(cps[0]) + Units(cps[1..])
  }

  // ---- the encoder of the load script ----------------------------------------------

  predicate TakesPair(str: seq<Unit>) {
    |str| > 1 && High(str[0])
  }

  /** How many units the loop consumes at the front: a high surrogate takes the next unit, whatever it is. */
  function Consumed(str: seq<Unit>): nat
    requires str != []
  {
    if TakesPair(str) then 2 else 1
  }

  /** The character the loop encodes at the front. */
  function Taken(str: seq<Unit>): bv32
    requires str != []
  {
    if TakesPair(str) then PairPoint(str[0], str[1]) else str[0] as bv32
  }

  function Fallback(str: seq<Unit>): seq<Byte> {
    if str == [] then [] else EncodePoint(Taken(str)) + Fallback(str[Consumed(str)..])
  }

  method EncodeBmp(c: bv32) returns (bytes: seq<Byte>)
    requires c <= 0xffff
    ensures bytes == EncodePoint(c)
  {
    if c < 0x80 {
      bytes := [c as bv8];
    } else if c < 0x800 {
      bytes := [(0xc0 | (c >> 6)) as bv8, (0x80 | (c & 0x3f)) as bv8];
    } else {
      bytes := [(0xe0 | (c >> 12)) as bv8, (0x80 | ((c >> 6) & 0x3f)) as bv8, (0x80 | (c & 0x3f)) as bv8];
    }
  }

  method EncodeAstral(cp: bv32) returns (bytes: seq<Byte>)
    requires 0x10000 <= cp <= 0x10ffff
    ensures bytes == EncodePoint(cp)
  {
    bytes := [(0xf0 | (cp >> 18)) as bv8, (0x80 | ((cp >> 12) & 0x3f)) as bv8, (0x80 | ((cp >> 6) & 0x3f)) as bv8,
              (0x80 | (cp & 0x3f)) as bv8];
  }

  lemma FrontAt(str: seq<Unit>, i: nat)
    requires i < |str|
    ensures TakesPair(str[i..]) <==> 0xd800 <= str[i] <= 0xdbff && i + 1 < |str|
    ensures Taken(str[i..]) == if TakesPair(str[i..]) then PairPoint(str[i], str[i + 1]) else str[i] as bv32
  {
  }

  /** The loop body: the bytes for the character at `i`, and the index of its last unit. */
  method EncodeAt(str: seq<Unit>, i: nat) returns (bytes: seq<Byte>, last: nat)
    requires i < |str|
    ensures last - i + 1 == Consumed(str[i..]) && bytes == EncodePoint(Taken(str[i..]))
  {
    last := i;
    FrontAt(str, i);
    if 0xd800 <= str[i] <= 0xdbff && i + 1 < |str| {
      last := i + 1;
      bytes := EncodeAstral(PairPoint(str[i], str[last]));
    } else {
      bytes := EncodeBmp(str[i] as bv32);
    }
  }

  method Utf8Fallback(str: seq<Unit>) returns (out: seq<Byte>)
    ensures out == Fallback(str)
  {
    out := [];
    var i := 0;
    while i < |str|
      invariant 0 <= i <= |str| && out + Fallback(str[i..]) == Fallback(str)
    {
      var bytes, last := EncodeAt(str, i);
      assert str[i..][last - i + 1..] == str[last + 1..];
      FallbackUnfolds(str[i..], str[last + 1..], bytes, out);
      out := out + bytes;
      i := last + 1;
    }
    assert str[i..] == [] && out + [] == out;
  }

  lemma FallbackUnfolds(str: seq<Unit>, rest: seq<Unit>, bytes: seq<Byte>, out: seq<Byte>)
    requires str != [] && rest == str[Consumed(str)..] && bytes == EncodePoint(Taken(str))
    ensures out + Fallback(str) == out + bytes + Fallback(rest)
  {
  }

  // ---- one character ---------------------------------------------------------------

  lemma OneDecodes(cp: bv32)
    requires cp < 0x80
    ensures Byte1(cp) < 0x80 && Byte1(cp) as bv32 == cp
  {
  }

  lemma TwoDecodes(cp: bv32)
    requires 0x80 <= cp < 0x800
    ensures IsTwo(Lead2(cp), Tail(cp)) && TwoPoint(Lead2(cp), Tail(cp)) == cp
  {
  }

  lemma TailIsTail(bits: bv32)
    ensures IsTail(Tail(bits))
  {
  }

  lemma ThreeDecodes(cp: bv32)
    requires 0x800 <= cp <= 0xffff
    ensures ThreePoint(Lead3(cp), Tail(cp >> 6), Tail(cp)) == cp
  {
  }

  lemma ThreeLead(cp: bv32)
    requires 0x800 <= cp <= 0xffff
    ensures 0xe0 <= Lead3(cp) <= 0xef
    ensures Lead3(cp) == 0xe0 ==> 0xa0 <= Tail(cp >> 6)
    ensures (Lead3(cp) == 0xed && 0x9f < Tail(cp >> 6)) <==> 0xd800 <= cp <= 0xdfff
  {
  }

  lemma ThreeGrammar(cp: bv32)
    requires 0x800 <= cp <= 0xffff
    ensures IsThree(Lead3(cp), Tail(cp >> 6), Tail(cp)) <==> Scalar(cp)
  {
    ThreeLead(cp);
    TailIsTail(cp >> 6);
    TailIsTail(cp);
  }

  lemma FourDecodes(cp: bv32)
    requires 0x10000 <= cp <= 0x10ffff
    ensures FourPoint(Lead4(cp), Tail(cp >> 12), Tail(cp >> 6), Tail(cp)) == cp
  {
  }

  lemma FourLead(cp: bv32)
    requires 0x10000 <= cp <= 0x10ffff
    ensures 0xf0 <= Lead4(cp) <= 0xf4
    ensures Lead4(cp) == 0xf0 ==> 0x90 <= Tail(cp >> 12)
    ensures Lead4(cp) == 0xf4 ==> Tail(cp >> 12) <= 0x8f
  {
  }

  lemma FourGrammar(cp: bv32)
    requires 0x10000 <= cp <= 0x10ffff
    ensures IsFour(Lead4(cp), Tail(cp >> 12), Tail(cp >> 6), Tail(cp))
  {
    FourLead(cp);
    TailIsTail(cp >> 12);
    TailIsTail(cp >> 6);
    TailIsTail(cp);
  }

  lemma TwoEncodes(b0: Byte, b1: Byte)
    requires IsTwo(b0, b1)
    ensures var cp := TwoPoint(b0, b1); 0x80 <= cp < 0x800 && Lead2(cp) == b0 && Tail(cp) == b1
  {
  }

  lemma ThreeEncodes(b0: Byte, b1: Byte, b2: Byte)
    requires IsThree(b0, b1, b2)
    ensures var cp := ThreePoint(b0, b1, b2);
            0x800 <= cp <= 0xffff && Scalar(cp) && Lead3(cp) == b0 && Tail(cp >> 6) == b1 && Tail(cp) == b2
  {
  }

  lemma FourEncodes(b0: Byte, b1: Byte, b2: Byte, b3: Byte)
    requires IsFour(b0, b1, b2, b3)
    ensures var cp := FourPoint(b0, b1, b2, b3);
            && 0x10000 <= cp <= 0x10ffff
            && Lead4(cp) == b0 && Tail(cp >> 12) == b1 && Tail(cp >> 6) == b2 && Tail(cp) == b3
  {
  }

  lemma PairHigh(c: Unit, c2: Unit)
    requires High(c)
    ensures HighUnit(PairPoint(c, c2)) == c
  {
  }

  lemma PairLow(c: Unit, c2: Unit)
    requires Low(c2)
    ensures LowUnit(PairPoint(c, c2)) == c2
  {
  }

  lemma HighIsHigh(cp: bv32)
    requires 0x10000 <= cp <= 0x10ffff
    ensures High(HighUnit(cp))
  {
  }

  lemma LowIsLow(cp: bv32)
    ensures Low(LowUnit(cp))
  {
  }

  lemma UnitsPair(cp: bv32)
    requires 0x10000 <= cp <= 0x10ffff
    ensures PairPoint(HighUnit(cp), LowUnit(cp)) == cp
  {
  }
}
