/** The load script's encoder produces UTF-8, loses nothing, and agrees with Python on well-formed strings. */
module Utf8RoundTrip {
  import opened Wrappers
  import opened Utf8
  import Crc32

  // ---- the strict decoder inverts the encoding -------------------------------------

  lemma DecodeOneOfThree(cp: bv32, rest: seq<Byte>)
    requires 0x800 <= cp <= 0xffff
    ensures DecodeOne([Lead3(cp), Tail(cp >> 6), Tail(cp)] + rest) == if Scalar(cp) then Some(Decoded(cp, 3)) else None
  {
    ThreeLead(cp);
    ThreeGrammar(cp);
    ThreeDecodes(cp);
  }

  lemma DecodeOneOfFour(cp: bv32, rest: seq<Byte>)
    requires 0x10000 <= cp <= 0x10ffff
    ensures DecodeOne([Lead4(cp), Tail(cp >> 12), Tail(cp >> 6), Tail(cp)] + rest) == Some(Decoded(cp, 4))
  {
    FourLead(cp);
    FourGrammar(cp);
    FourDecodes(cp);
  }

  lemma DecodeOneOfShort(cp: bv32, rest: seq<Byte>)
    requires cp < 0x800
    ensures DecodeOne(EncodePoint(cp) + rest) == Some(Decoded(cp, |EncodePoint(cp)|))
  {
    if cp < 0x80 { OneDecodes(cp); } else { TwoDecodes(cp); }
  }

  /** An encoded character is read back exactly when it is a scalar value; a surrogate is refused. */
  lemma DecodeOneEncoded(cp: bv32, rest: seq<Byte>)
    requires cp <= 0x10ffff
    ensures DecodeOne(EncodePoint(cp) + rest) == if Scalar(cp) then Some(Decoded(cp, |EncodePoint(cp)|)) else None
  {
    if cp < 0x800 {
      DecodeOneOfShort(cp, rest);
    } else if cp <= 0xffff {
      DecodeOneOfThree(cp, rest);
    } else {
      DecodeOneOfFour(cp, rest);
    }
  }

  lemma DecodeStep(cp: bv32, rest: seq<Byte>)
    requires cp <= 0x10ffff
    ensures Decode(EncodePoint(cp) + rest) ==
            if Scalar(cp) && Decode(rest).Some? then Some([cp] + Decode(rest).value) else None
  {
    DecodeOneEncoded(cp, rest);
    assert (EncodePoint(cp) + rest)[|EncodePoint(cp)|..] == rest;
  }

  lemma {:induction false} DecodeEncode(cps: seq<bv32>)
    requires AllScalar(cps)
    ensures Decode(Encode(cps)) == Some(cps)
  {
    if cps != [] {
      DecodeEncode(cps[1..]);
      DecodeStep(cps[0], Encode(cps[1..]));
      assert cps == [cps[0]] + cps[1..];
    }
  }

  lemma EncodesOne(b: Byte)
    requires b < 0x80
    ensures Scalar(b as bv32) && EncodePoint(b as bv32) == [b]
  {
    AsciiEncodes(b);
  }

  lemma AsciiEncodes(b: Byte)
    requires b < 0x80
    ensures (b as bv32) < 0x80 && Byte1(b as bv32) == b && Scalar(b as bv32)
  {
  }

  lemma SmallIsScalar(cp: bv32)
    requires cp < 0x800
    ensures Scalar(cp)
  {
  }

  lemma AstralIsScalar(cp: bv32)
    requires 0x10000 <= cp <= 0x10ffff
    ensures Scalar(cp) && !(cp < 0x80) && !(cp < 0x800) && !(cp <= 0xffff)
  {
  }

  lemma EncodesTwo(b0: Byte, b1: Byte)
    requires IsTwo(b0, b1)
    ensures Scalar(TwoPoint(b0, b1)) && EncodePoint(TwoPoint(b0, b1)) == [b0, b1]
  {
    TwoEncodes(b0, b1);
    SmallIsScalar(TwoPoint(b0, b1));
  }

  lemma EncodesThree(b0: Byte, b1: Byte, b2: Byte)
    requires IsThree(b0, b1, b2)
    ensures Scalar(ThreePoint(b0, b1, b2)) && EncodePoint(ThreePoint(b0, b1, b2)) == [b0, b1, b2]
  {
    ThreeEncodes(b0, b1, b2);
  }

  lemma EncodesFour(b0: Byte, b1: Byte, b2: Byte, b3: Byte)
    requires IsFour(b0, b1, b2, b3)
    ensures Scalar(FourPoint(b0, b1, b2, b3)) && EncodePoint(FourPoint(b0, b1, b2, b3)) == [b0, b1, b2, b3]
  {
    FourEncodes(b0, b1, b2, b3);
    AstralIsScalar(FourPoint(b0, b1, b2, b3));
  }

  ghost predicate Encodes(cp: bv32, bytes: seq<Byte>) {
    Scalar(cp) && EncodePoint(cp) == bytes
  }

  lemma DecodedOneByte(s: seq<Byte>)
    requires s != [] && s[0] < 0x80
    ensures Encodes(DecodeOne(s).value.cp, s[..DecodeOne(s).value.size])
  {
    EncodesOne(s[0]);
    assert s[..1] == [s[0]];
  }

  lemma DecodedTwoBytes(s: seq<Byte>)
    requires |s| >= 2 && s[0] >= 0x80 && IsTwo(s[0], s[1])
    ensures Encodes(DecodeOne(s).value.cp, s[..DecodeOne(s).value.size])
  {
    EncodesTwo(s[0], s[1]);
    assert s[..2] == [s[0], s[1]];
  }

  lemma DecodedThreeBytes(s: seq<Byte>)
    requires |s| >= 3 && s[0] >= 0x80 && !IsTwo(s[0], s[1]) && IsThree(s[0], s[1], s[2])
    ensures Encodes(DecodeOne(s).value.cp, s[..DecodeOne(s).value.size])
  {
    EncodesThree(s[0], s[1], s[2]);
    assert s[..3] == [s[0], s[1], s[2]];
  }

  lemma DecodedFourBytes(s: seq<Byte>)
    requires |s| >= 4 && s[0] >= 0x80 && !IsTwo(s[0], s[1]) && !IsThree(s[0], s[1], s[2])
    requires IsFour(s[0], s[1], s[2], s[3])
    ensures Encodes(DecodeOne(s).value.cp, s[..DecodeOne(s).value.size])
  {
    EncodesFour(s[0], s[1], s[2], s[3]);
    assert s[..4] == [s[0], s[1], s[2], s[3]];
  }

  lemma EncodeDecodedOne(s: seq<Byte>)
    requires DecodeOne(s).Some?
    ensures Encodes(DecodeOne(s).value.cp, s[..DecodeOne(s).value.size])
  {
    if s[0] < 0x80 {
      DecodedOneByte(s);
    } else if |s| >= 2 && IsTwo(s[0], s[1]) {
      DecodedTwoBytes(s);
    } else if |s| >= 3 && IsThree(s[0], s[1], s[2]) {
      DecodedThreeBytes(s);
    } else {
      DecodedFourBytes(s);
    }
  }

  ghost predicate EncodesAll(cps: seq<bv32>, bytes: seq<Byte>) {
    AllScalar(cps) && Encode(cps) == bytes
  }

  lemma EncodesCons(cp: bv32, head: seq<Byte>, cps: seq<bv32>, tail: seq<Byte>)
    requires Encodes(cp, head) && EncodesAll(cps, tail)
    ensures EncodesAll([cp] + cps, head + tail)
  {
    ScalarsCons(cp, cps);
    assert ([cp] + cps)[1..] == cps;
  }

  lemma DecodeSplits(s: seq<Byte>) returns (cp: bv32, head: seq<Byte>, tail: seq<Byte>)
    requires s != [] && Decode(s).Some?
    ensures head != [] && s == head + tail && Encodes(cp, head)
    ensures Decode(tail).Some? && Decode(s).value == [cp] + Decode(tail).value
  {
    var d := DecodeOne(s).value;
    cp, head, tail := d.cp, s[..d.size], s[d.size..];
    EncodeDecodedOne(s);
  }

  /** Only encodings of scalar values are accepted, each byte sequence for one text. */
  lemma {:induction false} EncodeDecode(s: seq<Byte>)
    requires Decode(s).Some?
    ensures EncodesAll(Decode(s).value, s)
    decreases |s|
  {
    if s != [] {
      var cp, head, tail := DecodeSplits(s);
      EncodeDecode(tail);
      EncodesCons(cp, head, Decode(tail).value, tail);
    }
  }

  // ---- UTF-16 ----------------------------------------------------------------------

  lemma WellFormedPair(str: seq<Unit>)
    requires Paired(str) && (WellFormed(str[2..]) <==> AllScalar(Points(str[2..])))
    ensures WellFormed(str) <==> AllScalar(Points(str))
  {
    PairIsScalar(str[0], str[1]);
    ScalarsCons(PairPoint(str[0], str[1]), Points(str[2..]));
  }

  lemma WellFormedSingle(str: seq<Unit>)
    requires str != [] && !Paired(str) && (WellFormed(str[1..]) <==> AllScalar(Points(str[1..])))
    ensures WellFormed(str) <==> AllScalar(Points(str))
  {
    UnitIsScalarIff(str[0]);
    ScalarsCons(str[0] as bv32, Points(str[1..]));
  }

  lemma {:induction false} WellFormedIffScalars(str: seq<Unit>)
    ensures WellFormed(str) <==> AllScalar(Points(str))
    decreases |str|
  {
    if str == [] {
    } else if Paired(str) {
      WellFormedIffScalars(str[2..]);
      WellFormedPair(str);
    } else {
      WellFormedIffScalars(str[1..]);
      WellFormedSingle(str);
    }
  }

  lemma PairIsScalar(c: Unit, c2: Unit)
    ensures Scalar(PairPoint(c, c2))
  {
  }

  lemma UnitIsScalarIff(u: Unit)
    ensures Scalar(u as bv32) <==> !High(u) && !Low(u)
  {
  }

  lemma ScalarsCons(cp: bv32, cps: seq<bv32>)
    ensures AllScalar([cp] + cps) <==> Scalar(cp) && AllScalar(cps)
  {
    assert ([cp] + cps)[1..] == cps;
  }

  /** Writing the code points as units again gives the string. */
  lemma {:induction false} UnitsOfPoints(str: seq<Unit>)
    requires WellFormed(str)
    ensures AllScalar(Points(str)) && Units(Points(str)) == str
    decreases |str|
  {
    WellFormedIffScalars(str);
    if str != [] {
      if Paired(str) {
        UnitsOfPoints(str[2..]);
        PairHigh(str[0], str[1]);
        PairLow(str[0], str[1]);
        assert str == [str[0], str[1]] + str[2..];
      } else {
        UnitsOfPoints(str[1..]);
        UnitAlone(str[0]);
        assert str == [str[0]] + str[1..];
      }
    }
  }

  lemma UnitAlone(u: Unit)
    ensures u as bv32 <= 0xffff && (u as bv32) as bv16 == u
  {
  }

  lemma PointsStep(cp: bv32, rest: seq<Unit>)
    requires Scalar(cp)
    ensures Points(UnitsOfPoint(cp) + rest) == [cp] + Points(rest)
  {
    var str := UnitsOfPoint(cp) + rest;
    if cp <= 0xffff {
      assert str[1..] == rest;
      BmpIsNotHigh(cp);
    } else {
      HighIsHigh(cp);
      LowIsLow(cp);
      UnitsPair(cp);
      assert str[2..] == rest;
    }
  }

  lemma BmpIsNotHigh(cp: bv32)
    requires Scalar(cp) && cp <= 0xffff
    ensures !High(cp as bv16) && (cp as bv16) as bv32 == cp
  {
  }

  lemma {:induction false} PointsOfUnits(cps: seq<bv32>)
    requires AllScalar(cps)
    ensures Points(Units(cps)) == cps && WellFormed(Units(cps))
  {
    if cps != [] {
      PointsOfUnits(cps[1..]);
      PointsStep(cps[0], Units(cps[1..]));
      assert cps == [cps[0]] + cps[1..];
    }
    WellFormedIffScalars(Units(cps));
  }

  // ---- the encoder -----------------------------------------------------------------

  /** On well-formed UTF-16 the loop emits the UTF-8 encoding of the string's code points. */
  lemma {:induction false} FallbackEncodes(str: seq<Unit>)
    requires WellFormed(str)
    ensures AllScalar(Points(str)) && Fallback(str) == Encode(Points(str))
    decreases |str|
  {
    WellFormedIffScalars(str);
    if str != [] {
      if Paired(str) {
        FallbackEncodes(str[2..]);
      } else {
        FallbackEncodes(str[1..]);
      }
    }
  }

  /** The bytes decode to exactly the string's code points if and only if its surrogates are paired. */
  lemma FallbackRoundTripsIff(str: seq<Unit>)
    ensures Decode(Fallback(str)) == Some(Points(str)) <==> WellFormed(str)
  {
    WellFormedIffScalars(str);
    if WellFormed(str) {
      FallbackEncodes(str);
      DecodeEncode(Points(str));
    }
    if Decode(Fallback(str)) == Some(Points(str)) { EncodeDecode(Fallback(str)); }
  }

  /** Every surrogate the loop meets is a high one with some unit after it. */
  predicate NoStray(str: seq<Unit>) {
    str == [] ||
    (if TakesPair(str) then NoStray(str[2..]) else !High(str[0]) && !Low(str[0]) && NoStray(str[1..]))
  }

  lemma TakenPairIsScalar(str: seq<Unit>, c: Unit, c2: Unit)
    requires TakesPair(str) && c == str[0] && c2 == str[1]
    ensures Scalar(Taken(str))
  {
    PairIsScalar(c, c2);
  }

  lemma TakenUnitIsScalarIff(str: seq<Unit>, u: Unit)
    requires str != [] && !TakesPair(str) && u == str[0]
    ensures Scalar(Taken(str)) <==> !High(u) && !Low(u)
  {
    UnitIsScalarIff(u);
  }

  lemma TakenIsScalarIff(str: seq<Unit>)
    requires str != []
    ensures Scalar(Taken(str)) <==> TakesPair(str) || (!High(str[0]) && !Low(str[0]))
  {
    if TakesPair(str) { TakenPairIsScalar(str, str[0], str[1]); } else { TakenUnitIsScalarIff(str, str[0]); }
  }

  lemma ValidStep(str: seq<Unit>)
    requires str != []
    ensures Decode(Fallback(str)).Some? <==> Scalar(Taken(str)) && Decode(Fallback(str[Consumed(str)..])).Some?
  {
    DecodeStep(Taken(str), Fallback(str[Consumed(str)..]));
  }

  /** The output is valid UTF-8 if and only if the loop meets no stray surrogate. */
  lemma {:induction false} FallbackIsValidIff(str: seq<Unit>)
    ensures Decode(Fallback(str)).Some? <==> NoStray(str)
    decreases |str|
  {
    if str != [] {
      FallbackIsValidIff(str[Consumed(str)..]);
      ValidStep(str);
      TakenIsScalarIff(str);
    }
  }

  /** Distinct well-formed strings have distinct encodings. */
  lemma FallbackIsInjective(a: seq<Unit>, b: seq<Unit>)
    requires WellFormed(a) && WellFormed(b) && Fallback(a) == Fallback(b)
    ensures a == b
  {
    FallbackRoundTripsIff(a);
    FallbackRoundTripsIff(b);
    UnitsOfPoints(a);
    UnitsOfPoints(b);
  }

  /** A high surrogate swallows whatever follows: an ill-formed string shares its bytes with a well-formed one. */
  lemma UnpairedSurrogateCollides()
    ensures !WellFormed([0xd800, 0x41]) && WellFormed([0xd800, 0xdc41])
    ensures Fallback([0xd800, 0x41]) == Fallback([0xd800, 0xdc41])
  {
    var a, b: seq<Unit> := [0xd800, 0x41], [0xd800, 0xdc41];
    assert a[2..] == [] && b[2..] == [] && PairPoint(0xd800, 0x41) == PairPoint(0xd800, 0xdc41);
    assert Paired(b) && !Paired(a) && High(a[0]);
  }

  // ---- the same shard in both languages --------------------------------------------

  /** Python's `zlib.crc32(ref.encode("utf-8")) % N`; `None` is its division by zero. */
  function PythonShard(ref: seq<bv32>, n: int): Option<int>
    requires AllScalar(ref)
  {
    if n == 0 then None
    else
      var crc := Crc32.ReferenceCrc(Encode(ref)) as int;
      Some(if n > 0 then crc % n else -((-crc) % n))
  }

  /** JavaScript's remainder of the table-driven checksum; `None` is `NaN`. */
  method ShardFor(table: array<bv32>, ref: seq<Unit>, n: int) returns (shard: Option<int>)
    requires table.Length == 256 && Crc32.Filled(table, 256)
    ensures n > 0 ==> shard.Some? && 0 <= shard.value < n
    ensures n == 0 ==> shard == None
    ensures n > 0 ==> forall cps :: AllScalar(cps) && ref == Units(cps) ==> shard == PythonShard(cps, n)
  {
    var bytes := Utf8Fallback(ref);
    var crc := Crc32.Crc(table, bytes);
    if n == 0 { return None; }
    shard := Some(crc as int % (if n > 0 then n else -n));
    forall cps | AllScalar(cps) && ref == Units(cps) ensures bytes == Encode(cps) {
      PointsOfUnits(cps);
      FallbackEncodes(ref);
    }
  }
}
