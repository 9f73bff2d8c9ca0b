/** The table-driven CRC-32 of `load/lib/shards.js`, against the bit-serial CRC-32. */
module Crc32 {
  import opened ShiftRegister

  const POLYNOMIAL: bv32 := 0xedb8_8320
  const ALL_ONES: bv32 := 0xffff_ffff

  function Xor(x: bv32, y: bv32): bv32 { x ^ y }

  function Half(x: bv32): bv32 { x >> 1 }

  predicate LowBit(x: bv32) { x & 1 == 1 }

  /** One step of the reflected shift register. */
  function Shift(reg: bv32): bv32 {
    if LowBit(reg) then POLYNOMIAL ^ (reg >> 1) else reg >> 1
  }

  // ---- the reference: one message bit at a time ------------------------------------

  function TakeBit(reg: bv32, bit: bool): bv32 {
    Shift(Xor(reg, BitWord(bit)))
  }

  /** The bits of the message in transmission order: bytes in order, least significant bit first. */
  function MessageBits(bytes: seq<bv8>): seq<bool> {
    if bytes == [] then [] else MessageBits(bytes[..|bytes| - 1]) + Bits(LowBit, Half, bytes[|bytes| - 1] as bv32, 8)
  }

  /** CRC-32 bit by bit: preset to ones, shift in the message, complement. */
  function ReferenceCrc(bytes: seq<bv8>): bv32 {
    Serial(TakeBit, ALL_ONES, MessageBits(bytes)) ^ ALL_ONES
  }

  // ---- the table form --------------------------------------------------------------

  function Entry(n: bv32): bv32 {
    Iterate(Shift, n, 8)
  }

  function EntryAt(n: nat): bv32
    requires n < 256
  {
    Entry(n as bv32)
  }

  method TableEntry(n: nat) returns (c: bv32)
    requires n < 256
    ensures c == EntryAt(n)
  {
    c := n as bv32;
    for k := 0 to 8
      invariant c == Iterate(Shift, n as bv32, k)
    {
      c := if c & 1 == 1 then POLYNOMIAL ^ (c >> 1) else c >> 1;
    }
  }

  /** The first `n` entries are in place. */
  ghost predicate Filled(table: array<bv32>, n: nat)
    reads table
    requires n <= 256 == table.Length
  {
    forall m {:trigger table[m]} :: 0 <= m < n ==> table[m] == EntryAt(m)
  }

  method SetEntry(table: array<bv32>, n: nat, c: bv32)
    requires n < 256 == table.Length && Filled(table, n) && c == EntryAt(n)
    modifies table
    ensures Filled(table, n + 1)
  {
    table[n] := c;
  }

  method BuildTable() returns (table: array<bv32>)
    ensures fresh(table) && table.Length == 256 && Filled(table, 256)
  {
    table := new bv32[256];
    for n := 0 to 256
      invariant Filled(table, n)
    {
      var c := TableEntry(n);
      SetEntry(table, n, c);
    }
  }

  /** One byte through the table. */
  function ByByte(reg: bv32, b: bv8): bv32 {
    Entry((reg ^ b as bv32) & 0xff) ^ (reg >> 8)
  }

  function Register(bytes: seq<bv8>): bv32 {
    Fold(ByByte, ALL_ONES, bytes)
  }

  // ---- word arithmetic -------------------------------------------------------------

  lemma XorBasics(p: bv32, x: bv32, y: bv32)
    ensures (p ^ x) ^ (p ^ y) == x ^ y && (p ^ x) ^ y == p ^ (x ^ y) && x ^ (p ^ y) == p ^ (x ^ y)
  {
  }

  lemma XorOfHalves(x: bv32, y: bv32)
    ensures (x ^ y) >> 1 == (x >> 1) ^ (y >> 1)
    ensures (x ^ y) & 1 == 1 <==> (x & 1 == 1) != (y & 1 == 1)
  {
  }

  lemma ShiftIsLinear(x: bv32, y: bv32)
    ensures Shift(x ^ y) == Shift(x) ^ Shift(y)
  {
    XorOfHalves(x, y);
    XorBasics(POLYNOMIAL, x >> 1, y >> 1);
  }

  lemma ShiftIsAdditive()
    ensures Additive(Xor, Shift)
  {
    forall x, y ensures Shift(Xor(x, y)) == Xor(Shift(x), Shift(y)) { ShiftIsLinear(x, y); }
  }

  lemma HighBitTellsLowBit(p: bv32, reg: bv32)
    requires p == POLYNOMIAL
    ensures (p ^ (reg >> 1)) & 0x8000_0000 != 0 && (reg >> 1) & 0x8000_0000 == 0
  {
  }

  lemma XorCancels(p: bv32, x: bv32, y: bv32)
    ensures p ^ x == p ^ y ==> x == y
  {
  }

  lemma ShiftKeepsLowBitApart(x: bv32, y: bv32)
    requires LowBit(x) && !LowBit(y)
    ensures Shift(x) != Shift(y)
  {
    HighBitTellsLowBit(POLYNOMIAL, x);
    HighBitTellsLowBit(POLYNOMIAL, y);
  }

  lemma SameLowBitSameHalf(x: bv32, y: bv32)
    requires Shift(x) == Shift(y) && LowBit(x) == LowBit(y)
    ensures Half(x) == Half(y)
  {
    XorCancels(POLYNOMIAL, x >> 1, y >> 1);
  }

  lemma HalfAndLowBitDetermine(x: bv32, y: bv32)
    requires LowBit(x) == LowBit(y) && Half(x) == Half(y)
    ensures x == y
  {
  }

  lemma ShiftIsInjective(x: bv32, y: bv32)
    requires Shift(x) == Shift(y)
    ensures x == y
  {
    if LowBit(x) && !LowBit(y) {
      ShiftKeepsLowBitApart(x, y);
    } else if LowBit(y) && !LowBit(x) {
      ShiftKeepsLowBitApart(y, x);
    } else {
      SameLowBitSameHalf(x, y);
      HalfAndLowBitDetermine(x, y);
    }
  }

  // ---- a byte through the register -------------------------------------------------

  lemma EightHalves(x: bv32)
    ensures Iterate(Half, x, 8) == x >> 8
  {
    IterateEight(Half, x);
  }

  lemma ClearByte(x: bv32)
    requires x & 0xff == 0
    ensures LowClear(LowBit, Half, x, 8)
  {
    LowClearEight(LowBit, Half, x);
  }

  lemma SplitRegister(reg: bv32, b: bv8)
    ensures reg ^ b as bv32 == ((reg ^ b as bv32) & 0xff) ^ (reg & 0xffff_ff00)
    ensures (reg & 0xffff_ff00) & 0xff == 0 && (reg & 0xffff_ff00) >> 8 == reg >> 8
  {
  }

  lemma ByteIsLow(reg: bv32, b: bv8)
    ensures (reg ^ b as bv32) >> 8 == reg >> 8
  {
  }

  lemma EightShiftsSplit(v: bv32, low: bv32, high: bv32, moved: bv32)
    requires v == Xor(low, high) && high & 0xff == 0 && high >> 8 == moved
    ensures Iterate(Shift, v, 8) == Xor(Entry(low), moved)
  {
    ShiftIsAdditive();
    IterateAdditive(Xor, Shift, low, high, 8);
    ClearByte(high);
    ClearBitsMoveDown(LowBit, Half, Shift, high, 8);
    EightHalves(high);
  }

  lemma ByByteUnfolds(reg: bv32, b: bv8, low: bv32, moved: bv32)
    requires low == (reg ^ b as bv32) & 0xff && moved == reg >> 8
    ensures ByByte(reg, b) == Xor(Entry(low), moved)
  {
  }

  lemma Splits(reg: bv32, b: bv8) returns (v: bv32, low: bv32, high: bv32, moved: bv32)
    ensures v == reg ^ b as bv32 && low == (reg ^ b as bv32) & 0xff && moved == reg >> 8
    ensures v == Xor(low, high) && high & 0xff == 0 && high >> 8 == moved
  {
    SplitRegister(reg, b);
    v, low, high, moved := reg ^ b as bv32, (reg ^ b as bv32) & 0xff, reg & 0xffff_ff00, reg >> 8;
  }

  /** The table step is eight shifts of the register with the byte added in. */
  lemma ByByteIsEightShifts(reg: bv32, b: bv8)
    ensures ByByte(reg, b) == Iterate(Shift, reg ^ b as bv32, 8)
  {
    var v, low, high, moved := Splits(reg, b);
    ByByteUnfolds(reg, b, low, moved);
    EightShiftsSplit(v, low, high, moved);
  }

  function BitWord(bit: bool): bv32 { if bit then 1 else 0 }

  lemma LowBitAlone(x: bv32)
    ensures !LowBit(Xor(x, BitWord(LowBit(x)))) && Xor(x, BitWord(LowBit(x))) >> 1 == Half(x)
  {
  }

  lemma ShiftWithoutLowBit(x: bv32)
    ensures Shift(Xor(x, BitWord(LowBit(x)))) == Half(x)
  {
    LowBitAlone(x);
  }

  lemma XorSame(reg: bv32, bit: bv32, x: bv32)
    ensures Xor(Xor(reg, bit), Xor(x, bit)) == Xor(reg, x)
  {
  }

  lemma TakeBitThenRest(reg: bv32, x: bv32)
    ensures Xor(TakeBit(reg, LowBit(x)), Half(x)) == Shift(Xor(reg, x))
  {
    ShiftIsAdditive();
    ShiftWithoutLowBit(x);
    forall r, b, x ensures Xor(Xor(r, b), Xor(x, b)) == Xor(r, x) { XorSame(r, b, x); }
    BitThenRest(Xor, Shift, Half, reg, BitWord(LowBit(x)), x);
  }

  lemma ZeroIsZero()
    ensures IsZero(Xor, 0)
  {
  }

  lemma ByteLeavesNothing(b: bv8)
    ensures Iterate(Half, b as bv32, 8) == 0
  {
    EightHalves(b as bv32);
    ByteIsLow(0, b);
  }

  lemma TakesBitsFirst()
    ensures TakesBits(Xor, Shift, LowBit, Half, TakeBit)
  {
    forall r, x ensures Xor(TakeBit(r, LowBit(x)), Half(x)) == Shift(Xor(r, x)) { TakeBitThenRest(r, x); }
  }

  lemma ByteSerially(reg: bv32, b: bv8)
    ensures Serial(TakeBit, reg, Bits(LowBit, Half, b as bv32, 8)) == Iterate(Shift, Xor(reg, b as bv32), 8)
  {
    TakesBitsFirst();
    ByteLeavesNothing(b);
    ZeroIsZero();
    SerialOfBits(Xor, Shift, LowBit, Half, TakeBit, reg, b as bv32, 8);
  }

  // ---- the two forms agree ---------------------------------------------------------

  lemma {:induction false} RegisterIsSerial(bytes: seq<bv8>)
    ensures Register(bytes) == Serial(TakeBit, ALL_ONES, MessageBits(bytes))
  {
    if bytes != [] {
      var init, b := bytes[..|bytes| - 1], bytes[|bytes| - 1];
      RegisterIsSerial(init);
      SerialConcat(TakeBit, ALL_ONES, MessageBits(init), Bits(LowBit, Half, b as bv32, 8));
      ByteSerially(Register(init), b);
      ByByteIsEightShifts(Register(init), b);
    }
  }

  lemma IndexInTable(index: bv32)
    requires index <= 0xff
    ensures 0 <= index as int < 256 && (index as int) as bv32 == index
  {
  }

  lemma LowByteIsSmall(x: bv32)
    ensures x & 0xff <= 0xff
  {
  }

  method StepByte(table: array<bv32>, crc: bv32, b: bv8) returns (r: bv32)
    requires table.Length == 256 && Filled(table, 256)
    ensures r == ByByte(crc, b)
  {
    var index := (crc ^ b as bv32) & 0xff;
    LowByteIsSmall(crc ^ b as bv32);
    IndexInTable(index);
    r := table[index as int] ^ (crc >> 8);
  }

  /** The table-driven loop computes the bit-serial CRC-32 of the bytes. */
  method Crc(table: array<bv32>, bytes: seq<bv8>) returns (r: bv32)
    requires table.Length == 256 && Filled(table, 256)
    ensures r == ReferenceCrc(bytes)
  {
    var crc: bv32 := ALL_ONES;
    for i := 0 to |bytes|
      invariant crc == Register(bytes[..i])
    {
      assert bytes[..i + 1][..i] == bytes[..i];
      crc := StepByte(table, crc, bytes[i]);
    }
    assert bytes[..|bytes|] == bytes;
    RegisterIsSerial(bytes);
    return crc ^ ALL_ONES;
  }

  /** The checksum of "a" that the parity tests pin. */
  lemma GoldenValueOfA()
    ensures ReferenceCrc([0x61]) == 3904355907
  {
    assert Iterate(Shift, 0x9e, 1) == 0x4f;
    assert Iterate(Shift, 0x9e, 2) == 0xedb88307;
    assert Iterate(Shift, 0x9e, 3) == 0x9b64c2a3;
    assert Iterate(Shift, 0x9e, 4) == 0xa00ae271;
    assert Iterate(Shift, 0x9e, 5) == 0xbdbdf218;
    assert Iterate(Shift, 0x9e, 6) == 0x5edef90c;
    assert Iterate(Shift, 0x9e, 7) == 0x2f6f7c86;
    assert Iterate(Shift, 0x9e, 8) == 0x17b7be43;
    assert [0x61 as bv8][..0] == [];
    assert Register([0x61]) == ByByte(ALL_ONES, 0x61);
    RegisterIsSerial([0x61]);
  }

  // ---- what the checksum tells apart -----------------------------------------------

  lemma ByByteIsInjective(x: bv32, a: bv8, y: bv32, b: bv8)
    requires ByByte(x, a) == ByByte(y, b)
    ensures x ^ a as bv32 == y ^ b as bv32
  {
    ByByteIsEightShifts(x, a);
    ByByteIsEightShifts(y, b);
    forall x, y | Shift(x) == Shift(y) ensures x == y { ShiftIsInjective(x, y); }
    IterateInjective(Shift, x ^ a as bv32, y ^ b as bv32, 8);
  }

  lemma RegisterFromXor(x: bv32, y: bv32, m: bv32)
    requires x ^ m == y ^ m
    ensures x == y
  {
  }

  lemma ByteFromXor(x: bv32, a: bv8, b: bv8)
    requires x ^ a as bv32 == x ^ b as bv32
    ensures a == b
  {
  }

  lemma SameByteKeepsApart(x: bv32, y: bv32, b: bv8)
    requires x != y
    ensures ByByte(x, b) != ByByte(y, b)
  {
    if ByByte(x, b) == ByByte(y, b) {
      ByByteIsInjective(x, b, y, b);
      RegisterFromXor(x, y, b as bv32);
    }
  }

  lemma XorAllOnes(x: bv32, y: bv32)
    ensures x ^ ALL_ONES == y ^ ALL_ONES ==> x == y
  {
  }

  /** Two messages that differ in one byte never share a checksum. */
  lemma OneByteChangesTheCrc(head: seq<bv8>, x: bv8, y: bv8, tail: seq<bv8>)
    requires x != y
    ensures ReferenceCrc(head + [x] + tail) != ReferenceCrc(head + [y] + tail)
  {
    var reg := Register(head);
    if ByByte(reg, x) == ByByte(reg, y) {
      ByByteIsInjective(reg, x, reg, y);
      ByteFromXor(reg, x, y);
    }
    forall r, r', b | r != r' ensures ByByte(r, b) != ByByte(r', b) { SameByteKeepsApart(r, r', b); }
    FoldOneApart(ByByte, ALL_ONES, head, x, y, tail);
    RegisterIsSerial(head + [x] + tail);
    RegisterIsSerial(head + [y] + tail);
    XorAllOnes(Register(head + [x] + tail), Register(head + [y] + tail));
  }
}
