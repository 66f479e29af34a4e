/**
 * CRC-16/CCITT-FALSE: the nibble-table routine, the bit-by-bit reference it must agree
 * with, and exactly which damage the checksum notices.
 *
 * The specification is a 16-bit shift register fed one message bit at a time. It is
 * linear over GF(2), so whether damage goes unnoticed depends on the damage alone.
 */
module Crc16 {
  import opened Bytes

  datatype Register = Register(b15: bool, b14: bool, b13: bool, b12: bool, b11: bool, b10: bool, b9: bool, b8: bool,
                               b7: bool, b6: bool, b5: bool, b4: bool, b3: bool, b2: bool, b1: bool, b0: bool)

  const INIT: bv16 := 0xFFFF
  const ZERO := Register(false, false, false, false, false, false, false, false,
                         false, false, false, false, false, false, false, false)

  function Xor(a: Register, b: Register): Register {
    Register(a.b15 != b.b15, a.b14 != b.b14, a.b13 != b.b13, a.b12 != b.b12,
             a.b11 != b.b11, a.b10 != b.b10, a.b9 != b.b9, a.b8 != b.b8,
             a.b7 != b.b7, a.b6 != b.b6, a.b5 != b.b5, a.b4 != b.b4,
             a.b3 != b.b3, a.b2 != b.b2, a.b1 != b.b1, a.b0 != b.b0)
  }

  /** Feeds one message bit: shift left, and subtract x^16 + x^12 + x^5 + 1 when a one falls out. */
  function Step(c: Register, bit: bool): Register {
    var o := c.b15 != bit;
    Register(c.b14, c.b13, c.b12, c.b11 != o, c.b10, c.b9, c.b8, c.b7,
             c.b6, c.b5, c.b4 != o, c.b3, c.b2, c.b1, c.b0, o)
  }

  /** The register after feeding a bit string. */
  function Reg(c: Register, s: seq<bool>): Register
    decreases |s|
  {
    if s == [] then c else Reg(Step(c, s[0]), s[1..])
  }

  function HighBits(b: byte): seq<bool> {
    [b & 0x80 != 0, b & 0x40 != 0, b & 0x20 != 0, b & 0x10 != 0]
  }

  function LowBits(b: byte): seq<bool> {
    [b & 8 != 0, b & 4 != 0, b & 2 != 0, b & 1 != 0]
  }

  /** A byte string as message bits, most significant first. */
  function Bits(data: seq<byte>): (s: seq<bool>)
    ensures |s| == 8 * |data|
  {
    if data == [] then [] else HighBits(data[0]) + LowBits(data[0]) + Bits(data[1..])
  }

  /** The bits of a `uint16_t`. */
  function Word(c: bv16): Register {
    Register(c & 0x8000 != 0, c & 0x4000 != 0, c & 0x2000 != 0, c & 0x1000 != 0,
             c & 0x0800 != 0, c & 0x0400 != 0, c & 0x0200 != 0, c & 0x0100 != 0,
             c & 0x0080 != 0, c & 0x0040 != 0, c & 0x0020 != 0, c & 0x0010 != 0,
             c & 0x0008 != 0, c & 0x0004 != 0, c & 0x0002 != 0, c & 0x0001 != 0)
  }

  // ---- the two implementations ------------------------------------------------------

  /** The 16-entry table: the contribution of each 4-bit value. */
  function NibbleTable(i: bv16): bv16 {
    if i == 0 then 0x0000 else if i == 1 then 0x1021 else if i == 2 then 0x2042 else if i == 3 then 0x3063
    else if i == 4 then 0x4084 else if i == 5 then 0x50A5 else if i == 6 then 0x60C6 else if i == 7 then 0x70E7
    else if i == 8 then 0x8108 else if i == 9 then 0x9129 else if i == 10 then 0xA14A else if i == 11 then 0xB16B
    else if i == 12 then 0xC18C else if i == 13 then 0xD1AD else if i == 14 then 0xE1CE else 0xF1EF
  }

  function Lookup(c: bv16, nibble: bv16): bv16 {
    (c << 4) ^ NibbleTable(((c >> 12) ^ nibble) & 0x0F)
  }

  /** The table-driven checksum as a function: high nibble, then low nibble, of each byte. */
  function CrcFrom(c: bv16, data: seq<byte>): bv16
    decreases |data|
  {
    if data == [] then c else
      CrcFrom(Lookup(Lookup(c, (data[0] >> 4) as bv16), (data[0] & 0x0F) as bv16), data[1..])
  }

  function Crc(data: seq<byte>): bv16 {
    CrcFrom(INIT, data)
  }

  /** The table computes the shift register: its value is the polynomial remainder. */
  lemma {:induction false} CrcIsRegister(c: bv16, data: seq<byte>)
    ensures Word(CrcFrom(c, data)) == Reg(Word(c), Bits(data))
    decreases |data|
  {
    hide Step, Word, HighBits, LowBits, Lookup;
    if data != [] {
      LookupByte(c, data[0]);
      RegConcat(Word(c), HighBits(data[0]) + LowBits(data[0]), Bits(data[1..]));
      CrcIsRegister(Lookup(Lookup(c, (data[0] >> 4) as bv16), (data[0] & 0x0F) as bv16), data[1..]);
    }
  }

  lemma LookupByte(c: bv16, b: byte)
    ensures Word(Lookup(Lookup(c, (b >> 4) as bv16), (b & 0x0F) as bv16)) == Reg(Word(c), HighBits(b) + LowBits(b))
  {
    hide *;
    NibbleBits(b);
    LookupNibble(c, (b >> 4) as bv16, HighBits(b));
    LookupNibble(Lookup(c, (b >> 4) as bv16), (b & 0x0F) as bv16, LowBits(b));
    RegConcat(Word(c), HighBits(b), LowBits(b));
  }

  lemma LookupNibble(c: bv16, nibble: bv16, bits: seq<bool>)
    requires nibble < 16
    requires bits == [nibble & 8 != 0, nibble & 4 != 0, nibble & 2 != 0, nibble & 1 != 0]
    ensures Word(Lookup(c, nibble)) == Reg(Word(c), bits)
  {
    hide Step, Word, Reg, NibbleTable;
    var index := ((c >> 12) ^ nibble) & 0x0F;
    IndexBits(c, nibble, index);
    TableStep(c, index, nibble, Lookup(c, nibble));
    RegFour(Word(c), bits);
  }

  /** The table-driven checksum as the code runs it. */
  method Crc16(data: seq<byte>) returns (crc: bv16)
    ensures crc == Crc(data)
    ensures Word(crc) == Reg(Word(INIT), Bits(data))
  {
    hide Word, Lookup, Bits;
    CrcIsRegister(INIT, data);
    crc := INIT;
    assert data[0..] == data;
    for i := 0 to |data|
      invariant CrcFrom(crc, data[i..]) == Crc(data)
    {
      assert data[i..][1..] == data[i + 1..];
      crc := Lookup(crc, (data[i] >> 4) as bv16);
      crc := Lookup(crc, (data[i] & 0x0F) as bv16);
    }
    assert data[|data|..] == [];
  }

  /** The bit-by-bit reference: exclusive-or the byte in at the top, then eight shifts. */
  method Crc16Reference(data: seq<byte>) returns (crc: bv16)
    ensures crc == Crc(data)
    ensures Word(crc) == Reg(Word(INIT), Bits(data))
  {
    hide Step, Word, HighBits, LowBits;
    crc := INIT;
    assert data[0..] == data;
    for i := 0 to |data|
      invariant Reg(Word(crc), Bits(data[i..])) == Reg(Word(INIT), Bits(data))
    {
      assert data[i..][1..] == data[i + 1..];
      RegConcat(Word(crc), HighBits(data[i]) + LowBits(data[i]), Bits(data[i + 1..]));
      crc := ShiftByte(crc, data[i]);
    }
    assert data[|data|..] == [];
    CrcIsRegister(INIT, data);
    WordInjective(crc, Crc(data));
  }

  lemma WordInjective(a: bv16, b: bv16)
    requires Word(a) == Word(b)
    ensures a == b
  {
  }

  method ShiftByte(start: bv16, data: byte) returns (crc: bv16)
    ensures Word(crc) == Reg(Word(start), HighBits(data) + LowBits(data))
  {
    hide Step, Word, Xor, LowBitSet;
    ghost var reg, rest := Word(start), HighBits(data) + LowBits(data);
    AbsorbByte(start, data);
    crc := start ^ ((data as bv16) << 8);
    for bit := 0 to 8
      invariant |rest| == 8 - bit
      invariant Word(crc) == Xor(reg, Pending(rest))
      invariant Reg(reg, rest) == Reg(Word(start), HighBits(data) + LowBits(data))
    {
      Linear(reg, Pending(rest), rest[0], rest[0]);
      PendingStep(rest);
      ShiftBits(crc);
      if crc & 0x8000 != 0 {
        crc := (crc << 1) ^ 0x1021;
      } else {
        crc := crc << 1;
      }
      reg, rest := Step(reg, rest[0]), rest[1..];
    }
    XorZero(reg);
  }

  /** Message bits waiting in the top of the register. */
  function Pending(s: seq<bool>): Register
    decreases |s|
  {
    if s == [] then ZERO else ShiftIn(s[0], Pending(s[1..]))
  }

  function ShiftIn(bit: bool, r: Register): Register {
    Register(bit, r.b15, r.b14, r.b13, r.b12, r.b11, r.b10, r.b9, r.b8, r.b7, r.b6, r.b5, r.b4, r.b3, r.b2, r.b1)
  }

  /** Some of the `m` lowest bits is set. */
  predicate LowBitSet(c: Register, m: int) {
    || (m >= 1 && c.b0) || (m >= 2 && c.b1) || (m >= 3 && c.b2) || (m >= 4 && c.b3)
    || (m >= 5 && c.b4) || (m >= 6 && c.b5) || (m >= 7 && c.b6) || (m >= 8 && c.b7)
    || (m >= 9 && c.b8) || (m >= 10 && c.b9) || (m >= 11 && c.b10) || (m >= 12 && c.b11)
    || (m >= 13 && c.b12) || (m >= 14 && c.b13) || (m >= 15 && c.b14) || (m >= 16 && c.b15)
  }

  lemma {:induction false} PendingLow(s: seq<bool>)
    requires |s| <= 16
    ensures !LowBitSet(Pending(s), 16 - |s|)
    decreases |s|
  {
    if s != [] {
      PendingLow(s[1..]);
    }
  }

  /** Feeding the waiting bit itself just shifts it out. */
  lemma PendingStep(s: seq<bool>)
    requires 0 < |s| <= 16
    ensures Step(Pending(s), s[0]) == Pending(s[1..])
  {
    PendingLow(s[1..]);
  }

  lemma XorZero(c: Register)
    ensures Xor(c, ZERO) == c
  {
  }

  lemma AbsorbByte(c: bv16, b: byte)
    ensures Word(c ^ ((b as bv16) << 8)) == Xor(Word(c), Pending(HighBits(b) + LowBits(b)))
  {
    hide Word, Xor, ShiftIn, Pending;
    var s := HighBits(b) + LowBits(b);
    PendingEight(s);
    assert s[8..] == [] && Pending([]) == ZERO by { PendingNone(); }
    ShiftInEight(b & 0x80 != 0, b & 0x40 != 0, b & 0x20 != 0, b & 0x10 != 0, b & 8 != 0, b & 4 != 0, b & 2 != 0, b & 1 != 0, ZERO);
    AbsorbWord(c, b, c ^ ((b as bv16) << 8));
  }

  lemma PendingNone()
    ensures Pending([]) == ZERO
  {
  }

  lemma PendingEight(s: seq<bool>)
    requires |s| >= 8
    ensures Pending(s) == ShiftIn(s[0], ShiftIn(s[1], ShiftIn(s[2], ShiftIn(s[3],
                            ShiftIn(s[4], ShiftIn(s[5], ShiftIn(s[6], ShiftIn(s[7], Pending(s[8..])))))))))
  {
    hide ShiftIn;
    assert s[7..][1..] == s[8..] && s[6..][1..] == s[7..] && s[5..][1..] == s[6..] && s[4..][1..] == s[5..];
    assert s[3..][1..] == s[4..] && s[2..][1..] == s[3..] && s[1..][1..] == s[2..];
    assert Pending(s[7..]) == ShiftIn(s[7], Pending(s[8..]));
    assert Pending(s[6..]) == ShiftIn(s[6], Pending(s[7..]));
    assert Pending(s[5..]) == ShiftIn(s[5], Pending(s[6..]));
    assert Pending(s[4..]) == ShiftIn(s[4], Pending(s[5..]));
    assert Pending(s[3..]) == ShiftIn(s[3], Pending(s[4..]));
    assert Pending(s[2..]) == ShiftIn(s[2], Pending(s[3..]));
    assert Pending(s[1..]) == ShiftIn(s[1], Pending(s[2..]));
  }

  lemma AbsorbWord(c: bv16, b: byte, t: bv16)
    requires t == c ^ ((b as bv16) << 8)
    ensures Word(t) == Xor(Word(c), Register(b & 0x80 != 0, b & 0x40 != 0, b & 0x20 != 0, b & 0x10 != 0,
                                             b & 8 != 0, b & 4 != 0, b & 2 != 0, b & 1 != 0,
                                             false, false, false, false, false, false, false, false))
  {
    AbsorbBits(c, b, t);
  }

  lemma ShiftInEight(x7: bool, x6: bool, x5: bool, x4: bool, x3: bool, x2: bool, x1: bool, x0: bool, r: Register)
    ensures ShiftIn(x7, ShiftIn(x6, ShiftIn(x5, ShiftIn(x4, ShiftIn(x3, ShiftIn(x2, ShiftIn(x1, ShiftIn(x0, r))))))))
         == Register(x7, x6, x5, x4, x3, x2, x1, x0, r.b15, r.b14, r.b13, r.b12, r.b11, r.b10, r.b9, r.b8)
  {
  }

  lemma AbsorbBits(c: bv16, b: byte, t: bv16)
    requires t == c ^ ((b as bv16) << 8)
    ensures (t & 0x8000 != 0) == ((c & 0x8000 != 0) != (b & 0x80 != 0))
    ensures (t & 0x4000 != 0) == ((c & 0x4000 != 0) != (b & 0x40 != 0))
    ensures (t & 0x2000 != 0) == ((c & 0x2000 != 0) != (b & 0x20 != 0))
    ensures (t & 0x1000 != 0) == ((c & 0x1000 != 0) != (b & 0x10 != 0))
    ensures (t & 0x0800 != 0) == ((c & 0x0800 != 0) != (b & 8 != 0))
    ensures (t & 0x0400 != 0) == ((c & 0x0400 != 0) != (b & 4 != 0))
    ensures (t & 0x0200 != 0) == ((c & 0x0200 != 0) != (b & 2 != 0))
    ensures (t & 0x0100 != 0) == ((c & 0x0100 != 0) != (b & 1 != 0))
    ensures (t & 0x0080 != 0) == (c & 0x0080 != 0) && (t & 0x0040 != 0) == (c & 0x0040 != 0)
    ensures (t & 0x0020 != 0) == (c & 0x0020 != 0) && (t & 0x0010 != 0) == (c & 0x0010 != 0)
    ensures (t & 0x0008 != 0) == (c & 0x0008 != 0) && (t & 0x0004 != 0) == (c & 0x0004 != 0)
    ensures (t & 0x0002 != 0) == (c & 0x0002 != 0) && (t & 0x0001 != 0) == (c & 0x0001 != 0)
  {
  }

  lemma NibbleBits(b: byte)
    ensures (b >> 4) as bv16 < 16 && (b & 0x0F) as bv16 < 16
    ensures var n := (b >> 4) as bv16; HighBits(b) == [n & 8 != 0, n & 4 != 0, n & 2 != 0, n & 1 != 0]
    ensures var n := (b & 0x0F) as bv16; LowBits(b) == [n & 8 != 0, n & 4 != 0, n & 2 != 0, n & 1 != 0]
  {
  }

  lemma IndexBits(c: bv16, n: bv16, i: bv16)
    requires n < 16 && i == ((c >> 12) ^ n) & 0x0F
    ensures i < 16
    ensures (i & 8 != 0) == ((c & 0x8000 != 0) != (n & 8 != 0))
    ensures (i & 4 != 0) == ((c & 0x4000 != 0) != (n & 4 != 0))
    ensures (i & 2 != 0) == ((c & 0x2000 != 0) != (n & 2 != 0))
    ensures (i & 1 != 0) == ((c & 0x1000 != 0) != (n & 1 != 0))
  {
  }

  /** The bits of one table step: a shift by four, with the index mixed in three times. */
  lemma TableBits(c: bv16, i: bv16, t: bv16)
    requires i < 16 && t == (c << 4) ^ NibbleTable(i)
    ensures (t & 0x8000 != 0) == ((c & 0x0800 != 0) != (i & 8 != 0))
    ensures (t & 0x4000 != 0) == ((c & 0x0400 != 0) != (i & 4 != 0))
    ensures (t & 0x2000 != 0) == ((c & 0x0200 != 0) != (i & 2 != 0))
    ensures (t & 0x1000 != 0) == ((c & 0x0100 != 0) != (i & 1 != 0))
    ensures (t & 0x0800 != 0) == (c & 0x80 != 0)
    ensures (t & 0x0400 != 0) == (c & 0x40 != 0)
    ensures (t & 0x0200 != 0) == (c & 0x20 != 0)
    ensures (t & 0x0100 != 0) == ((c & 0x10 != 0) != (i & 8 != 0))
    ensures (t & 0x0080 != 0) == ((c & 8 != 0) != (i & 4 != 0))
    ensures (t & 0x0040 != 0) == ((c & 4 != 0) != (i & 2 != 0))
    ensures (t & 0x0020 != 0) == ((c & 2 != 0) != (i & 1 != 0))
    ensures (t & 0x0010 != 0) == (c & 1 != 0)
    ensures (t & 8 != 0) == (i & 8 != 0)
    ensures (t & 4 != 0) == (i & 4 != 0)
    ensures (t & 2 != 0) == (i & 2 != 0)
    ensures (t & 1 != 0) == (i & 1 != 0)
  {
  }

  lemma TableStep(c: bv16, i: bv16, n: bv16, t: bv16)
    requires i < 16 && t == (c << 4) ^ NibbleTable(i)
    requires (i & 8 != 0) == ((c & 0x8000 != 0) != (n & 8 != 0))
    requires (i & 4 != 0) == ((c & 0x4000 != 0) != (n & 4 != 0))
    requires (i & 2 != 0) == ((c & 0x2000 != 0) != (n & 2 != 0))
    requires (i & 1 != 0) == ((c & 0x1000 != 0) != (n & 1 != 0))
    ensures Word(t) == Step(Step(Step(Step(Word(c), n & 8 != 0), n & 4 != 0), n & 2 != 0), n & 1 != 0)
  {
    hide NibbleTable;
    TableBits(c, i, t);
  }

  lemma RegFour(c: Register, s: seq<bool>)
    requires |s| == 4
    ensures Reg(c, s) == Step(Step(Step(Step(c, s[0]), s[1]), s[2]), s[3])
  {
    hide Step;
    var c1 := Step(c, s[0]);
    var c2 := Step(c1, s[1]);
    var c3 := Step(c2, s[2]);
    assert s[1..][1..] == s[2..] && s[2..][1..] == s[3..] && s[3..][1..] == [];
    assert Reg(c, s) == Reg(c1, s[1..]);
    assert Reg(c1, s[1..]) == Reg(c2, s[2..]);
    assert Reg(c2, s[2..]) == Reg(c3, s[3..]);
    assert Reg(c3, s[3..]) == Step(c3, s[3]);
  }

  lemma ShiftBits(c: bv16)
    ensures c & 0x8000 != 0 ==> Word((c << 1) ^ 0x1021) == Step(Word(c), false)
    ensures c & 0x8000 == 0 ==> Word(c << 1) == Step(Word(c), false)
  {
    if c & 0x8000 != 0 {
    } else {
    }
  }

  // ---- linearity --------------------------------------------------------------------

  lemma Linear(a: Register, b: Register, x: bool, y: bool)
    ensures Step(Xor(a, b), x != y) == Xor(Step(a, x), Step(b, y))
  {
  }

  lemma {:induction false} RegConcat(c: Register, s: seq<bool>, t: seq<bool>)
    ensures Reg(c, s + t) == Reg(Reg(c, s), t)
    decreases |s|
  {
    hide Step;
    if s == [] {
      assert s + t == t;
    } else {
      assert (s + t)[1..] == s[1..] + t;
      RegConcat(Step(c, s[0]), s[1..], t);
    }
  }

  // ---- what the checksum detects ----------------------------------------------------

  /** Parity of the register. */
  predicate Odd(c: Register) {
    c.b15 != (c.b14 != (c.b13 != (c.b12 != (c.b11 != (c.b10 != (c.b9 != (c.b8 !=
      (c.b7 != (c.b6 != (c.b5 != (c.b4 != (c.b3 != (c.b2 != (c.b1 != c.b0))))))))))))))
  }

  /** The polynomial has an even number of terms, so a step keeps parity up to the bit fed. */
  lemma OddStep(c: Register, bit: bool)
    ensures Odd(Step(c, bit)) == (Odd(c) != bit)
  {
    if c.b15 != bit {
    } else {
    }
  }

  function Ones(s: seq<bool>): nat {
    if s == [] then 0 else (if s[0] then 1 else 0) + Ones(s[1..])
  }

  lemma {:induction false} OddReg(c: Register, s: seq<bool>)
    ensures Odd(Reg(c, s)) == (Odd(c) != (Ones(s) % 2 == 1))
    decreases |s|
  {
    hide Step, Odd;
    if s != [] {
      OddStep(c, s[0]);
      OddReg(Step(c, s[0]), s[1..]);
    }
  }

  lemma LowBitStep(c: Register, bit: bool, m: nat)
    requires m < 16 && LowBitSet(c, m)
    ensures LowBitSet(Step(c, bit), m + 1)
  {
  }

  /** A set bit stays inside the register for as long as it takes to reach the top. */
  lemma {:induction false} LowBitReg(c: Register, s: seq<bool>, m: nat)
    requires LowBitSet(c, m) && m + |s| <= 16
    ensures LowBitSet(Reg(c, s), m + |s|)
    decreases |s|
  {
    hide Step, LowBitSet;
    if s != [] {
      LowBitStep(c, s[0], m);
      LowBitReg(Step(c, s[0]), s[1..], m + 1);
    }
  }

  lemma ZeroStep(c: Register)
    ensures Step(c, false) == ZERO <==> c == ZERO
  {
  }

  predicate AllFalse(s: seq<bool>) {
    forall i :: 0 <= i < |s| ==> !s[i]
  }

  /** Feeding zeros never loses a nonzero register, and never makes one. */
  lemma {:induction false} ZeroReg(c: Register, s: seq<bool>)
    requires AllFalse(s)
    ensures Reg(c, s) == ZERO <==> c == ZERO
    decreases |s|
  {
    hide Step;
    if s != [] {
      ZeroStep(c);
      ZeroReg(Step(c, s[0]), s[1..]);
    }
  }

  /** Up to sixteen bits, not all zero, leave a nonzero register behind. */
  lemma {:induction false} BurstReg(s: seq<bool>)
    requires |s| <= 16 && !AllFalse(s)
    ensures Reg(ZERO, s) != ZERO
    decreases |s|
  {
    if s[0] {
      LowBitReg(Step(ZERO, true), s[1..], 1);
    } else {
      BurstReg(s[1..]);
    }
  }

  /** Which bits differ. */
  function Diff(s: seq<bool>, t: seq<bool>): (d: seq<bool>)
    requires |s| == |t|
    ensures |d| == |s|
    decreases |s|
  {
    if s == [] then [] else [s[0] != t[0]] + Diff(s[1..], t[1..])
  }

  lemma {:induction false} RegDiff(a: Register, b: Register, s: seq<bool>, t: seq<bool>)
    requires |s| == |t|
    ensures Reg(Xor(a, b), Diff(s, t)) == Xor(Reg(a, s), Reg(b, t))
    decreases |s|
  {
    hide Step, Xor;
    if s != [] {
      Linear(a, b, s[0], t[0]);
      assert Diff(s, t)[1..] == Diff(s[1..], t[1..]);
      RegDiff(Step(a, s[0]), Step(b, t[0]), s[1..], t[1..]);
    }
  }

  lemma XorSelf(a: Register, b: Register)
    ensures Xor(a, b) == ZERO <==> a == b
  {
  }

  function ByteBits(b: byte): seq<bool> {
    HighBits(b) + LowBits(b)
  }

  function Hi(c: bv16): byte {
    (c >> 8) as byte
  }

  function Lo(c: bv16): byte {
    (c & 0xFF) as byte
  }

  /** A frame: a body followed by its checksum, most significant byte first. */
  predicate Checked(f: seq<byte>) {
    |f| >= 2 && f[|f| - 2..] == [Hi(Crc(f[..|f| - 2])), Lo(Crc(f[..|f| - 2]))]
  }

  lemma {:induction false} PendingDrains(s: seq<bool>)
    requires |s| <= 16
    ensures Reg(Pending(s), s) == ZERO
    decreases |s|
  {
    hide Step, Pending;
    if s == [] {
      PendingNone();
    } else {
      PendingStep(s);
      PendingDrains(s[1..]);
    }
  }

  lemma {:induction false} DiffSelf(s: seq<bool>)
    ensures AllFalse(Diff(s, s))
    decreases |s|
  {
    if s != [] {
      DiffSelf(s[1..]);
    }
  }

  /** Sixteen more bits empty the register exactly when they are the register's own. */
  lemma DrainsIff(c: Register, s: seq<bool>)
    requires |s| == 16
    ensures Reg(c, s) == ZERO <==> c == Pending(s)
  {
    hide *;
    PendingDrains(s);
    RegDiff(c, Pending(s), s, s);
    DiffSelf(s);
    ZeroReg(Xor(c, Pending(s)), Diff(s, s));
    XorZero(Reg(c, s));
    XorSelf(c, Pending(s));
  }

  function Word16(hi: byte, lo: byte): bv16 {
    ((hi as bv16) << 8) | (lo as bv16)
  }

  lemma Word16Halves(c: bv16, hi: byte, lo: byte)
    ensures c == Word16(hi, lo) <==> hi == Hi(c) && lo == Lo(c)
  {
    if c == Word16(hi, lo) {
    } else {
    }
  }

  lemma Word16Bits(hi: byte, lo: byte, t: bv16)
    requires t == Word16(hi, lo)
    ensures Word(t) == Register(hi & 0x80 != 0, hi & 0x40 != 0, hi & 0x20 != 0, hi & 0x10 != 0,
                                hi & 8 != 0, hi & 4 != 0, hi & 2 != 0, hi & 1 != 0,
                                lo & 0x80 != 0, lo & 0x40 != 0, lo & 0x20 != 0, lo & 0x10 != 0,
                                lo & 8 != 0, lo & 4 != 0, lo & 2 != 0, lo & 1 != 0)
  {
  }

  lemma PendingIs(s: seq<bool>)
    requires |s| >= 8
    ensures var r := Pending(s[8..]);
            Pending(s) == Register(s[0], s[1], s[2], s[3], s[4], s[5], s[6], s[7],
                                   r.b15, r.b14, r.b13, r.b12, r.b11, r.b10, r.b9, r.b8)
  {
    hide ShiftIn, Pending;
    PendingEight(s);
    ShiftInEight(s[0], s[1], s[2], s[3], s[4], s[5], s[6], s[7], Pending(s[8..]));
  }

  lemma PendingSixteen(s: seq<bool>)
    requires |s| == 16
    ensures Pending(s) == Register(s[0], s[1], s[2], s[3], s[4], s[5], s[6], s[7],
                                   s[8], s[9], s[10], s[11], s[12], s[13], s[14], s[15])
  {
    hide Pending;
    PendingIs(s);
    PendingIs(s[8..]);
  }

  lemma PendingWord(hi: byte, lo: byte)
    ensures Pending(ByteBits(hi) + ByteBits(lo)) == Word(Word16(hi, lo))
  {
    hide Word, Pending, Word16;
    PendingSixteen(ByteBits(hi) + ByteBits(lo));
    Word16Bits(hi, lo, Word16(hi, lo));
  }

  lemma {:induction false} BitsConcat(s: seq<byte>, t: seq<byte>)
    ensures Bits(s + t) == Bits(s) + Bits(t)
    decreases |s|
  {
    hide HighBits, LowBits;
    if s == [] {
      assert s + t == t;
    } else {
      assert (s + t)[1..] == s[1..] + t;
      BitsConcat(s[1..], t);
    }
  }

  lemma BitsTwo(hi: byte, lo: byte)
    ensures Bits([hi, lo]) == ByteBits(hi) + ByteBits(lo)
  {
    hide HighBits, LowBits;
    assert [hi, lo][1..] == [lo] && [lo][1..] == [];
    assert Bits([lo]) == ByteBits(lo);
  }

  /** A frame carries its own checksum exactly when the register ends empty. */
  lemma CheckedIff(f: seq<byte>)
    requires |f| >= 2
    ensures Checked(f) <==> Reg(Word(INIT), Bits(f)) == ZERO
  {
    hide *;
    var n := |f| - 2;
    var body, hi, lo := f[..n], f[n], f[n + 1];
    var c := Crc(body);
    assert f[n..] == [hi, lo] && f == body + [hi, lo];
    CheckedMeans(f);
    BitsConcat(body, [hi, lo]);
    BitsTwo(hi, lo);
    var s := ByteBits(hi) + ByteBits(lo);
    RegConcat(Word(INIT), Bits(body), s);
    CrcMeans(body);
    DrainsIff(Word(c), s);
    PendingWord(hi, lo);
    Word16Halves(c, hi, lo);
    if Word(c) == Word(Word16(hi, lo)) {
      WordInjective(c, Word16(hi, lo));
    }
  }

  lemma CheckedMeans(f: seq<byte>)
    requires |f| >= 2
    ensures var c := Crc(f[..|f| - 2]); Checked(f) <==> f[|f| - 2] == Hi(c) && f[|f| - 1] == Lo(c)
  {
    hide Crc, Hi, Lo;
    assert f[|f| - 2..] == [f[|f| - 2], f[|f| - 1]];
  }

  lemma CrcMeans(data: seq<byte>)
    ensures Word(Crc(data)) == Reg(Word(INIT), Bits(data))
  {
    hide Word, CrcFrom, Bits;
    CrcIsRegister(INIT, data);
  }

  /** Damage to a good frame goes unnoticed exactly when the damage alone leaves the register empty. */
  lemma UndetectedIff(f: seq<byte>, g: seq<byte>)
    requires Checked(f) && |g| == |f| >= 2
    ensures Checked(g) <==> Reg(ZERO, Diff(Bits(f), Bits(g))) == ZERO
  {
    hide *;
    CheckedIff(f);
    CheckedIff(g);
    RegDiff(Word(INIT), Word(INIT), Bits(f), Bits(g));
    XorSelf(Word(INIT), Word(INIT));
    XorSelf(Reg(Word(INIT), Bits(f)), Reg(Word(INIT), Bits(g)));
  }

  /** Any odd number of flipped bits is noticed. */
  lemma OddDamageDetected(f: seq<byte>, g: seq<byte>)
    requires Checked(f) && |g| == |f| >= 2
    requires Ones(Diff(Bits(f), Bits(g))) % 2 == 1
    ensures !Checked(g)
  {
    hide Checked, Reg, Bits, Diff, Ones;
    UndetectedIff(f, g);
    OddReg(ZERO, Diff(Bits(f), Bits(g)));
  }

  /** Damage `d` touches only the sixteen bits from `k` on. */
  predicate Burst(d: seq<bool>, k: nat) {
    k + 16 <= |d| && !AllFalse(d) && forall i :: 0 <= i < |d| && d[i] ==> k <= i < k + 16
  }

  /** Any nonzero damage confined to sixteen consecutive bits is noticed. */
  lemma BurstDamageDetected(f: seq<byte>, g: seq<byte>, k: nat)
    requires Checked(f) && |g| == |f| >= 2
    requires Burst(Diff(Bits(f), Bits(g)), k)
    ensures !Checked(g)
  {
    hide Checked, Reg, Bits, Diff;
    UndetectedIff(f, g);
    BurstLeavesTrace(Diff(Bits(f), Bits(g)), k);
  }

  lemma BurstLeavesTrace(d: seq<bool>, k: nat)
    requires Burst(d, k)
    ensures Reg(ZERO, d) != ZERO
  {
    hide Reg;
    var a, w, z := d[..k], d[k..k + 16], d[k + 16..];
    assert d == a + (w + z);
    RegConcat(ZERO, a, w + z);
    RegConcat(Reg(ZERO, a), w, z);
    ZeroReg(ZERO, a);
    assert !AllFalse(w) by {
      var i :| 0 <= i < |d| && d[i];
      assert w[i - k];
    }
    BurstReg(w);
    ZeroReg(Reg(ZERO, w), z);
  }

  // ---- damage inside one byte -------------------------------------------------------

  lemma {:induction false} DiffAt(s: seq<bool>, t: seq<bool>, i: nat)
    requires |s| == |t| && i < |s|
    ensures Diff(s, t)[i] == (s[i] != t[i])
    decreases |s|
  {
    if i > 0 {
      DiffAt(s[1..], t[1..], i - 1);
    }
  }

  lemma ByteBitsInjective(a: byte, b: byte)
    requires HighBits(a)[0] == HighBits(b)[0] && HighBits(a)[1] == HighBits(b)[1]
    requires HighBits(a)[2] == HighBits(b)[2] && HighBits(a)[3] == HighBits(b)[3]
    requires LowBits(a)[0] == LowBits(b)[0] && LowBits(a)[1] == LowBits(b)[1]
    requires LowBits(a)[2] == LowBits(b)[2] && LowBits(a)[3] == LowBits(b)[3]
    ensures a == b
  {
  }

  lemma ByteBitsDiffer(a: byte, b: byte) returns (j: nat)
    requires a != b
    ensures j < 8 && ByteBits(a)[j] != ByteBits(b)[j]
  {
    hide HighBits, LowBits;
    assert |HighBits(a)| == 4 && |LowBits(a)| == 4 && |HighBits(b)| == 4 && |LowBits(b)| == 4 by { BitsLength(a); BitsLength(b); }
    var s, t := ByteBits(a), ByteBits(b);
    if s[0] != t[0] { return 0; }
    if s[1] != t[1] { return 1; }
    if s[2] != t[2] { return 2; }
    if s[3] != t[3] { return 3; }
    if s[4] != t[4] { return 4; }
    if s[5] != t[5] { return 5; }
    if s[6] != t[6] { return 6; }
    if s[7] != t[7] { return 7; }
    ByteBitsInjective(a, b);
    assert false;
  }

  lemma BitsLength(b: byte)
    ensures |HighBits(b)| == 4 && |LowBits(b)| == 4
  {
  }

  lemma BitsOne(b: byte)
    ensures Bits([b]) == ByteBits(b)
  {
    hide HighBits, LowBits;
    assert [b][1..] == [];
  }

  /** Changing one byte of a good frame, in any way, is noticed. */
  lemma ByteDamageDetected(f: seq<byte>, i: nat, v: byte)
    requires Checked(f) && i < |f| && |f| >= 2 && v != f[i]
    ensures !Checked(f[i := v])
  {
    hide *;
    var g := f[i := v];
    var a, z := f[..i], f[i + 1..];
    assert f == a + ([f[i]] + z) && g == a + ([v] + z);
    BitsConcat(a, [f[i]] + z);
    BitsConcat(a, [v] + z);
    BitsConcat([f[i]], z);
    BitsConcat([v], z);
    BitsOne(f[i]);
    BitsOne(v);
    var j := ByteBitsDiffer(f[i], v);
    ByteBitsLength(f[i]);
    ByteBitsLength(v);
    var k := ByteBurst(Bits(a), ByteBits(f[i]), ByteBits(v), Bits(z), j);
    BurstDamageDetected(f, g, k);
  }

  lemma ByteBitsLength(b: byte)
    ensures |ByteBits(b)| == 8
  {
    BitsLength(b);
  }

  lemma ByteBurst(p: seq<bool>, x: seq<bool>, y: seq<bool>, z: seq<bool>, j: nat) returns (k: nat)
    requires |x| == |y| == 8 && j < 8 && x[j] != y[j] && |p| + |z| >= 8
    ensures Burst(Diff(p + (x + z), p + (y + z)), k)
  {
    hide Diff;
    var s, t := p + (x + z), p + (y + z);
    var d := Diff(s, t);
    k := if |p| + 16 <= |s| then |p| else |s| - 16;
    forall i | 0 <= i < |d|
      ensures d[i] == (s[i] != t[i])
    {
      DiffAt(s, t, i);
    }
    assert d[|p| + j];
  }

  /** The high half is worth 256 times the low one. */
  lemma HalvesAdd(c: bv16)
    ensures ((Hi(c) as bv16) << 8) + (Lo(c) as bv16) == c
  {
  }

  // ---- known values ---------------------------------------------------------------------

  /** The catalogue's check value: the digits 1 to 9 give 0x29B1. */
  lemma CheckValue()
    ensures Crc([0x31, 0x32, 0x33, 0x34, 0x35, 0x36, 0x37, 0x38, 0x39]) == 0x29B1
    ensures Crc([]) == 0xFFFF
  {
    hide CrcFrom;
    var s: seq<byte> := [0x31, 0x32, 0x33, 0x34, 0x35, 0x36, 0x37, 0x38, 0x39];
    assert s[0..] == s;
    OneByte(0xFFFF, s[0], s[0..]);
    assert s[0..][1..] == s[1..];
    OneByte(0xC782, s[1], s[1..]);
    assert s[1..][1..] == s[2..];
    OneByte(0x3DBA, s[2], s[2..]);
    assert s[2..][1..] == s[3..];
    assert s[3..] == [0x34, 0x35, 0x36, 0x37, 0x38, 0x39];
    CheckMiddle();
    NoByte(INIT);
  }

  lemma CheckMiddle()
    ensures CrcFrom(0x5BCE, [0x34, 0x35, 0x36, 0x37, 0x38, 0x39]) == 0x29B1
  {
    hide CrcFrom;
    var s: seq<byte> := [0x34, 0x35, 0x36, 0x37, 0x38, 0x39];
    assert s[0..] == s;
    OneByte(0x5BCE, s[0], s[0..]);
    assert s[0..][1..] == s[1..];
    OneByte(0x5349, s[1], s[1..]);
    assert s[1..][1..] == s[2..];
    OneByte(0x4560, s[2], s[2..]);
    assert s[2..][1..] == s[3..];
    assert s[3..] == [0x37, 0x38, 0x39];
    CheckEnd();
  }

  lemma CheckEnd()
    ensures CrcFrom(0x2EF4, [0x37, 0x38, 0x39]) == 0x29B1
  {
    hide CrcFrom;
    var s: seq<byte> := [0x37, 0x38, 0x39];
    assert s[0..] == s;
    OneByte(0x2EF4, s[0], s[0..]);
    assert s[0..][1..] == s[1..];
    OneByte(0x7718, s[1], s[1..]);
    assert s[1..][1..] == s[2..];
    OneByte(0xA12B, s[2], s[2..]);
    assert s[2..][1..] == s[3..];
    assert s[3..] == [];
    NoByte(0x29B1);
  }

  lemma OneByte(c: bv16, b: byte, data: seq<byte>)
    requires data != [] && data[0] == b
    ensures CrcFrom(c, data) == CrcFrom(Lookup(Lookup(c, (b >> 4) as bv16), (b & 0x0F) as bv16), data[1..])
  {
    hide Lookup;
  }

  lemma NoByte(c: bv16)
    ensures CrcFrom(c, []) == c
  {
  }
}
