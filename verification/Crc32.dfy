// The table-driven CRC-32 of gendb/ProvisioningClient.cpp against the bit-serial register that
// section 3.4 of RFC 2083 describes: preset to ones, fed each byte from its least significant bit,
// complemented at the end.

module Crc32 {
  import opened Bytes

  const POLYNOMIAL: bv32 := 0xEDB88320

  /** The generator of the standard, x^32 + x^26 + x^23 + x^22 + x^16 + x^12 + x^11 + x^10 + x^8 + x^7 +
      x^5 + x^4 + x^2 + x + 1, with the power e at bit 31 - e. */
  lemma PolynomialOfTheStandard()
    ensures var one: bv32 := 1;
            POLYNOMIAL == (one << 5) | (one << 8) | (one << 9) | (one << 15) | (one << 19) | (one << 20) | (one << 21) |
                          (one << 23) | (one << 24) | (one << 26) | (one << 27) | (one << 29) | (one << 30) | (one << 31)
  {
  }

  // Word operations. The proofs below hide these and reason from the facts about them alone.

  function Xor(a: bv32, b: bv32): bv32 { a ^ b }

  function Half(c: bv32): bv32 { c >> 1 }

  predicate Odd(c: bv32) { c & 1 == 1 }

  function LowByte(c: bv32): bv32 { c & 0xFF }

  function HighPart(c: bv32): bv32 { c & 0xFFFF_FF00 }

  function DropByte(c: bv32): bv32 { c >> 8 }

  // The reference: a shift register with feedback, one data bit at a time.

  function SerialStep(reg: bv32, bit: bool): bv32 {
    if Odd(reg) != bit then Xor(POLYNOMIAL, Half(reg)) else Half(reg)
  }

  /** k further bits of the byte x, least significant first. */
  function SerialBits(reg: bv32, x: bv32, k: nat): bv32
    decreases k
  {
    if k == 0 then reg else SerialBits(SerialStep(reg, Odd(x)), Half(x), k - 1)
  }

  function Register(data: seq<Byte>): bv32 {
    if data == [] then 0xFFFF_FFFF
    else SerialBits(Register(data[..|data| - 1]), data[|data| - 1] as bv32, 8)
  }

  function Crc(data: seq<Byte>): bv32 { Register(data) ^ 0xFFFF_FFFF }

  // The program: a byte is folded in whole, and eight shifts are one table lookup.

  function Shift(c: bv32): bv32 {
    if Odd(c) then Xor(POLYNOMIAL, Half(c)) else Half(c)
  }

  function Shifts(c: bv32, k: nat): bv32
    decreases k
  {
    if k == 0 then c else Shifts(Shift(c), k - 1)
  }

  lemma XorAssociative(a: bv32, b: bv32, c: bv32)
    ensures Xor(a, Xor(b, c)) == Xor(Xor(a, b), c)
  {
  }

  lemma XorZero(a: bv32)
    ensures Xor(a, 0) == a
  {
  }

  lemma HalfOfXor(a: bv32, b: bv32)
    ensures Half(Xor(a, b)) == Xor(Half(a), Half(b))
  {
  }

  lemma OddXor(a: bv32, b: bv32)
    ensures Odd(Xor(a, b)) == (Odd(a) != Odd(b))
  {
  }

  lemma ByteFacts(reg: bv32, x: bv32)
    requires x <= 0xFF
    ensures DropByte(Xor(reg, x)) == DropByte(reg)
  {
  }

  lemma SplitFacts(c: bv32)
    ensures c == Xor(LowByte(c), HighPart(c))
  {
  }

  /** One shift of the program is one reference step with the low bit of the folded-in byte. */
  lemma ShiftOfStep(reg: bv32, x: bv32)
    ensures Shift(Xor(reg, x)) == Xor(SerialStep(reg, Odd(x)), Half(x))
  {
    hide Xor, Half, Odd;
    HalfOfXor(reg, x);
    OddXor(reg, x);
    XorAssociative(POLYNOMIAL, Half(reg), Half(x));
  }

  predicate Fits(x: bv32, k: nat)
    decreases k
  {
    if k == 0 then x == 0 else Fits(Half(x), k - 1)
  }

  /** Folding the byte in at once and feeding it bit by bit come to the same. */
  lemma {:induction false} ShiftsAreSerial(reg: bv32, x: bv32, k: nat)
    requires Fits(x, k)
    ensures Shifts(Xor(reg, x), k) == SerialBits(reg, x, k)
    decreases k
  {
    hide Xor, Half, Odd, Shift, SerialStep;
    if k == 0 {
      XorZero(reg);
    } else {
      ShiftOfStep(reg, x);
      ShiftsAreSerial(SerialStep(reg, Odd(x)), Half(x), k - 1);
    }
  }

  /** Bits above the lowest only move down: the feedback is linear. */
  lemma ShiftLinear(low: bv32, high: bv32)
    requires !Odd(high)
    ensures Shift(Xor(low, high)) == Xor(Shift(low), Half(high))
  {
    hide Xor, Half, Odd;
    HalfOfXor(low, high);
    OddXor(low, high);
    XorAssociative(POLYNOMIAL, Half(low), Half(high));
  }

  predicate LowBitsClear(high: bv32, k: nat)
    decreases k
  {
    k > 0 ==> !Odd(high) && LowBitsClear(Half(high), k - 1)
  }

  function Down(high: bv32, k: nat): bv32
    decreases k
  {
    if k == 0 then high else Down(Half(high), k - 1)
  }

  lemma {:induction false} ShiftsLinear(low: bv32, high: bv32, k: nat)
    requires LowBitsClear(high, k)
    ensures Shifts(Xor(low, high), k) == Xor(Shifts(low, k), Down(high, k))
    decreases k
  {
    hide Xor, Half, Odd, Shift;
    if k > 0 {
      ShiftLinear(low, high);
      ShiftsLinear(Shift(low), Half(high), k - 1);
    }
  }

  lemma EightHalves(x: bv32)
    ensures Half(Half(Half(Half(Half(Half(Half(Half(x)))))))) == DropByte(x)
    ensures x <= 0xFF ==> DropByte(x) == 0
  {
  }

  lemma LowBitsOfHighPart(c: bv32)
    ensures var h := HighPart(c);
            !Odd(h) && !Odd(Half(h)) && !Odd(Half(Half(h))) && !Odd(Half(Half(Half(h))))
    ensures var h := Half(Half(Half(Half(HighPart(c)))));
            !Odd(h) && !Odd(Half(h)) && !Odd(Half(Half(h))) && !Odd(Half(Half(Half(h))))
    ensures DropByte(HighPart(c)) == DropByte(c)
  {
  }

  lemma OneStepDown(h: bv32, k: nat)
    ensures Down(h, k + 1) == Down(Half(h), k)
    ensures Fits(h, k + 1) <==> Fits(Half(h), k)
    ensures LowBitsClear(h, k + 1) <==> !Odd(h) && LowBitsClear(Half(h), k)
  {
    hide Xor, Half, Odd;
  }

  lemma FourStepsDown(h: bv32, k: nat)
    ensures Down(h, k + 4) == Down(Half(Half(Half(Half(h)))), k)
    ensures Fits(h, k + 4) <==> Fits(Half(Half(Half(Half(h)))), k)
    ensures !Odd(h) && !Odd(Half(h)) && !Odd(Half(Half(h))) && !Odd(Half(Half(Half(h)))) ==>
              (LowBitsClear(h, k + 4) <==> LowBitsClear(Half(Half(Half(Half(h)))), k))
  {
    hide *;
    OneStepDown(h, k + 3);
    OneStepDown(Half(h), k + 2);
    OneStepDown(Half(Half(h)), k + 1);
    OneStepDown(Half(Half(Half(h))), k);
  }

  /** Eight shifts of a register are one table entry and a move down by a byte. */
  lemma TableStep(c: bv32)
    ensures Shifts(c, 8) == Xor(Shifts(LowByte(c), 8), DropByte(c))
  {
    hide Xor, Half, Odd, LowByte, HighPart, DropByte, Shifts;
    SplitFacts(c);
    var h := HighPart(c);
    LowBitsOfHighPart(c);
    EightHalves(h);
    FourStepsDown(h, 4);
    FourStepsDown(Half(Half(Half(Half(h)))), 0);
    ShiftsLinear(LowByte(c), h, 8);
  }

  lemma ByteFits(x: bv32)
    requires x <= 0xFF
    ensures Fits(x, 8)
  {
    hide Half, DropByte;
    EightHalves(x);
    FourStepsDown(x, 4);
    FourStepsDown(Half(Half(Half(Half(x)))), 0);
  }

  lemma ByteIsSmall(d: Byte)
    ensures d as bv32 <= 0xFF
  {
  }

  /** The reference takes in a byte as the program does. */
  lemma ByteStep(reg: bv32, d: Byte)
    ensures SerialBits(reg, d as bv32, 8) == Xor(Shifts(LowByte(Xor(reg, d as bv32)), 8), DropByte(reg))
  {
    hide *;
    ByteIsSmall(d);
    ByteFits(d as bv32);
    ShiftsAreSerial(reg, d as bv32, 8);
    TableStep(Xor(reg, d as bv32));
    ByteFacts(reg, d as bv32);
  }

  lemma IndexFacts(c: bv32)
    ensures LowByte(c) as int < 256 && (LowByte(c) as int) as bv32 == LowByte(c)
  {
  }

  predicate IsTable(t: seq<bv32>) {
    |t| == 256 && forall n | 0 <= n < 256 :: t[n] == Shifts(n as bv32, 8)
  }

  /** crc32Of with its static table, filled on first use. */
  class Crc32Computer {
    const table: array<bv32>
    var tableReady: bool

    predicate Valid()
      reads this, table
    {
      table.Length == 256 && (tableReady ==> IsTable(table[..]))
    }

    constructor ()
      ensures Valid() && fresh(table)
    {
      table := new bv32[256](_ => 0);
      tableReady := false;
    }

    method FillTable()
      requires Valid()
      modifies table
      ensures IsTable(table[..])
    {
      hide Xor, Half, Odd, Shift;
      for n := 0 to 256
        invariant forall m | 0 <= m < n :: table[m] == Shifts(m as bv32, 8)
      {
        var c := n as bv32;
        for k := 0 to 8
          invariant Shifts(c, 8 - k) == Shifts(n as bv32, 8)
        {
          c := Shift(c);
        }
        table[n] := c;
      }
    }

    method Crc32Of(data: seq<Byte>) returns (r: bv32)
      requires Valid()
      modifies this`tableReady, table
      ensures Valid() && r == Crc(data)
    {
      if !tableReady {
        FillTable();
        tableReady := true;
      }
      hide SerialBits, IsTable;
      var crc: bv32 := 0xFFFF_FFFF;
      for i := 0 to |data|
        invariant Valid() && tableReady && crc == Register(data[..i])
      {
        crc := UpdateCrc(crc, data[i]);
        assert data[..i + 1][..i] == data[..i];
      }
      assert data[..|data|] == data;
      r := crc ^ 0xFFFF_FFFF;
    }

    /** The loop body: crc = table[(crc ^ byte) & 0xFF] ^ (crc >> 8). */
    method UpdateCrc(crc: bv32, d: Byte) returns (r: bv32)
      requires Valid() && tableReady
      ensures r == SerialBits(crc, d as bv32, 8)
    {
      ByteStep(crc, d);
      IndexFacts(Xor(crc, d as bv32));
      var index := LowByte(Xor(crc, d as bv32)) as int;
      hide *;
      r := Xor(table[index], DropByte(crc));
    }
  }
}
