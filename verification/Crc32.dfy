/**
  The table-driven CRC-32 of the bundle builder, against two independent definitions: the
  bit-serial reflected shift register for 0xEDB88320 (section 8 of RFC 1952), and schoolbook
  division of the message polynomial with its first 32 coefficients complemented and 32
  zero coefficients appended. A 32-bit word is its list of bits, lowest first.
 */
module Crc32 {
  import opened Common
  import opened ShiftRegister
  import opened Polynomials

  type Word = w: seq<bool> | |w| == 32 witness Zeros(32)

  const POLY: Word := BitsOf(0xEDB88320, 32)
  const ONES: Word := Filled(32)

  // ---------------------------------------------------------------- words and numbers

  /** The lowest n bits of a number, lowest first. */
  function BitsOf(x: nat, n: nat): (bits: seq<bool>)
    ensures |bits| == n
  {
    if n == 0 then [] else [x % 2 == 1] + BitsOf(x / 2, n - 1)
  }

  function Value(bits: seq<bool>): nat {
    if bits == [] then 0 else (if bits[0] then 1 else 0) + 2 * Value(bits[1..])
  }

  lemma {:induction false} NoBits(n: nat)
    ensures BitsOf(0, n) == Zeros(n)
  {
    if n > 0 {
      NoBits(n - 1);
      assert Zeros(n) == [false] + Zeros(n - 1);
    }
  }

  lemma BitsStep(b: bool, x: nat, n: nat)
    requires n > 0
    ensures BitsOf((if b then 1 else 0) + 2 * x, n) == [b] + BitsOf(x, n - 1)
  {
  }

  lemma {:induction false} BitsOfValue(bits: seq<bool>, n: nat)
    requires |bits| <= n
    ensures BitsOf(Value(bits), n) == bits + Zeros(n - |bits|)
    decreases |bits|
  {
    hide BitsOf;
    if bits == [] {
      NoBits(n);
      assert [] + Zeros(n) == Zeros(n);
    } else {
      BitsOfValue(bits[1..], n - 1);
      BitsStep(bits[0], Value(bits[1..]), n);
      assert bits + Zeros(n - |bits|) == [bits[0]] + (bits[1..] + Zeros(n - |bits|));
    }
  }

  function Power2(n: nat): nat { if n == 0 then 1 else 2 * Power2(n - 1) }

  lemma Twice(x: nat, y: nat)
    ensures 2 * (x * y) == (2 * x) * y
  {
  }

  lemma {:induction false} Power2Sum(a: nat, b: nat)
    ensures Power2(a + b) == Power2(a) * Power2(b)
  {
    if a > 0 {
      Power2Sum(a - 1, b);
      Twice(Power2(a - 1), Power2(b));
      assert Power2(a + b) == 2 * Power2(a - 1 + b);
    }
  }

  lemma {:induction false} ValueBound(bits: seq<bool>)
    ensures Value(bits) < Power2(|bits|)
  {
    if bits != [] {
      ValueBound(bits[1..]);
    }
  }

  /** A number below 2^k has no bits from position k on. */
  lemma {:induction false} HighBitsClear(x: nat, k: nat, n: nat)
    requires x < Power2(k) && k <= n
    ensures BitsOf(x, n) == BitsOf(x, k) + Zeros(n - k)
  {
    if k > 0 {
      HighBitsClear(x / 2, k - 1, n - 1);
    } else if n > 0 {
      HighBitsClear(0, 0, n - 1);
      assert Zeros(n) == [false] + Zeros(n - 1);
    }
  }

  // ---------------------------------------------------------------- the register

  /** A word shifted n places towards its low end. */
  function Down(x: Word, n: nat): Word
    requires n <= 32
  {
    x[n..] + Zeros(n)
  }

  /** One division step: drop the leading coefficient (the low bit) and subtract the divisor if it was set. */
  function Shift(x: Word): Word {
    if x[0] then Xor(POLY, Down(x, 1)) else Down(x, 1)
  }

  /** The word with only bit k set. */
  function Unit(k: nat): Word
    requires k < 32
  {
    Zeros(k) + [true] + Zeros(31 - k)
  }

  const R: Register<Word> :=
    Make<Word>((x: Word) => Shift(x), (a: Word, b: Word) => Xor(a, b), Zeros(32), Unit(0), Unit(31),
        (x: Word) => Down(x, 1), (x: Word) => x[0])

  lemma ShiftLinear(a: Word, b: Word)
    ensures Shift(Xor(a, b)) == Xor(Shift(a), Shift(b))
  {
    assert Down(Xor(a, b), 1) == Xor(Down(a, 1), Down(b, 1));
    var x, y := Down(a, 1), Down(b, 1);
    assert Xor(POLY, Xor(x, y)) == Xor(Xor(POLY, x), y);
    assert Xor(POLY, Xor(x, y)) == Xor(x, Xor(POLY, y));
    assert Xor(x, y) == Xor(Xor(POLY, x), Xor(POLY, y));
  }

  lemma RIsLinear()
    ensures Linear(R)
  {
    forall a: Word, b: Word ensures R.step(R.add(a, b)) == R.add(R.step(a), R.step(b)) {
      ShiftLinear(a, b);
    }
  }

  lemma RBitsAdd()
    ensures BitsAdd(R)
  {
    forall a: Word ensures R.add(a, R.zero) == a {
      assert Xor(a, Zeros(32)) == a;
    }
    assert Xor(Zeros(32), Unit(31)) == Unit(31);
    assert Xor(Unit(31), Unit(31)) == Zeros(32);
    assert Down(Zeros(32), 1) == Zeros(32);
  }

  lemma RInterchanges()
    ensures Interchange(R)
  {
    forall a: Word, b: Word, c: Word, d: Word ensures Interchanges(R, a, b, c, d) {
      assert Xor(Xor(a, b), Xor(c, d)) == Xor(Xor(a, c), Xor(b, d));
    }
  }

  lemma LowBitApart(x: Word)
    ensures var rest: Word := [false] + x[1..];
            Xor(if x[0] then Unit(0) else Zeros(32), rest) == x && Shift(rest) == Down(x, 1)
  {
    var rest: Word := [false] + x[1..];
    assert Down(rest, 1) == Down(x, 1);
  }

  lemma XorAssociates(a: Word, b: Word, c: Word)
    ensures Xor(Xor(a, b), c) == Xor(a, Xor(b, c))
  {
  }

  lemma PeelBit(a: Word, x: Word)
    ensures Shift(Xor(a, x)) == Xor(Shift(Xor(a, if x[0] then Unit(0) else Zeros(32))), Down(x, 1))
  {
    var low: Word := if x[0] then Unit(0) else Zeros(32);
    var rest: Word := [false] + x[1..];
    LowBitApart(x);
    XorAssociates(a, low, rest);
    ShiftLinear(Xor(a, low), rest);
  }

  lemma RPeels()
    ensures Peels(R)
  {
    forall a: Word, x: Word ensures R.step(R.add(a, x)) == R.add(R.step(R.add(a, LowBit(R, R.odd(x)))), R.half(x)) {
      PeelBit(a, x);
    }
  }

  lemma {:induction false} CleanBitsShiftOut(x: Word, n: nat)
    requires n <= 32 && forall i :: 0 <= i < n ==> !x[i]
    ensures Iterate(R, x, n) == Down(x, n)
    decreases n
  {
    if n == 0 {
      assert Down(x, 0) == x;
    } else {
      CleanBitsShiftOut(Down(x, 1), n - 1);
      assert Down(Down(x, 1), n - 1) == Down(x, n);
    }
  }

  lemma RDelays()
    ensures Delay(R)
  {
    CleanBitsShiftOut(Unit(31), 31);
    assert Down(Unit(31), 31) == Unit(0);
    IterateSplit(R, Unit(31), 31, 1);
    assert Iterate(R, Unit(0), 1) == R.step(Unit(0));
  }

  // ---------------------------------------------------------------- the table

  /** The low byte of a word. */
  function LowByte(x: Word): Word { x[..8] + Zeros(24) }

  /** Eight division steps are one table look-up on the low byte and a shift of the rest. */
  lemma TableStep(x: Word)
    ensures Iterate(R, x, 8) == Xor(Iterate(R, LowByte(x), 8), Down(x, 8))
  {
    var high: Word := Zeros(8) + x[8..];
    assert Xor(LowByte(x), high) == x;
    RIsLinear();
    IterateLinear(R, LowByte(x), high, 8);
    CleanBitsShiftOut(high, 8);
    assert Down(high, 8) == Down(x, 8);
  }

  predicate IsTable(table: seq<Word>) {
    |table| == 256 && forall i :: 0 <= i < 256 ==> table[i] == Iterate(R, BitsOf(i, 32), 8)
  }

  /** `CRC_TABLE`. */
  method BuildTable() returns (table: array<Word>)
    ensures fresh(table) && IsTable(table[..])
  {
    table := new Word[256];
    for index := 0 to 256
      invariant forall i :: 0 <= i < index ==> table[i] == Iterate(R, BitsOf(i, 32), 8)
    {
      table[index] := TableEntry(BitsOf(index, 32));
    }
  }

  method TableEntry(index: Word) returns (value: Word)
    ensures value == Iterate(R, index, 8)
  {
    value := index;
    for bit := 0 to 8
      invariant value == Iterate(R, index, bit)
    {
      IterateSplit(R, index, bit, 1);
      assert Iterate(R, value, 1) == R.step(value);
      value := if value[0] then Xor(POLY, Down(value, 1)) else Down(value, 1);
    }
  }

  // ---------------------------------------------------------------- the checksum

  /** The bits of a message, lowest bit of each byte first. */
  function Bits(data: seq<Byte>): seq<bool> {
    if data == [] then [] else Bits(data[..|data| - 1]) + BitsOf(data[|data| - 1], 8)
  }

  /** The checksum a bit-serial register computes. */
  function CrcWord(data: seq<Byte>): Word {
    Xor(Serial(R, ONES, Bits(data)), ONES)
  }

  lemma {:induction false} LowBitsAre(x: Word, n: nat)
    requires n <= 32
    ensures LowBits(R, x, n) == x[..n]
    ensures Halves(R, x, n) == Down(x, n)
    decreases n
  {
    if n == 0 {
      assert Down(x, 0) == x;
    } else {
      LowBitsAre(Down(x, 1), n - 1);
      assert Down(Down(x, 1), n - 1) == Down(x, n);
      assert x[..n] == [x[0]] + Down(x, 1)[..n - 1];
    }
  }

  lemma ByteWord(b: Byte)
    ensures BitsOf(b, 32) == BitsOf(b, 8) + Zeros(24)
  {
    assert Power2(8) == 256;
    HighBitsClear(b, 8, 32);
  }

  lemma ByteStep(reg: Word, b: Byte)
    ensures Serial(R, reg, BitsOf(b, 8)) == Iterate(R, Xor(reg, BitsOf(b, 32)), 8)
  {
    var x: Word := BitsOf(b, 32);
    RPeels();
    SerialIsIterate(R, reg, x, 8);
    LowBitsAre(x, 8);
    ByteWord(b);
    assert x[..8] == BitsOf(b, 8);
    assert Down(x, 8) == Zeros(32);
    var s := Serial(R, reg, BitsOf(b, 8));
    assert Xor(s, Zeros(32)) == s;
  }

  lemma OneByte(crc: Word, b: Byte)
    ensures Serial(R, crc, BitsOf(b, 8)) == Xor(Iterate(R, LowByte(Xor(crc, BitsOf(b, 32))), 8), Down(crc, 8))
  {
    var x: Word := BitsOf(b, 32);
    ByteStep(crc, b);
    TableStep(Xor(crc, x));
    ByteWord(b);
    assert Down(Xor(crc, x), 8) == Down(crc, 8);
  }

  lemma TableIndex(x: Word)
    ensures Value(LowByte(x)[..8]) < 256
    ensures BitsOf(Value(LowByte(x)[..8]), 32) == LowByte(x)
  {
    assert LowByte(x)[..8] == x[..8];
    ValueBound(x[..8]);
    assert Power2(8) == 256;
    BitsOfValue(x[..8], 32);
  }

  /** `crc32`: one table look-up per byte. */
  method Checksum(table: array<Word>, data: seq<Byte>) returns (r: Word)
    requires IsTable(table[..])
    ensures r == CrcWord(data)
  {
    var crc: Word := ONES;
    for i := 0 to |data|
      invariant crc == Serial(R, ONES, Bits(data[..i]))
    {
      var b := data[i];
      assert data[..i + 1][..i] == data[..i];
      SerialSplit(R, ONES, Bits(data[..i]), BitsOf(b, 8));
      OneByte(crc, b);
      var mixed: Word := Xor(crc, BitsOf(b, 32));
      TableIndex(mixed);
      var index := Value(LowByte(mixed)[..8]);
      assert table[..][index] == Iterate(R, BitsOf(index, 32), 8);
      crc := Xor(table[index], Down(crc, 8));
    }
    assert data[..|data|] == data;
    r := Xor(crc, ONES);
  }

  // ---------------------------------------------------------------- polynomial division

  /** A window with its last m coefficients set. */
  function Filled(m: nat): Word
    requires m <= 32
  {
    seq(32, i => i >= 32 - m)
  }

  /** The message polynomial: first 32 coefficients complemented, 32 zero coefficients appended. */
  function Dividend(bits: seq<bool>): (d: seq<bool>)
    ensures |d| == |bits| + 32
    ensures forall i :: 0 <= i < |d| ==> d[i] == ((if i < |bits| then bits[i] else false) != (i < 32))
  {
    Xor(bits + Zeros(32), Filled(32) + Zeros(|bits|))
  }

  lemma {:induction false} BringDownOnes(n: nat)
    requires n <= 32
    ensures Divide(R, Filled(32 - n), Filled(32)[..n]) == ONES
    decreases n
  {
    if n > 0 {
      var window := Filled(32 - n);
      assert Xor(Down(window, 1), Unit(31)) == Filled(33 - n);
      assert Filled(32)[..n][1..] == Filled(32)[..n - 1];
      BringDownOnes(n - 1);
    }
  }

  /** Where the register starts only matters through its own division steps. */
  lemma {:induction false} SerialStart(reg: Word, other: Word, bits: seq<bool>)
    ensures Serial(R, Xor(reg, other), bits) == Xor(Serial(R, reg, bits), Iterate(R, other, |bits|))
    decreases |bits|
  {
    if bits != [] {
      var b := LowBit(R, bits[0]);
      assert Xor(Xor(reg, other), b) == Xor(Xor(reg, b), other);
      ShiftLinear(Xor(reg, b), other);
      SerialStart(Shift(Xor(reg, b)), Shift(other), bits[1..]);
    }
  }

  /**
    The checksum is the complement of the remainder of dividing the message polynomial by the
    CRC polynomial.
   */
  lemma CrcIsRemainder(data: seq<Byte>)
    ensures CrcWord(data) == Xor(Divide(R, Zeros(32), Dividend(Bits(data))), ONES)
  {
    var bits := Bits(data);
    RemainderOfSum(bits);
    RemainderOfMessage(bits);
    RemainderOfOnes(|bits|);
    SerialStart(Zeros(32), ONES, bits);
    assert Xor(Zeros(32), ONES) == ONES;
  }

  lemma RemainderOfSum(bits: seq<bool>)
    ensures Divide(R, Zeros(32), Dividend(bits))
         == Xor(Divide(R, Zeros(32), bits + Zeros(32)), Divide(R, Zeros(32), Filled(32) + Zeros(|bits|)))
  {
    var a, b := bits + Zeros(32), Filled(32) + Zeros(|bits|);
    var zero: Word := Zeros(32);
    assert R.add(zero, zero) == zero by {
      assert Xor(zero, zero) == zero;
    }
    assert Divide(R, R.add(zero, zero), Xor(a, b)) == R.add(Divide(R, zero, a), Divide(R, zero, b)) by {
      RLaws();
      DivideLinear(R, zero, zero, a, b);
    }
  }

  lemma RLaws()
    ensures Linear(R) && BitsAdd(R) && Interchange(R)
  {
    RIsLinear();
    RBitsAdd();
    RInterchanges();
  }

  lemma RemainderOfMessage(bits: seq<bool>)
    ensures Divide(R, Zeros(32), bits + Zeros(32)) == Serial(R, Zeros(32), bits)
  {
    RIsLinear(); RBitsAdd(); RDelays();
    DivideSplit(R, Zeros(32), bits, Zeros(32));
    DivideZeros(R, Divide(R, Zeros(32), bits), 32);
    DivideIsSerial(R, Zeros(32), bits);
    IterateZero(R, 32);
  }

  lemma FilledEnds()
    ensures Filled(0) == Zeros(32) && Filled(32)[..32] == Filled(32)
  {
  }

  lemma RemainderOfOnes(n: nat)
    ensures Divide(R, Zeros(32), Filled(32) + Zeros(n)) == Iterate(R, ONES, n)
  {
    hide Divide, Iterate, Filled;
    RBitsAdd();
    DivideSplit(R, Zeros(32), Filled(32), Zeros(n));
    FilledEnds();
    BringDownOnes(32);
    DivideZeros(R, ONES, n);
  }

  // ---------------------------------------------------------------- what a remainder is

  /** The divisor of degree 32; the word holds its lower coefficients. */
  const DIVISOR: seq<bool> := [true] + POLY

  lemma Nibble(a: bool, b: bool, c: bool, d: bool, x: nat, n: nat)
    requires n >= 4
    ensures var low := (if a then 1 else 0) + (if b then 2 else 0) + (if c then 4 else 0) + (if d then 8 else 0);
            BitsOf(low + 16 * x, n) == [a, b, c, d] + BitsOf(x, n - 4)
  {
    hide BitsOf;
    var z := (if d then 1 else 0) + 2 * x;
    var y := (if c then 1 else 0) + 2 * z;
    var w := (if b then 1 else 0) + 2 * y;
    BitsStep(a, w, n);
    BitsStep(b, y, n - 1);
    BitsStep(c, z, n - 2);
    BitsStep(d, x, n - 3);
  }

  lemma PolyBits()
    ensures POLY == [false, false, false, false, false, true, false, false,
                     true, true, false, false, false, false, false, true,
                     false, false, false, true, true, true, false, true,
                     true, false, true, true, false, true, true, true]
  {
    hide BitsOf;
    Nibble(false, false, false, false, 0xEDB8832, 32);
    Nibble(false, true, false, false, 0xEDB883, 28);
    Nibble(true, true, false, false, 0xEDB88, 24);
    Nibble(false, false, false, true, 0xEDB8, 20);
    Nibble(false, false, false, true, 0xEDB, 16);
    Nibble(true, true, false, true, 0xED, 12);
    Nibble(true, false, true, true, 0xE, 8);
    Nibble(false, true, true, true, 0x0, 4);
    assert BitsOf(0, 0) == [];
  }

  lemma TermsAt(p: seq<bool>, e: nat)
    requires e <= 32
    requires p == [false, false, false, false, false, true, false, false,
                   true, true, false, false, false, false, false, true,
                   false, false, false, true, true, true, false, true,
                   true, false, true, true, false, true, true, true]
    ensures ([true] + p)[32 - e] <==> e in {32, 26, 23, 22, 16, 12, 11, 10, 8, 7, 5, 4, 2, 1, 0}
  {
  }

  /** The polynomial, by the exponents of its terms, as section 8 of RFC 1952 has it from ISO 3309. */
  lemma DivisorTerms(e: nat)
    requires e <= 32
    ensures |DIVISOR| == 33
    ensures DIVISOR[32 - e] <==> e in {32, 26, 23, 22, 16, 12, 11, 10, 8, 7, 5, 4, 2, 1, 0}
  {
    hide BitsOf;
    PolyBits();
    TermsAt(POLY, e);
  }

  /** The coefficients the divisor was subtracted for. */
  function Quotient(bits: seq<bool>): (q: seq<bool>)
    ensures |q| == |bits|
  {
    if bits == [] then [] else Quotient(bits[..|bits| - 1]) + [Divide(R, Zeros(32), bits[..|bits| - 1])[0]]
  }

  lemma ShiftIs(w: Word)
    ensures Shift(w) == Xor(Scaled(w[0], POLY), w[1..] + [false])
  {
    assert Down(w, 1) == w[1..] + [false];
    XorZeros(w[1..] + [false]);
  }

  /** One step takes the divisor away from the window and the next coefficient when the leading one is set. */
  lemma StepSubtracts(w: Word, b: bool)
    ensures w + [b] == Xor(Scaled(w[0], DIVISOR), [false] + Xor(Shift(w), if b then Unit(31) else Zeros(32)))
  {
    hide Shift, Scaled;
    ShiftIs(w);
    var lead, rest := w[0], w[1..];
    var p := Scaled(lead, POLY);
    assert (if b then Unit(31) else Zeros(32)) == Zeros(31) + [b];
    assert Xor(Shift(w), Zeros(31) + [b]) == Xor(p, rest + [b]) by {
      XorAssoc(p, rest + [false], Zeros(31) + [b]);
      XorTail(rest, false, Zeros(31), b);
      XorZeros(rest);
    }
    ScaledDivisor(lead);
    XorHead(lead, p, false, Xor(p, rest + [b]));
    XorTwice(p, rest + [b]);
    assert w + [b] == [lead] + (rest + [b]);
  }

  lemma ScaledDivisor(lead: bool)
    ensures Scaled(lead, DIVISOR) == [lead] + Scaled(lead, POLY)
  {
    ZerosOne(32);
  }

  lemma DivideStep(bits: seq<bool>, b: bool)
    ensures Divide(R, Zeros(32), bits + [b])
            == Xor(Shift(Divide(R, Zeros(32), bits)), if b then Unit(31) else Zeros(32))
  {
    DivideSplit(R, Zeros(32), bits, [b]);
    var w := Divide(R, Zeros(32), bits);
    assert [b][1..] == [];
    assert Divide(R, w, [b]) == Divide(R, R.add(R.step(w), TopBit(R, b)), []);
  }

  lemma ZerosAndOne(n: nat, r: seq<bool>)
    ensures Zeros(n) + ([false] + r) == Zeros(n + 1) + r
  {
    ZerosOne(n);
    assert Zeros(n) + ([false] + r) == (Zeros(n) + [false]) + r;
  }

  lemma RegroupRight(w: seq<bool>, b: bool, lead: bool, r: seq<bool>, n: nat)
    requires |w| == |r| == 32 && w + [b] == Xor(Scaled(lead, DIVISOR), [false] + r)
    ensures (Zeros(n) + w) + [b] == Xor(Scaled(lead, Zeros(n) + DIVISOR), Zeros(n + 1) + r)
  {
    hide Scaled;
    var z, d := Zeros(n), Scaled(lead, DIVISOR);
    assert (z + w) + [b] == Xor(z + d, z + ([false] + r)) by {
      assert (z + w) + [b] == z + (w + [b]);
      XorCat(z, d, z, [false] + r);
      XorZeros(z);
    }
    ScaledCat(lead, DIVISOR, n);
    ZerosAndOne(n, r);
  }

  lemma Regroup(m: seq<bool>, w: seq<bool>, b: bool, lead: bool, r: seq<bool>, n: nat)
    requires |w| == |r| == 32 && |m| == n + 32 && w + [b] == Xor(Scaled(lead, DIVISOR), [false] + r)
    ensures Xor(m, Zeros(n) + w) + [b] == Xor(Xor(m + [false], Scaled(lead, Zeros(n) + DIVISOR)), Zeros(n + 1) + r)
  {
    hide Scaled;
    XorTail(m, false, Zeros(n) + w, b);
    RegroupRight(w, b, lead, r, n);
    XorAssoc(m + [false], Scaled(lead, Zeros(n) + DIVISOR), Zeros(n + 1) + r);
  }

  lemma NothingDivided()
    ensures Zeros(32) + [] == Sum(Quotient([]), DIVISOR, Divide(R, Zeros(32), []))
  {
    SumOfNothing(DIVISOR, Zeros(32));
  }

  lemma QuotientStep(bits: seq<bool>, b: bool)
    ensures Quotient(bits + [b]) == Quotient(bits) + [Divide(R, Zeros(32), bits)[0]]
  {
    hide Divide;
    assert (bits + [b])[..|bits + [b]| - 1] == bits;
  }

  lemma SumStep(q: seq<bool>, w: seq<bool>, b: bool, lead: bool, r: seq<bool>)
    requires |w| == |r| == 32 && w + [b] == Xor(Scaled(lead, DIVISOR), [false] + r)
    ensures Sum(q, DIVISOR, w) + [b] == Sum(q + [lead], DIVISOR, r)
  {
    hide Mul, Scaled;
    MulStep(q, lead, DIVISOR);
    Regroup(Mul(q, DIVISOR), w, b, lead, r, |q|);
  }

  lemma IdentityStep(q: seq<bool>, w: Word, b: bool, d: seq<bool>)
    requires |q| == |d| && Zeros(32) + d == Sum(q, DIVISOR, w)
    ensures Zeros(32) + (d + [b]) == Sum(q + [w[0]], DIVISOR, Xor(Shift(w), if b then Unit(31) else Zeros(32)))
  {
    hide Sum, Shift, Scaled, Unit;
    StepSubtracts(w, b);
    SumStep(q, w, b, w[0], Xor(Shift(w), if b then Unit(31) else Zeros(32)));
    assert Zeros(32) + (d + [b]) == Zeros(32) + d + [b];
  }

  /** The division identity: the dividend is quotient times divisor plus remainder. */
  lemma {:induction false} DivisionIdentity(bits: seq<bool>)
    ensures Zeros(32) + bits == Sum(Quotient(bits), DIVISOR, Divide(R, Zeros(32), bits))
    decreases |bits|
  {
    hide Sum, Divide, Shift, Quotient, Unit;
    if bits == [] {
      NothingDivided();
    } else {
      var init, b := bits[..|bits| - 1], bits[|bits| - 1];
      assert bits == init + [b];
      DivisionIdentity(init);
      DivideStep(init, b);
      QuotientStep(init, b);
      IdentityStep(Quotient(init), Divide(R, Zeros(32), init), b, init);
    }
  }

  /**
    The complemented checksum is the one and only remainder of the message polynomial: there is a
    quotient with dividend = quotient * divisor + remainder, and no other word has one.
   */
  lemma CrcIsTheRemainder(data: seq<Byte>, other: Word)
    ensures IsRemainder(Dividend(Bits(data)), DIVISOR, Xor(CrcWord(data), ONES))
    ensures IsRemainder(Dividend(Bits(data)), DIVISOR, other) ==> other == Xor(CrcWord(data), ONES)
  {
    hide Mul, Divide, CrcWord, Bits, Sum, Quotient, Dividend;
    var d := Dividend(Bits(data));
    var r := Divide(R, Zeros(32), d);
    CrcIsRemainder(data);
    assert Xor(Xor(r, ONES), ONES) == r;
    DivisionIdentity(d);
    assert |Quotient(d)| == |d| && Zeros(32) + d == Sum(Quotient(d), DIVISOR, r);
    if IsRemainder(d, DIVISOR, other) {
      var q: seq<bool> :| |q| == |d| && Zeros(32) + d == Sum(q, DIVISOR, other);
      RemainderIsUnique(q, other, Quotient(d), r, DIVISOR);
    }
  }

  lemma WordBound(w: Word)
    ensures Value(w) < 0x1_0000_0000
  {
    ValueBound(w);
    Power32();
  }

  lemma Power32()
    ensures Power2(32) == 0x1_0000_0000
  {
    assert Power2(8) == 0x100;
    Power2Sum(8, 8);
    Power2Sum(16, 16);
  }

  /** The checksum as the number that is stored in archives. */
  function Crc(data: seq<Byte>): (n: nat)
    ensures n < 0x1_0000_0000
  {
    WordBound(CrcWord(data));
    Value(CrcWord(data))
  }
}
