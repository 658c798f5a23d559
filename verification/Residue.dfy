/**
 * What pins the checksum itself.  A string followed by its own checksum, lowest octet first, always has
 * the same checksum, and no other four octets give it; the empty string has checksum zero.
 */
module Residue {
  import opened Bytes
  import opened Bits
  import opened Crc
  import opened Bursts

  // ---------- exclusive or, a hexadecimal digit at a time ----------

  type digit = d: int | 0 <= d < 16

  lemma XorBits(h: nat, d: nat, g: nat, e: nat)
    requires d < 2 && e < 2
    ensures Xor(2 * h + d, 2 * g + e) == 2 * Xor(h, g) + if d == e then 0 else 1
  {
    hide Xor;
    XorHalves(2 * h + d, 2 * g + e);
    assert (2 * h + d) / 2 == h && (2 * g + e) / 2 == g;
    assert (2 * h + d + (2 * g + e)) % 2 == if d == e then 0 else 1;
  }

  function Digit(b3: nat, b2: nat, b1: nat, b0: nat): nat { 8 * b3 + 4 * b2 + 2 * b1 + b0 }

  function Differ(d: nat, e: nat): nat { if d == e then 0 else 1 }

  lemma XorDigit(h: nat, b3: nat, b2: nat, b1: nat, b0: nat, g: nat, c3: nat, c2: nat, c1: nat, c0: nat)
    requires b3 < 2 && b2 < 2 && b1 < 2 && b0 < 2 && c3 < 2 && c2 < 2 && c1 < 2 && c0 < 2
    ensures Xor(16 * h + Digit(b3, b2, b1, b0), 16 * g + Digit(c3, c2, c1, c0))
         == 16 * Xor(h, g) + Digit(Differ(b3, c3), Differ(b2, c2), Differ(b1, c1), Differ(b0, c0))
  {
    hide Xor;
    XorBits(h, b3, g, c3);
    XorBits(2 * h + b3, b2, 2 * g + c3, c2);
    XorBits(4 * h + 2 * b3 + b2, b1, 4 * g + 2 * c3 + c2, c1);
    XorBits(8 * h + 4 * b3 + 2 * b2 + b1, b0, 8 * g + 4 * c3 + 2 * c2 + c1, c0);
  }

  lemma DigitBits(x: digit) returns (b3: nat, b2: nat, b1: nat, b0: nat)
    ensures b3 < 2 && b2 < 2 && b1 < 2 && b0 < 2 && x == Digit(b3, b2, b1, b0)
  {
    b3 := if x >= 8 then 1 else 0;
    b2 := if x - 8 * b3 >= 4 then 1 else 0;
    b1 := if x - 8 * b3 - 4 * b2 >= 2 then 1 else 0;
    b0 := x - 8 * b3 - 4 * b2 - 2 * b1;
  }

  // A digit combined with each digit of the polynomial, 0x82F63B78.

  function With2(x: digit): digit {
    if x < 2 || 4 <= x < 6 || 8 <= x < 10 || 12 <= x < 14 then x + 2 else x - 2
  }

  function With3(x: digit): digit { if x < 4 then 3 - x else if x < 8 then 11 - x else if x < 12 then 19 - x else 27 - x }

  function With6(x: digit): digit {
    if x < 2 || 8 <= x < 10 then x + 6 else if x < 4 || 10 <= x < 12 then x + 2 else if x < 6 || 12 <= x < 14 then x - 2 else x - 6
  }

  function With7(x: digit): digit { if x < 8 then 7 - x else 23 - x }

  function With8(x: digit): digit { if x < 8 then x + 8 else x - 8 }

  lemma LowRows(b3: nat, b2: nat, b1: nat, b0: nat)
    requires b3 < 2 && b2 < 2 && b1 < 2 && b0 < 2
    ensures var x := Digit(b3, b2, b1, b0);
            With2(x) == Digit(b3, b2, 1 - b1, b0) && With3(x) == Digit(b3, b2, 1 - b1, 1 - b0)
  {
    if b3 == 0 { if b2 == 0 {} else {} } else { if b2 == 0 {} else {} }
  }

  lemma HighRows(b3: nat, b2: nat, b1: nat, b0: nat)
    requires b3 < 2 && b2 < 2 && b1 < 2 && b0 < 2
    ensures var x := Digit(b3, b2, b1, b0);
            && With6(x) == Digit(b3, 1 - b2, 1 - b1, b0) && With7(x) == Digit(b3, 1 - b2, 1 - b1, 1 - b0)
            && With8(x) == Digit(1 - b3, b2, b1, b0)
  {
    if b3 == 0 { if b2 == 0 {} else {} } else { if b2 == 0 {} else {} }
  }

  lemma DigitTable(h: nat, g: nat, x: digit)
    ensures Xor(16 * h + x, 16 * g + 2) == 16 * Xor(h, g) + With2(x)
    ensures Xor(16 * h + x, 16 * g + 3) == 16 * Xor(h, g) + With3(x)
    ensures Xor(16 * h + x, 16 * g + 6) == 16 * Xor(h, g) + With6(x)
    ensures Xor(16 * h + x, 16 * g + 7) == 16 * Xor(h, g) + With7(x)
    ensures Xor(16 * h + x, 16 * g + 8) == 16 * Xor(h, g) + With8(x)
    ensures Xor(16 * h + x, 16 * g + 11) == 16 * Xor(h, g) + With8(With3(x))
    ensures Xor(16 * h + x, 16 * g + 15) == 16 * Xor(h, g) + (15 - x)
  {
    hide Xor, With2, With3, With6, With7, With8, Digit, Differ;
    var b3, b2, b1, b0 := DigitBits(x);
    LowRows(b3, b2, b1, b0);
    HighRows(b3, b2, b1, b0);
    HighRows(b3, b2, 1 - b1, 1 - b0);
    LowLines(h, b3, b2, b1, b0, g);
    HighLines(h, b3, b2, b1, b0, g);
  }

  lemma LowLines(h: nat, b3: nat, b2: nat, b1: nat, b0: nat, g: nat)
    requires b3 < 2 && b2 < 2 && b1 < 2 && b0 < 2
    ensures var x := 16 * h + Digit(b3, b2, b1, b0);
            && Xor(x, 16 * g + 2) == 16 * Xor(h, g) + Digit(b3, b2, 1 - b1, b0)
            && Xor(x, 16 * g + 3) == 16 * Xor(h, g) + Digit(b3, b2, 1 - b1, 1 - b0)
            && Xor(x, 16 * g + 6) == 16 * Xor(h, g) + Digit(b3, 1 - b2, 1 - b1, b0)
            && Xor(x, 16 * g + 7) == 16 * Xor(h, g) + Digit(b3, 1 - b2, 1 - b1, 1 - b0)
  {
    hide Xor;
    XorDigit(h, b3, b2, b1, b0, g, 0, 0, 1, 0);
    XorDigit(h, b3, b2, b1, b0, g, 0, 0, 1, 1);
    XorDigit(h, b3, b2, b1, b0, g, 0, 1, 1, 0);
    XorDigit(h, b3, b2, b1, b0, g, 0, 1, 1, 1);
  }

  lemma HighLines(h: nat, b3: nat, b2: nat, b1: nat, b0: nat, g: nat)
    requires b3 < 2 && b2 < 2 && b1 < 2 && b0 < 2
    ensures var x := 16 * h + Digit(b3, b2, b1, b0);
            && Xor(x, 16 * g + 8) == 16 * Xor(h, g) + Digit(1 - b3, b2, b1, b0)
            && Xor(x, 16 * g + 11) == 16 * Xor(h, g) + Digit(1 - b3, b2, 1 - b1, 1 - b0)
            && Xor(x, 16 * g + 15) == 16 * Xor(h, g) + 15 - Digit(b3, b2, b1, b0)
  {
    hide Xor;
    XorDigit(h, b3, b2, b1, b0, g, 1, 0, 0, 0);
    XorDigit(h, b3, b2, b1, b0, g, 1, 0, 1, 1);
    XorDigit(h, b3, b2, b1, b0, g, 1, 1, 1, 1);
  }

  function Hex4(d3: digit, d2: digit, d1: digit, d0: digit): nat { 0x1000 * d3 + 0x100 * d2 + 0x10 * d1 + d0 }

  lemma XorPolyLow(h: nat, d3: digit, d2: digit, d1: digit, d0: digit)
    ensures Xor(0x1_0000 * h + Hex4(d3, d2, d1, d0), POLY)
         == 0x1_0000 * Xor(h, 0x82F6) + Hex4(With3(d3), With8(With3(d2)), With7(d1), With8(d0))
  {
    hide Xor, With3, With7, With8;
    DigitTable(h, 0x82F6, d3);
    DigitTable(0x10 * h + d3, 0x82F63, d2);
    DigitTable(0x100 * h + 0x10 * d3 + d2, 0x82F63B, d1);
    DigitTable(0x1000 * h + 0x100 * d3 + 0x10 * d2 + d1, 0x82F63B7, d0);
  }

  lemma XorPolyHigh(d3: digit, d2: digit, d1: digit, d0: digit)
    ensures Xor(Hex4(d3, d2, d1, d0), 0x82F6) == Hex4(With8(d3), With2(d2), 15 - d1, With6(d0))
  {
    hide Xor, With2, With6, With8;
    XorZero(0);
    DigitTable(0, 0, d3);
    DigitTable(d3, 8, d2);
    DigitTable(0x10 * d3 + d2, 0x82, d1);
    DigitTable(0x100 * d3 + 0x10 * d2 + d1, 0x82F, d0);
  }

  function Hex(d7: digit, d6: digit, d5: digit, d4: digit, d3: digit, d2: digit, d1: digit, d0: digit): nat {
    0x1_0000 * Hex4(d7, d6, d5, d4) + Hex4(d3, d2, d1, d0)
  }

  /** A shift that drops a one. */
  lemma OddShift(d7: digit, d6: digit, d5: digit, d4: digit, d3: digit, d2: digit, d1: digit, d0: digit)
    ensures Shift(2 * Hex(d7, d6, d5, d4, d3, d2, d1, d0) + 1)
         == Hex(With8(d7), With2(d6), 15 - d5, With6(d4), With3(d3), With8(With3(d2)), With7(d1), With8(d0))
  {
    hide Xor, Hex4, With2, With3, With6, With7, With8;
    XorPolyLow(Hex4(d7, d6, d5, d4), d3, d2, d1, d0);
    XorPolyHigh(d7, d6, d5, d4);
    var c := Hex(d7, d6, d5, d4, d3, d2, d1, d0);
    assert (2 * c + 1) / 2 == c && (2 * c + 1) % 2 == 1;
  }

  /** A shift that drops a zero. */
  lemma EvenShift(c: nat)
    ensures Shift(2 * c) == c
  {
    hide Xor;
    XorZero(c);
  }

  lemma Eight(c0: nat, c1: nat, c2: nat, c3: nat, c4: nat, c5: nat, c6: nat, c7: nat, c8: nat)
    requires Shift(c0) == c1 && Shift(c1) == c2 && Shift(c2) == c3 && Shift(c3) == c4
    requires Shift(c4) == c5 && Shift(c5) == c6 && Shift(c6) == c7 && Shift(c7) == c8
    ensures Shifts(c0, 8) == c8
  {
    hide Shift;
    assert Shifts(c6, 2) == c8;
    assert Shifts(c4, 4) == c8;
    assert Shifts(c2, 6) == c8;
  }

  // ---------- a register of ones, shifted out ----------

  lemma Ones8()
    ensures Shifts(0xFFFFFFFF, 8) == 0xAD82ACAE
  {
    hide Shift, Shifts;
    OddShift(7, 15, 15, 15, 15, 15, 15, 15);
    OddShift(7, 14, 8, 4, 14, 2, 4, 3);
    OddShift(7, 14, 3, 9, 6, 12, 9, 13);
    OddShift(7, 14, 6, 7, 10, 11, 15, 2);
    EvenShift(0x7E48C845);
    OddShift(3, 15, 2, 4, 6, 4, 2, 2);
    EvenShift(0x5EE92FAD);
    OddShift(2, 15, 7, 4, 9, 7, 13, 6);
    Eight(0xFFFFFFFF, 0xFD09C487, 0xFC72D93B, 0xFCCF57E5, 0xFC91908A,
          0x7E48C845, 0xBDD25F5A, 0x5EE92FAD, 0xAD82ACAE);
  }

  lemma Ones16()
    ensures Shifts(0xAD82ACAE, 8) == 0xE9E882D
  {
    hide Shift, Shifts;
    EvenShift(0x56C15657);
    OddShift(2, 11, 6, 0, 10, 11, 2, 11);
    OddShift(5, 4, 12, 11, 4, 8, 2, 9);
    OddShift(6, 11, 1, 14, 11, 9, 10, 8);
    EvenShift(0x74F44168);
    EvenShift(0x3A7A20B4);
    EvenShift(0x1D3D105A);
    EvenShift(0xE9E882D);
    Eight(0xAD82ACAE, 0x56C15657, 0xA9969053, 0xD63D7351, 0xE9E882D0, 0x74F44168, 0x3A7A20B4, 0x1D3D105A, 0xE9E882D);
  }

  lemma Ones24()
    ensures Shifts(0xE9E882D, 8) == 0x9F9B5C85
  {
    hide Shift, Shifts;
    OddShift(0, 7, 4, 15, 4, 4, 1, 6);
    EvenShift(0x42DCBFB7);
    OddShift(2, 1, 6, 14, 5, 15, 13, 11);
    OddShift(5, 1, 12, 12, 3, 2, 5, 1);
    OddShift(6, 9, 9, 13, 0, 4, 9, 4);
    EvenShift(0x75B59FF6);
    EvenShift(0x3ADACFFB);
    OddShift(1, 13, 6, 13, 6, 7, 15, 13);
    Eight(0xE9E882D, 0x85B97F6E, 0x42DCBFB7, 0xA39864A3, 0xD33A0929, 0xEB6B3FEC, 0x75B59FF6, 0x3ADACFFB, 0x9F9B5C85);
  }

  lemma Ones32()
    ensures Shifts(0x9F9B5C85, 8) == 0xB798B438
  {
    hide Shift, Shifts;
    OddShift(4, 15, 12, 13, 10, 14, 4, 2);
    EvenShift(0x669DCA9D);
    OddShift(3, 3, 4, 14, 14, 5, 4, 14);
    EvenShift(0x58DC6F1B);
    OddShift(2, 12, 6, 14, 3, 7, 8, 13);
    OddShift(5, 7, 4, 12, 0, 6, 7, 10);
    EvenShift(0x6ADD1E81);
    OddShift(3, 5, 6, 14, 8, 15, 4, 0);
    Eight(0x9F9B5C85, 0xCD3B953A, 0x669DCA9D, 0xB1B8DE36, 0x58DC6F1B,
          0xAE980CF5, 0xD5BA3D02, 0x6ADD1E81, 0xB798B438);
  }

  lemma OnesOut()
    ensures Shifts(0xFFFF_FFFF, 32) == 0xB798B438
  {
    hide Shifts;
    Ones8();
    Ones16();
    Ones24();
    Ones32();
    ShiftsAdd(0xFFFF_FFFF, 8, 8);
    ShiftsAdd(0xFFFF_FFFF, 16, 8);
    ShiftsAdd(0xFFFF_FFFF, 24, 8);
  }

  // ---------- the residue ----------

  lemma {:induction false} RegisterConcat(c: nat, a: bytes, b: bytes)
    ensures Register(c, a + b) == Register(Register(c, a), b)
    decreases |a|
  {
    hide Absorb;
    if a == [] {
      assert a + b == b;
    } else {
      RegisterConcat(Absorb(c, a[0]), a[1..], b);
      assert (a + b)[1..] == a[1..] + b;
    }
  }

  lemma {:induction false} XorOnes(x: nat, k: nat)
    requires x < Pow2(k)
    ensures Xor(x, Pow2(k) - 1) == Pow2(k) - 1 - x
    decreases k
  {
    hide Xor;
    if k == 0 {
      XorZero(0);
    } else {
      XorOnes(x / 2, k - 1);
      XorBits(x / 2, x % 2, Pow2(k - 1) - 1, 1);
      assert 2 * (Pow2(k - 1) - 1) + 1 == Pow2(k) - 1;
    }
  }

  /** The four octets of a 32-bit number, lowest first. */
  function LowestFirst(c: nat): (t: bytes)
    ensures |t| == 4
  {
    [c % 256, c / 0x100 % 256, c / 0x1_0000 % 256, c / 0x100_0000 % 256]
  }

  lemma WordOfFour(t: bytes)
    requires |t| == 4
    ensures Word(t) == (t[0] as int) + 0x100 * (t[1] as int) + 0x1_0000 * (t[2] as int) + 0x100_0000 * (t[3] as int)
    ensures Word(t) < LIMIT
  {
    assert t[3..][1..] == [] && t[2..][1..] == t[3..] && t[1..][1..] == t[2..];
    assert Word(t[3..]) == (t[3] as int) + 256 * Word([]);
    assert Word(t[2..]) == (t[2] as int) + 256 * Word(t[3..]);
    assert Word(t[1..]) == (t[1] as int) + 256 * Word(t[2..]);
  }

  lemma WordLowestFirst(c: nat)
    requires c < LIMIT
    ensures Word(LowestFirst(c)) == c
  {
    WordOfFour(LowestFirst(c));
    var p := c / 0x100;
    var q := p / 0x100;
    assert c / 0x1_0000 == q && c / 0x100_0000 == q / 0x100 < 256;
  }

  /** The register after a string and four more octets, by what they leave of the string's register. */
  lemma FourMore(a: bytes, t: bytes)
    requires |t| == 4
    ensures Register(ONES, a + t) == Shifts(Xor(Register(ONES, a), Word(t)), 32)
  {
    hide Register, Word, Xor, Shifts;
    RegisterConcat(ONES, a, t);
    RegisterIsWord(Register(ONES, a), t);
  }

  lemma EmptyChecksum()
    ensures Crc32c([]) == 0
  {
    XorSelf(ONES);
  }

  /** A checksum is the residue exactly when the register was all ones before the last 32 shifts. */
  lemma ResidueRegister(x: nat)
    requires x < LIMIT
    ensures Xor(Shifts(x, 32), ONES) == 0x48674BC7 <==> x == 0xFFFF_FFFF
  {
    hide Xor, Shifts;
    Pow2Values();
    OnesOut();
    ShiftsBound(x, 32);
    XorOnes(Shifts(x, 32), 32);
    if Shifts(x, 32) == 0xB798B438 { ShiftsInjective(x, 0xFFFF_FFFF, 32); }
  }

  /** Four octets give the residue exactly when they are the checksum of what went before, lowest octet first. */
  lemma ResidueExactly(a: bytes, t: bytes)
    requires |t| == 4
    ensures Crc32c(a + t) == 0x48674BC7 <==> t == LowestFirst(Crc32c(a))
  {
    hide Xor, Shifts, Register, Word, LowestFirst;
    Pow2Values();
    var r, c := Register(ONES, a), Crc32c(a);
    RegisterBound(ONES, a);
    CrcBound(a);
    WordOfFour(t);
    FourMore(a, t);
    XorBound(r, Word(t), 32);
    ResidueRegister(Xor(r, Word(t)));
    Opposite(r, Word(t));
    WordLowestFirst(c);
    if Word(t) == c { WordInjective(t, LowestFirst(c)); }
  }

  /** Two numbers make all ones exactly when each is the complement of the other. */
  lemma Opposite(r: nat, w: nat)
    ensures Xor(r, w) == ONES <==> w == Xor(r, ONES)
  {
    hide Xor;
    XorAssociates(r, r, w);
    XorAssociates(r, r, ONES);
    XorSelf(r);
    XorZero(w);
    XorZero(ONES);
  }
}
