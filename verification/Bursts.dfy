/**
 * What CRC32C detects.  A string of octets read as one number, least significant octet first, is
 * simply shifted through the register, so the checksum is linear in it and short bursts survive.
 */
module Bursts {
  import opened Bytes
  import opened Bits
  import opened Crc

  /** The octets as one number, the first octet lowest. */
  function Word(a: bytes): nat {
    if a == [] then 0 else a[0] + 256 * Word(a[1..])
  }

  lemma WordSplits(a: bytes)
    requires a != []
    ensures Word(a) == Xor(a[0], Shl(Word(a[1..]), 8)) && Word(a) == a[0] + Shl(Word(a[1..]), 8)
  {
    hide Xor;
    var h := Word(a[1..]);
    Pow2Values();
    ShlOctet(h);
    XorDisjoint(h, a[0], 8);
    XorCommutes(a[0], Shl(h, 8));
  }

  /** Absorbing a string is absorbing its number and shifting it out. */
  lemma {:induction false} RegisterIsWord(x: nat, a: bytes)
    ensures Register(x, a) == Shifts(Xor(x, Word(a)), 8 * |a|)
    decreases |a|
  {
    hide Xor, Shifts, Shl;
    if a == [] {
      XorZero(x);
      NoShifts(x);
    } else {
      var t := a[1..];
      var c := Xor(x, a[0]);
      RegisterIsWord(Absorb(x, a[0]), t);
      AbsorbLate(c, Word(t), 8);
      ShiftsAdd(Xor(c, Shl(Word(t), 8)), 8, 8 * |t|);
      XorAssociates(x, a[0], Shl(Word(t), 8));
      WordSplits(a);
    }
  }

  lemma NoShifts(x: nat)
    ensures Shifts(x, 0) == x
  {}

  /** Two strings of one length have one checksum exactly when the difference of their numbers is shifted out to nothing. */
  lemma SameChecksum(a: bytes, b: bytes)
    requires |a| == |b|
    ensures Crc32c(a) == Crc32c(b) <==> Shifts(Xor(Word(a), Word(b)), 8 * |a|) == 0
  {
    hide Xor, Shifts, Register, Word;
    var x, y, n := Word(a), Word(b), 8 * |a|;
    var p, q := Register(ONES, a), Register(ONES, b);
    RegisterIsWord(ONES, a);
    RegisterIsWord(ONES, b);
    ShiftsLinear(Xor(ONES, x), Xor(ONES, y), n);
    XorSwapMiddle(ONES, x, ONES, y);
    XorSelf(ONES);
    XorZero(Xor(x, y));
    assert Xor(p, q) == Shifts(Xor(x, y), n);
    XorSelf(q);
    if Xor(p, q) == 0 { XorCancels(p, q, q); }
    if Crc32c(a) == Crc32c(b) { XorCancels(p, q, ONES); }
  }

  // ---------- bits ----------

  function Bit(x: nat, n: nat): nat {
    if n == 0 then x % 2 else Bit(x / 2, n - 1)
  }

  /** Bit `n` of a string: the low bit of each octet comes first, as the register takes them. */
  function BitOf(a: bytes, n: nat): nat
    requires n < 8 * |a|
  {
    Bit(a[n / 8], n % 8)
  }

  lemma {:induction false} ZeroHasNoBits(n: nat)
    ensures Bit(0, n) == 0
  {
    if n > 0 { ZeroHasNoBits(n - 1); }
  }

  lemma {:induction false} BitJoin(x: nat, y: nat, k: nat, n: nat)
    requires x < Pow2(k)
    ensures Bit(x + Shl(y, k), n) == if n < k then Bit(x, n) else Bit(y, n - k)
    decreases k
  {
    if k > 0 {
      assert (x + Shl(y, k)) % 2 == x % 2 && (x + Shl(y, k)) / 2 == x / 2 + Shl(y, k - 1);
      if n > 0 { BitJoin(x / 2, y, k - 1, n - 1); }
    }
  }

  lemma TailBit(a: bytes, n: nat)
    requires 8 <= n < 8 * |a|
    ensures BitOf(a[1..], n - 8) == BitOf(a, n)
  {
    hide Bit;
    assert (n - 8) / 8 == n / 8 - 1 && (n - 8) % 8 == n % 8;
  }

  lemma HeadBit(a: bytes, n: nat)
    requires a != [] && n < 8
    ensures BitOf(a, n) == Bit(a[0], n)
  {
    hide Bit;
    assert n / 8 == 0 && n % 8 == n;
  }

  lemma {:induction false} WordBits(a: bytes, n: nat)
    ensures Bit(Word(a), n) == if n < 8 * |a| then BitOf(a, n) else 0
    decreases |a|
  {
    hide Bit, Shl, BitOf, Xor;
    if a == [] {
      ZeroHasNoBits(n);
    } else {
      var t := a[1..];
      assert |t| == |a| - 1;
      Pow2Values();
      WordSplits(a);
      BitJoin(a[0], Word(t), 8, n);
      if n < 8 {
        HeadBit(a, n);
      } else {
        WordBits(t, n - 8);
        if n < 8 * |a| { TailBit(a, n); }
      }
    }
  }

  lemma {:induction false} XorBit(x: nat, y: nat, n: nat)
    ensures Bit(Xor(x, y), n) == (Bit(x, n) + Bit(y, n)) % 2
    decreases n
  {
    hide Xor;
    XorHalves(x, y);
    if n > 0 { XorBit(x / 2, y / 2, n - 1); }
  }

  lemma {:induction false} BitIsBinary(x: nat, n: nat)
    ensures Bit(x, n) < 2
  {
    if n > 0 { BitIsBinary(x / 2, n - 1); }
  }

  function Drop(x: nat, s: nat): nat { if s == 0 then x else Drop(x / 2, s - 1) }

  lemma {:induction false} DropBit(x: nat, s: nat, n: nat)
    ensures Bit(Drop(x, s), n) == Bit(x, n + s)
    decreases s
  {
    if s > 0 { DropBit(x / 2, s - 1, n); }
  }

  /** Low zero bits can be dropped and put back. */
  lemma {:induction false} LowZeros(x: nat, s: nat)
    requires forall n :: 0 <= n < s ==> Bit(x, n) == 0
    ensures x == Shl(Drop(x, s), s)
    decreases s
  {
    if s > 0 {
      assert Bit(x, 0) == 0;
      forall n | 0 <= n < s - 1 ensures Bit(x / 2, n) == 0 { assert Bit(x, n + 1) == Bit(x / 2, n); }
      LowZeros(x / 2, s - 1);
    }
  }

  lemma {:induction false} AllZeroBits(x: nat)
    requires forall n: nat :: Bit(x, n) == 0
    ensures x == 0
    decreases x
  {
    if x > 0 {
      assert Bit(x, 0) == 0;
      forall n: nat ensures Bit(x / 2, n) == 0 { assert Bit(x, n + 1) == Bit(x / 2, n); }
      AllZeroBits(x / 2);
    }
  }

  /** High zero bits bound a number. */
  lemma {:induction false} HighZeros(x: nat, k: nat)
    requires forall n: nat :: k <= n ==> Bit(x, n) == 0
    ensures x < Pow2(k)
    decreases k
  {
    if k == 0 {
      AllZeroBits(x);
    } else {
      forall n: nat | k - 1 <= n ensures Bit(x / 2, n) == 0 { assert Bit(x, n + 1) == Bit(x / 2, n); }
      HighZeros(x / 2, k - 1);
    }
  }

  /** An octet is its eight bits. */
  lemma SameOctet(x: byte, y: byte)
    requires forall n: nat :: n < 8 ==> Bit(x, n) == Bit(y, n)
    ensures x == y
  {
    hide Bit;
    Pow2Values();
    FewBits(x, y, 8);
  }

  lemma {:induction false} FewBits(x: nat, y: nat, k: nat)
    requires x < Pow2(k) && y < Pow2(k) && forall n: nat :: n < k ==> Bit(x, n) == Bit(y, n)
    ensures x == y
    decreases k
  {
    if k > 0 {
      assert Bit(x, 0) == Bit(y, 0);
      forall n: nat | n < k - 1 ensures Bit(x / 2, n) == Bit(y / 2, n) {
        assert Bit(x, n + 1) == Bit(x / 2, n) && Bit(y, n + 1) == Bit(y / 2, n);
      }
      FewBits(x / 2, y / 2, k - 1);
    }
  }

  // ---------- bursts ----------

  ghost predicate BitsDifferOnlyWithin(a: bytes, b: bytes, s: nat, w: nat)
    requires |a| == |b|
  {
    forall n :: 0 <= n < 8 * |a| && (n < s || s + w <= n) ==> BitOf(a, n) == BitOf(b, n)
  }

  lemma {:induction false} WordInjective(a: bytes, b: bytes)
    requires |a| == |b| && Word(a) == Word(b)
    ensures a == b
    decreases |a|
  {
    if a != [] {
      WordInjective(a[1..], b[1..]);
      assert a == [a[0]] + a[1..] && b == [b[0]] + b[1..];
    }
  }

  /** Outside the burst the difference of the numbers has no bits. */
  lemma DifferenceBit(a: bytes, b: bytes, s: nat, w: nat, n: nat)
    requires |a| == |b| && BitsDifferOnlyWithin(a, b, s, w) && (n < s || s + w <= n)
    ensures Bit(Xor(Word(a), Word(b)), n) == 0
  {
    hide Xor, Word, Bit;
    WordBits(a, n);
    WordBits(b, n);
    XorBit(Word(a), Word(b), n);
    BitIsBinary(Word(a), n);
  }

  /** A nonzero 32-bit difference, anywhere in the string, is never shifted out to nothing. */
  lemma BurstSurvives(v: nat, s: nat, n: nat)
    requires 0 < v < LIMIT && s <= n
    ensures Shifts(Shl(v, s), n) != 0
  {
    hide Shifts, Shl;
    ShiftsOut(v, s);
    ShiftsAdd(Shl(v, s), s, n - s);
    ShiftsOfZero(n - s);
    if Shifts(v, n - s) == 0 { ShiftsInjective(v, 0, n - s); }
  }

  lemma {:induction false} ShlOfZero(s: nat)
    ensures Shl(0, s) == 0
  {
    if s > 0 { ShlOfZero(s - 1); }
  }

  /** Two strings of one length that differ only inside 32 consecutive bits, at any bit offset, have different checksums. */
  lemma BitBurstDetected(a: bytes, b: bytes, s: nat)
    requires |a| == |b| && a != b && BitsDifferOnlyWithin(a, b, s, 32)
    ensures Crc32c(a) != Crc32c(b)
  {
    hide Xor, Shifts, Shl, Word, Bit, Crc32c, BitsDifferOnlyWithin;
    var x := Xor(Word(a), Word(b));
    NumbersDiffer(a, b);
    forall n: nat | n < s || s + 32 <= n ensures Bit(x, n) == 0 { DifferenceBit(a, b, s, 32, n); }
    BurstStarts(a, b, s);
    LowZeros(x, s);
    var v := Drop(x, s);
    forall n: nat | 32 <= n ensures Bit(v, n) == 0 { DropBit(x, s, n); }
    HighZeros(v, 32);
    Pow2Values();
    ShlOfZero(s);
    BurstSurvives(v, s, 8 * |a|);
    SameChecksum(a, b);
  }

  lemma NumbersDiffer(a: bytes, b: bytes)
    requires |a| == |b| && a != b
    ensures Xor(Word(a), Word(b)) != 0
  {
    hide Xor, Word;
    XorSelf(Word(b));
    if Xor(Word(a), Word(b)) == 0 {
      XorCancels(Word(a), Word(b), Word(b));
      WordInjective(a, b);
    }
  }

  /** Strings that differ at all differ before the burst has run past their end. */
  lemma BurstStarts(a: bytes, b: bytes, s: nat)
    requires |a| == |b| && a != b && BitsDifferOnlyWithin(a, b, s, 32)
    ensures s <= 8 * |a|
  {
    hide Xor, Word, Bit;
    if s > 8 * |a| {
      var x := Xor(Word(a), Word(b));
      forall n: nat ensures Bit(x, n) == 0 { DifferenceBit(a, b, 8 * |a|, 0, n); }
      AllZeroBits(x);
      NumbersDiffer(a, b);
    }
  }

  ghost predicate DifferOnlyWithin(a: bytes, b: bytes, k: nat, n: nat)
    requires |a| == |b|
  {
    forall i :: 0 <= i < |a| && (i < k || k + n <= i) ==> a[i] == b[i]
  }

  lemma OctetsToBits(a: bytes, b: bytes, k: nat)
    requires |a| == |b| && DifferOnlyWithin(a, b, k, 4)
    ensures BitsDifferOnlyWithin(a, b, 8 * k, 32)
  {
    hide Bit;
  }

  /** In particular, strings that differ only inside four consecutive octets. */
  lemma BurstDetected(a: bytes, b: bytes, k: nat)
    requires |a| == |b| && a != b && DifferOnlyWithin(a, b, k, 4)
    ensures Crc32c(a) != Crc32c(b)
  {
    hide Crc32c, BitsDifferOnlyWithin;
    OctetsToBits(a, b, k);
    BitBurstDetected(a, b, 8 * k);
  }

  lemma PolynomialVanishes(n: nat)
    requires n > 0
    ensures Shifts(2 * POLY + 1, n) == 0
  {
    hide Xor;
    XorSelf(POLY);
    ShiftsOfZero(n - 1);
  }

  lemma WordOfFive(e: bytes)
    requires |e| == 5
    ensures Word(e) == (e[0] as int) + 0x100 * (e[1] as int) + 0x1_0000 * (e[2] as int) + 0x100_0000 * (e[3] as int) + 0x1_0000_0000 * (e[4] as int)
  {
    var f := e[1..];
    var g := f[1..];
    var h := g[1..];
    assert f[0] == e[1] && g[0] == e[2] && h[0] == e[3] && h[1..] == [e[4]] && [e[4]][1..] == [];
    assert Word([e[4]]) == e[4];
    assert Word(h) == (e[3] as int) + 256 * (e[4] as int);
    assert Word(g) == e[2] + 256 * Word(h);
    assert Word(f) == e[1] + 256 * Word(g);
  }

  /** One bit more is too many: two strings that differ only inside 33 consecutive bits and share their checksum. */
  lemma BurstLimit()
    ensures var a, b: bytes := [0, 0, 0, 0, 0], [0xF1, 0x76, 0xEC, 0x05, 0x01];
            BitsDifferOnlyWithin(a, b, 0, 33) && Crc32c(a) == Crc32c(b)
  {
    hide Xor, Word, Crc32c, Shifts, Bit;
    var a, b: bytes := [0, 0, 0, 0, 0], [0xF1, 0x76, 0xEC, 0x05, 0x01];
    WordOfFive(a);
    WordOfFive(b);
    XorZero(2 * POLY + 1);
    PolynomialVanishes(40);
    SameChecksum(a, b);
    forall n | 0 <= n < 40 && 33 <= n ensures BitOf(a, n) == BitOf(b, n) {
      assert n / 8 == 4 && n % 8 == n - 32;
      HighBitsOfOne(n - 32);
    }
  }

  lemma HighBitsOfOne(n: nat)
    requires 1 <= n < 8
    ensures Bit(1, n) == 0 && Bit(0, n) == 0
  {
    ZeroHasNoBits(n);
    ZeroHasNoBits(n - 1);
  }
}
