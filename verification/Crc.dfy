/** CRC32C (Castagnoli, reflected): the bitwise and table-driven forms are one function. */
module Crc {
  import opened Bytes
  import opened Bits

  const POLY: nat := 0x82F63B78
  const ONES: nat := 0xFFFF_FFFF
  const LIMIT: nat := 0x1_0000_0000

  /** What a shift folds in, by the bit that falls out. */
  function Feedback(c: nat): nat { if c % 2 == 1 then POLY else 0 }

  /** One shift of the 32-bit register. */
  function Shift(c: nat): nat { Xor(c / 2, Feedback(c)) }

  function Shifts(c: nat, n: nat): nat
    decreases n
  {
    if n == 0 then c else Shifts(Shift(c), n - 1)
  }

  /** The register after absorbing one octet. */
  function Absorb(c: nat, b: byte): nat { Shifts(Xor(c, b), 8) }

  /** The register after absorbing a string of octets. */
  function Register(c: nat, data: bytes): nat
    decreases |data|
  {
    if data == [] then c else Register(Absorb(c, data[0]), data[1..])
  }

  function Crc32c(data: bytes): nat { Xor(Register(ONES, data), ONES) }

  // ---------- the register stays within 32 bits, and a shift loses nothing ----------

  lemma ShiftBound(c: nat)
    requires c < LIMIT
    ensures Shift(c) < LIMIT
  {
    Pow2Values();
    XorBound(c / 2, if c % 2 == 1 then POLY else 0, 32);
  }

  lemma {:induction false} ShiftsBound(c: nat, n: nat)
    requires c < LIMIT
    ensures Shifts(c, n) < LIMIT
    decreases n
  {
    if n > 0 { ShiftBound(c); ShiftsBound(Shift(c), n - 1); }
  }

  lemma AbsorbBound(c: nat, b: byte)
    requires c < LIMIT
    ensures Absorb(c, b) < LIMIT
  {
    hide Shifts, Xor;
    Pow2Values();
    XorBound(c, b, 32);
    ShiftsBound(Xor(c, b), 8);
  }

  lemma {:induction false} RegisterBound(c: nat, data: bytes)
    requires c < LIMIT
    ensures Register(c, data) < LIMIT
    decreases |data|
  {
    hide Absorb;
    if data != [] { AbsorbBound(c, data[0]); RegisterBound(Absorb(c, data[0]), data[1..]); }
  }

  /** The checksum is a 32-bit number. */
  lemma CrcBound(data: bytes)
    ensures Crc32c(data) < LIMIT
  {
    hide Register, Xor;
    Pow2Values();
    RegisterBound(ONES, data);
    XorBound(Register(ONES, data), ONES, 32);
  }

  lemma ShiftInjective(x: nat, y: nat)
    requires x < LIMIT && y < LIMIT && Shift(x) == Shift(y)
    ensures x == y
  {
    hide Xor;
    Pow2Values();
    XorZero(x / 2);
    XorZero(y / 2);
    if x % 2 == y % 2 {
      XorCancels(x / 2, y / 2, if x % 2 == 1 then POLY else 0);
    } else if x % 2 == 1 {
      XorTopBit(x / 2, POLY, 31);
    } else {
      XorTopBit(y / 2, POLY, 31);
    }
  }

  lemma {:induction false} ShiftsInjective(x: nat, y: nat, n: nat)
    requires x < LIMIT && y < LIMIT && Shifts(x, n) == Shifts(y, n)
    ensures x == y
    decreases n
  {
    hide Shift;
    if n > 0 {
      ShiftBound(x);
      ShiftBound(y);
      ShiftsInjective(Shift(x), Shift(y), n - 1);
      ShiftInjective(x, y);
    }
  }

  // ---------- linearity ----------

  lemma FeedbackLinear(x: nat, y: nat)
    ensures Feedback(Xor(x, y)) == Xor(Feedback(x), Feedback(y))
  {
    hide Xor;
    XorHalves(x, y);
    XorZero(POLY);
    XorZero(0);
    XorSelf(POLY);
    assert (x + y) % 2 == 1 <==> (x % 2 == 1) != (y % 2 == 1);
  }

  lemma ShiftLinear(x: nat, y: nat)
    ensures Shift(Xor(x, y)) == Xor(Shift(x), Shift(y))
  {
    hide Xor, Feedback;
    XorHalves(x, y);
    FeedbackLinear(x, y);
    XorSwapMiddle(x / 2, Feedback(x), y / 2, Feedback(y));
  }

  lemma {:induction false} ShiftsLinear(x: nat, y: nat, n: nat)
    ensures Shifts(Xor(x, y), n) == Xor(Shifts(x, n), Shifts(y, n))
    decreases n
  {
    hide Shift, Xor;
    if n > 0 {
      ShiftLinear(x, y);
      ShiftsLinear(Shift(x), Shift(y), n - 1);
    }
  }

  lemma {:induction false} ShiftsAdd(c: nat, n: nat, m: nat)
    ensures Shifts(Shifts(c, n), m) == Shifts(c, n + m)
    decreases n
  {
    hide Shift;
    if n > 0 { ShiftsAdd(Shift(c), n - 1, m); }
  }

  /** Zero bits at the low end just fall off. */
  lemma {:induction false} ShiftsOut(h: nat, n: nat)
    ensures Shifts(Shl(h, n), n) == h
    decreases n
  {
    hide Xor;
    if n > 0 {
      XorZero(Shl(h, n - 1));
      assert Shift(Shl(h, n)) == Shl(h, n - 1);
      ShiftsOut(h, n - 1);
    }
  }

  // ---------- the two implementations ----------

  lemma {:induction false} ShiftsOfZero(n: nat)
    ensures Shifts(0, n) == 0
  {
    if n > 0 { XorZero(0); ShiftsOfZero(n - 1); }
  }

  /** An octet absorbed `n` shifts late is the same octet placed `n` bits higher and absorbed at once. */
  lemma AbsorbLate(c: nat, b: nat, n: nat)
    ensures Xor(Shifts(c, n), b) == Shifts(Xor(c, Shl(b, n)), n)
  {
    hide Xor, Shifts;
    ShiftsOut(b, n);
    ShiftsLinear(c, Shl(b, n), n);
  }

  /** The C# loop: eight conditional shifts per octet. */
  method BitwiseCrc32c(data: bytes) returns (crc: nat)
    ensures crc == Crc32c(data)
  {
    hide Xor;
    crc := ONES;
    for i := 0 to |data|
      invariant Register(ONES, data) == Register(crc, data[i..])
    {
      assert data[i..][0] == data[i] && data[i..][1..] == data[i + 1..];
      ghost var before := crc;
      crc := Xor(crc, data[i]);
      for k := 0 to 8
        invariant Shifts(crc, 8 - k) == Absorb(before, data[i])
      {
        XorZero(crc / 2);
        crc := if crc % 2 != 0 then Xor(crc / 2, POLY) else crc / 2;
      }
    }
    crc := Xor(crc, ONES);
  }

  /** The Python table: every octet shifted out in advance. */
  method MakeTable() returns (tbl: seq<nat>)
    ensures |tbl| == 256 && forall i :: 0 <= i < 256 ==> tbl[i] == Shifts(i, 8)
  {
    hide Xor;
    tbl := [];
    for i := 0 to 256
      invariant |tbl| == i && forall j :: 0 <= j < i ==> tbl[j] == Shifts(j, 8)
    {
      var crc := i;
      for k := 0 to 8
        invariant Shifts(crc, 8 - k) == Shifts(i, 8)
      {
        crc := Xor(crc / 2, if crc % 2 != 0 then POLY else 0);
      }
      tbl := tbl + [crc];
    }
  }

  lemma XorOctet(c: nat, b: byte)
    ensures Xor(c, b) / 256 == c / 256
  {
    hide Xor;
    Pow2Values();
    var h, l := c / 256, c % 256;
    ShlOctets(h);
    XorDisjoint(h, l, 8);
    XorAssociates(256 * h, l, b);
    XorBound(l, b, 8);
    XorDisjoint(h, Xor(l, b), 8);
  }

  /** Eight shifts split into the octet that is looked up and the rest that moves down. */
  lemma LookupStep(c: nat, b: byte)
    ensures Absorb(c, b) == Xor(c / 256, Shifts(Xor(c, b) % 256, 8))
  {
    hide Xor, Shifts;
    Pow2Values();
    var x := Xor(c, b);
    var h, l := x / 256, x % 256;
    ShlOctets(h);
    XorDisjoint(h, l, 8);
    ShiftsLinear(256 * h, l, 8);
    ShiftsOut(h, 8);
    XorOctet(c, b);
  }

  /** The Python loop: one table lookup per octet, the same checksum on every string. */
  method TableCrc32c(tbl: seq<nat>, data: bytes) returns (crc: nat)
    requires |tbl| == 256 && forall i :: 0 <= i < 256 ==> tbl[i] == Shifts(i, 8)
    ensures crc == Crc32c(data)
  {
    hide Xor, Shifts, Absorb;
    crc := ONES;
    for i := 0 to |data|
      invariant Register(ONES, data) == Register(crc, data[i..])
    {
      assert data[i..][0] == data[i] && data[i..][1..] == data[i + 1..];
      LookupStep(crc, data[i]);
      crc := Xor(crc / 256, tbl[Xor(crc, data[i]) % 256]);
    }
    crc := Xor(crc, ONES);
  }
}
