/** Wire frames: the 36-octet header with its CRC32C, and the self-delimiting stream of frames. */
module Frames {
  import opened Bytes
  import opened Crc
  import opened Bursts

  const HEADER_SIZE: nat := 36
  const MAX_FRAME_SIZE: nat := 0x100_0000
  const PROTOCOL_VERSION: byte := 2
  const MAGIC: bytes := [0x4E, 0x50, 0x41, 0x4D]
  const ZEROS: bytes := [0, 0, 0, 0, 0, 0, 0, 0, 0, 0, 0]

  datatype Frame = Frame(version: byte, flags: byte, ftype: u16, channel: u16, seqno: u64, payload: bytes)

  datatype FrameError =
    | ShortHeader | BadMagic | BadVersion | BadCrc | ReservedNonzero | ReservedFlag | LengthMismatch
    | IncompleteFrame | FrameTooLarge

  type Parsed<+T> = Fallible<T, FrameError>

  /** The Go parser refuses the reserved flag bits; the C# one does not look at them. */
  datatype Parser = GoParser | CSharpParser

  // ---------- encoding ----------

  /** Octet 4: version in the high nibble (zero meaning the current one), flags in the low nibble. */
  function VersionAndFlags(f: Frame): byte {
    var ver := if f.version == 0 then PROTOCOL_VERSION else f.version;
    ver % 16 * 16 + f.flags % 16
  }

  /** Octets 0 to 20, which the CRC covers and the record layer authenticates. */
  function HeaderPrefix(f: Frame, payloadLen: nat): (p: bytes)
    ensures |p| == 21
  {
    MAGIC + [VersionAndFlags(f)] + Be(f.ftype, 2) + Be(f.channel, 2) + Be(f.seqno, 8) + Be(payloadLen, 4)
  }

  function Header(f: Frame, payloadLen: nat): (h: bytes)
    ensures |h| == HEADER_SIZE
  {
    var p := HeaderPrefix(f, payloadLen);
    p + Be(Crc32c(p), 4) + ZEROS
  }

  function Marshal(f: Frame): (b: bytes)
    ensures |b| == HEADER_SIZE + |f.payload|
  {
    Header(f, |f.payload|) + f.payload
  }

  // ---------- decoding ----------

  /** Bits 0 and 3 of the flags. */
  predicate ReservedFlagSet(flags: byte) { flags % 2 == 1 || flags / 8 % 2 == 1 }

  /** The CRC is checked before any other field is looked at. */
  function Unmarshal(p: Parser, buf: bytes): Parsed<Frame> {
    if |buf| < HEADER_SIZE then Err(ShortHeader)
    else if FromBe(buf[21..25]) != Crc32c(buf[..21]) then Err(BadCrc)
    else if buf[..4] != MAGIC then Err(BadMagic)
    else if buf[4] / 16 != PROTOCOL_VERSION then Err(BadVersion)
    else if p == GoParser && ReservedFlagSet(buf[4] % 16) then Err(ReservedFlag)
    else if buf[25..36] != ZEROS then Err(ReservedNonzero)
    else if FromBe(buf[17..21]) != |buf| - HEADER_SIZE then Err(LengthMismatch)
    else Ok(Fields(buf))
  }

  function Fields(buf: bytes): Frame
    requires |buf| >= HEADER_SIZE
  {
    Octets(buf[5..7]);
    Octets(buf[7..9]);
    Octets(buf[9..17]);
    PowValues();
    Frame(buf[4] / 16, buf[4] % 16, FromBe(buf[5..7]), FromBe(buf[7..9]), FromBe(buf[9..17]), buf[36..])
  }

  lemma Octets(s: bytes)
    ensures FromBe(s) < Pow256(|s|)
  {
    FromBeBound(s);
  }

  /** The frame at the front of a stream buffer, and its length. */
  function ReadFrame(buf: bytes): Parsed<(Frame, nat)> {
    if |buf| < HEADER_SIZE then Err(ShortHeader)
    else
      var total := HEADER_SIZE + FromBe(buf[17..21]);
      if total > MAX_FRAME_SIZE then Err(FrameTooLarge)
      else if |buf| < total then Err(IncompleteFrame)
      else
        match Unmarshal(GoParser, buf[..total])
        case Err(e) => Err(e)
        case Ok(f) => Ok((f, total))
  }

  // ---------- a header and its fields ----------

  lemma Split(buf: bytes)
    requires |buf| >= HEADER_SIZE
    ensures buf[..21] == buf[..4] + [buf[4]] + buf[5..7] + buf[7..9] + buf[9..17] + buf[17..21]
    ensures buf == buf[..21] + buf[21..25] + buf[25..36] + buf[36..]
  {}

  lemma PrefixFields(f: Frame, n: nat)
    ensures var p := HeaderPrefix(f, n);
            && p[..4] == MAGIC && p[4] == VersionAndFlags(f) && p[5..7] == Be(f.ftype, 2) && p[7..9] == Be(f.channel, 2)
            && p[9..17] == Be(f.seqno, 8) && p[17..21] == Be(n, 4)
  {}

  lemma MarshalFields(f: Frame)
    requires |f.payload| < 0x1_0000_0000
    ensures var b, p := Marshal(f), HeaderPrefix(f, |f.payload|);
            && b[..21] == p && b[21..25] == Be(Crc32c(p), 4) && b[25..36] == ZEROS && b[36..] == f.payload
            && b[..4] == MAGIC && b[4] == VersionAndFlags(f)
            && b[5..7] == Be(f.ftype, 2) && b[7..9] == Be(f.channel, 2) && b[9..17] == Be(f.seqno, 8)
            && FromBe(b[17..21]) == |f.payload|
  {
    hide Crc32c, HeaderPrefix, Be;
    var b, p := Marshal(f), HeaderPrefix(f, |f.payload|);
    PrefixFields(f, |f.payload|);
    assert b[..21] == p;
    assert b[..4] == p[..4] && b[4] == p[4] && b[5..7] == p[5..7] && b[7..9] == p[7..9];
    assert b[9..17] == p[9..17] && b[17..21] == p[17..21];
    PowValues();
    BeRoundTrip(|f.payload|, 4);
  }

  /** The frame a receiver sees. */
  function Received(f: Frame): Frame { f.(version := PROTOCOL_VERSION, flags := f.flags % 16) }

  lemma FieldsBack(f: Frame)
    requires |f.payload| < 0x1_0000_0000
    ensures var g := Fields(Marshal(f));
            && g.ftype == f.ftype && g.channel == f.channel && g.seqno == f.seqno && g.payload == f.payload
            && g.version == VersionAndFlags(f) / 16 && g.flags == VersionAndFlags(f) % 16
  {
    hide Crc32c, Marshal, Be, FromBe, HeaderPrefix, VersionAndFlags;
    MarshalFields(f);
    PowValues();
    BeRoundTrip(f.ftype, 2);
    BeRoundTrip(f.channel, 2);
    BeRoundTrip(f.seqno, 8);
  }

  lemma ChecksumBack(f: Frame)
    requires |f.payload| < 0x1_0000_0000
    ensures FromBe(Marshal(f)[21..25]) == Crc32c(Marshal(f)[..21])
  {
    hide Crc32c, Marshal, Be, FromBe, HeaderPrefix, VersionAndFlags;
    var b := Marshal(f);
    MarshalFields(f);
    PowValues();
    CrcBound(b[..21]);
    BeRoundTrip(Crc32c(b[..21]), 4);
  }

  lemma Nibbles(h: nat, l: nat)
    requires l < 16
    ensures (h * 16 + l) / 16 == h && (h * 16 + l) % 16 == l
  {}

  /** The reserved flags are among the four bits that are sent. */
  lemma ReservedAmongSent(flags: byte)
    ensures ReservedFlagSet(flags % 16) <==> ReservedFlagSet(flags)
  {
    var q, r := flags / 16, flags % 16;
    assert flags == 16 * q + r;
    assert flags / 8 == 2 * q + r / 8;
    assert flags / 8 % 2 == r / 8 % 2;
  }

  lemma PackedOctet(f: Frame)
    ensures var x := VersionAndFlags(f);
            && x / 16 == (if f.version == 0 then PROTOCOL_VERSION else f.version % 16) && x % 16 == f.flags % 16
            && (ReservedFlagSet(x % 16) <==> ReservedFlagSet(f.flags))
  {
    hide ReservedFlagSet;
    Nibbles(if f.version == 0 then PROTOCOL_VERSION else f.version % 16, f.flags % 16);
    ReservedAmongSent(f.flags);
  }

  /** Exactly which frames survive the wire, what arrives, and how the others are refused. */
  lemma MarshalRoundTrip(p: Parser, f: Frame)
    requires |f.payload| < 0x1_0000_0000
    ensures Unmarshal(p, Marshal(f)) ==
              if f.version != 0 && f.version % 16 != 2 then Err(BadVersion)
              else if p == GoParser && ReservedFlagSet(f.flags) then Err(ReservedFlag)
              else Ok(Received(f))
  {
    hide Crc32c, Marshal, Be, FromBe, HeaderPrefix, Fields, VersionAndFlags, ReservedFlagSet;
    MarshalFields(f);
    FieldsBack(f);
    ChecksumBack(f);
    PackedOctet(f);
  }

  /** Every buffer a parser accepts is exactly what its frame marshals to. */
  lemma UnmarshalCanonical(p: Parser, buf: bytes)
    requires Unmarshal(p, buf).Ok?
    ensures var f := Unmarshal(p, buf).value;
            Marshal(f) == buf && |f.payload| < 0x1_0000_0000 && f.version == PROTOCOL_VERSION
  {
    hide Crc32c, Be, FromBe;
    var f := Unmarshal(p, buf).value;
    PowValues();
    Octets(buf[17..21]);
    FromBeRoundTrip(buf[5..7]);
    FromBeRoundTrip(buf[7..9]);
    FromBeRoundTrip(buf[9..17]);
    FromBeRoundTrip(buf[17..21]);
    FromBeRoundTrip(buf[21..25]);
    Split(buf);
    assert VersionAndFlags(f) == buf[4];
    assert HeaderPrefix(f, |f.payload|) == buf[..21];
  }

  /** The authenticated prefix determines every field a receiver uses. */
  lemma PrefixInjective(f: Frame, n: nat, g: Frame, m: nat)
    requires n < 0x1_0000_0000 && m < 0x1_0000_0000
    ensures HeaderPrefix(f, n) == HeaderPrefix(g, m)
       <==> && VersionAndFlags(f) == VersionAndFlags(g) && f.ftype == g.ftype && f.channel == g.channel
            && f.seqno == g.seqno && n == m
  {
    if HeaderPrefix(f, n) == HeaderPrefix(g, m) {
      hide HeaderPrefix, Be, VersionAndFlags;
      PowValues();
      PrefixFields(f, n);
      PrefixFields(g, m);
      BeInjective(f.ftype, g.ftype, 2);
      BeInjective(f.channel, g.channel, 2);
      BeInjective(f.seqno, g.seqno, 8);
      BeInjective(n, m, 4);
    }
  }

  // ---------- corruption ----------

  lemma BurstInPrefix(good: bytes, bad: bytes, s: nat)
    requires |bad| == |good| >= HEADER_SIZE && bad != good
    requires s + 32 <= 8 * 21 && BitsDifferOnlyWithin(good, bad, s, 32)
    ensures good[..21] != bad[..21] && good[21..] == bad[21..] && BitsDifferOnlyWithin(good[..21], bad[..21], s, 32)
  {
    hide Bit;
    forall i | 21 <= i < |good| ensures good[i] == bad[i] { OctetFromBits(good, bad, s, i); }
    assert good == good[..21] + good[21..] && bad == bad[..21] + bad[21..];
    forall n | 0 <= n < 8 * 21 && (n < s || s + 32 <= n)
      ensures BitOf(good[..21], n) == BitOf(bad[..21], n)
    {
      assert BitOf(good, n) == BitOf(bad, n);
      assert good[..21][n / 8] == good[n / 8] && bad[..21][n / 8] == bad[n / 8];
    }
  }

  lemma OctetFromBits(a: bytes, b: bytes, s: nat, i: nat)
    requires |a| == |b| && i < |a| && s + 32 <= 8 * i && BitsDifferOnlyWithin(a, b, s, 32)
    ensures a[i] == b[i]
  {
    hide Bit;
    forall n: nat | n < 8 ensures Bit(a[i], n) == Bit(b[i], n) { assert BitOf(a, 8 * i + n) == BitOf(b, 8 * i + n); }
    SameOctet(a[i], b[i]);
  }

  /** A burst confined to 32 consecutive bits of the covered prefix, at any bit offset, is always caught by the CRC. */
  lemma BitCorruptionRejected(p: Parser, good: bytes, bad: bytes, s: nat)
    requires Unmarshal(p, good).Ok? && |bad| == |good| && bad != good
    requires s + 32 <= 8 * 21 && BitsDifferOnlyWithin(good, bad, s, 32)
    ensures Unmarshal(p, bad) == Err(BadCrc)
  {
    hide Crc32c, FromBe, BitsDifferOnlyWithin;
    BurstInPrefix(good, bad, s);
    assert good[21..25] == good[21..][..4] && bad[21..25] == bad[21..][..4];
    BitBurstDetected(good[..21], bad[..21], s);
  }

  /** In particular, a burst confined to four consecutive octets. */
  lemma CorruptionRejected(p: Parser, good: bytes, bad: bytes, k: nat)
    requires Unmarshal(p, good).Ok? && |bad| == |good| && bad != good
    requires k + 4 <= 21 && DifferOnlyWithin(good, bad, k, 4)
    ensures Unmarshal(p, bad) == Err(BadCrc)
  {
    hide Unmarshal, BitsDifferOnlyWithin;
    OctetsToBits(good, bad, k);
    BitCorruptionRejected(p, good, bad, 8 * k);
  }

  /** Exactly which octets each parser accepts; to the Go parser octet 4 has only four legal values. */
  lemma AcceptedExactly(p: Parser, buf: bytes)
    ensures Unmarshal(p, buf).Ok? <==>
              && |buf| >= 36 && FromBe(buf[21..25]) == Crc32c(buf[..21])
              && buf[..4] == [0x4E, 0x50, 0x41, 0x4D]
              && (if p == GoParser then buf[4] in {0x20, 0x22, 0x24, 0x26} else 0x20 <= buf[4] <= 0x2F)
              && (forall i :: 25 <= i < 36 ==> buf[i] == 0)
              && FromBe(buf[17..21]) == |buf| - 36
  {
    hide Crc32c, FromBe, Fields;
    if |buf| >= 36 {
      assert buf[25..36] == ZEROS <==> forall i :: 25 <= i < 36 ==> buf[i] == 0 by {
        assert forall i :: 25 <= i < 36 ==> buf[25..36][i - 25] == buf[i];
      }
      GoOctets(buf[4]);
    }
  }

  /** Which fault is reported: the checksum comes before the magic, and both before anything they cover is believed. */
  lemma RefusedExactly(p: Parser, buf: bytes)
    ensures Unmarshal(p, buf) == Err(ShortHeader) <==> |buf| < 36
    ensures Unmarshal(p, buf) == Err(BadCrc) <==> |buf| >= 36 && FromBe(buf[21..25]) != Crc32c(buf[..21])
    ensures Unmarshal(p, buf) == Err(BadMagic) <==>
              |buf| >= 36 && FromBe(buf[21..25]) == Crc32c(buf[..21]) && buf[..4] != [0x4E, 0x50, 0x41, 0x4D]
    ensures Unmarshal(p, buf) == Err(LengthMismatch) <==>
              && |buf| >= 36 && FromBe(buf[17..21]) != |buf| - 36
              && Unmarshal(p, buf[..36] + seq(FromBe(buf[17..21]), _ => 0)).Ok?
  {
    hide Crc32c, FromBe, Fields;
    if |buf| >= 36 {
      var n := FromBe(buf[17..21]);
      var c := buf[..36] + seq(n, _ => 0);
      assert c[..21] == buf[..21] && c[21..25] == buf[21..25] && c[..4] == buf[..4] && c[25..36] == buf[25..36];
      assert c[17..21] == buf[17..21] && |c| == 36 + n;
    }
  }

  lemma GoOctets(x: byte)
    ensures x / 16 == 2 && !ReservedFlagSet(x % 16) <==> x in {0x20, 0x22, 0x24, 0x26}
    ensures x / 16 == 2 <==> 0x20 <= x <= 0x2F
  {}

  /** A header that declares a frame of more than 16 MiB is refused before its octets have to be there. */
  lemma TooLargeExactly(buf: bytes)
    ensures ReadFrame(buf) == Err(FrameTooLarge) <==> |buf| >= 36 && FromBe(buf[17..21]) + 36 > 16777216
  {
    hide Crc32c, FromBe, Fields;
  }

  /** The Go parser accepts what the C# parser accepts, less the frames with a reserved flag. */
  lemma ParsersAgree(buf: bytes)
    ensures Unmarshal(GoParser, buf).Ok? <==> Unmarshal(CSharpParser, buf).Ok? && !ReservedFlagSet(buf[4] % 16)
    ensures Unmarshal(GoParser, buf).Ok? ==> Unmarshal(GoParser, buf) == Unmarshal(CSharpParser, buf)
  {}

  // ---------- streams ----------

  /** A frame a sender may put on a stream. */
  predicate Sendable(f: Frame) {
    && (f.version == 0 || f.version == PROTOCOL_VERSION)
    && f.flags < 16 && !ReservedFlagSet(f.flags)
    && HEADER_SIZE + |f.payload| <= MAX_FRAME_SIZE
  }

  lemma DeclaredLength(f: Frame, b: bytes)
    requires |f.payload| < 0x1_0000_0000 && |b| >= HEADER_SIZE
    requires Marshal(f) <= b || b <= Marshal(f)
    ensures FromBe(b[17..21]) == |f.payload|
  {
    hide Marshal, FromBe;
    MarshalFields(f);
    var m := Marshal(f);
    assert forall k :: 17 <= k < 21 ==> b[k] == m[k];
    assert b[17..21] == m[17..21];
  }

  lemma ReadMarshalled(f: Frame, rest: bytes)
    requires Sendable(f)
    ensures ReadFrame(Marshal(f) + rest) == Ok((Received(f), |Marshal(f)|))
  {
    hide Marshal, Unmarshal, FromBe, ReservedFlagSet;
    var b := Marshal(f) + rest;
    DeclaredLength(f, b);
    MarshalRoundTrip(GoParser, f);
    assert b[..|Marshal(f)|] == Marshal(f);
  }

  /** A strict prefix of a frame only ever asks for more octets. */
  lemma ReadPrefix(f: Frame, n: nat)
    requires Sendable(f) && n < |Marshal(f)|
    ensures ReadFrame(Marshal(f)[..n]) == Err(if n < HEADER_SIZE then ShortHeader else IncompleteFrame)
  {
    hide Marshal, Unmarshal, FromBe;
    var b := Marshal(f)[..n];
    if n >= HEADER_SIZE { DeclaredLength(f, b); }
  }

  /** More octets never change a frame already read. */
  lemma ReadStable(buf: bytes, more: bytes)
    requires ReadFrame(buf).Ok?
    ensures ReadFrame(buf + more) == ReadFrame(buf)
    ensures var (f, n) := ReadFrame(buf).value; n <= |buf| && buf[..n] == Marshal(f)
  {
    hide Marshal, Unmarshal, FromBe;
    var (f, n) := ReadFrame(buf).value;
    assert (buf + more)[17..21] == buf[17..21];
    assert (buf + more)[..n] == buf[..n];
    UnmarshalCanonical(GoParser, buf[..n]);
  }

  function ReadAll(buf: bytes): (seq<Frame>, FrameError)
    decreases |buf|
  {
    match ReadFrame(buf)
    case Err(e) => ([], e)
    case Ok((f, n)) =>
      var (fs, e) := ReadAll(buf[n..]);
      ([f] + fs, e)
  }

  function MarshalAll(fs: seq<Frame>): bytes {
    if fs == [] then [] else Marshal(fs[0]) + MarshalAll(fs[1..])
  }

  function ReceivedAll(fs: seq<Frame>): seq<Frame> {
    if fs == [] then [] else [Received(fs[0])] + ReceivedAll(fs[1..])
  }

  /**
   * A stream of sent frames followed by the beginning of another is read as exactly those frames,
   * after which the reader only waits for more octets.
   */
  lemma {:induction false} StreamRoundTrip(fs: seq<Frame>, next: Frame, n: nat)
    requires (forall f <- fs :: Sendable(f)) && Sendable(next) && n < |Marshal(next)|
    ensures ReadAll(MarshalAll(fs) + Marshal(next)[..n])
         == (ReceivedAll(fs), if n < HEADER_SIZE then ShortHeader else IncompleteFrame)
    decreases |fs|
  {
    hide Marshal, ReadFrame, Sendable;
    var tail := Marshal(next)[..n];
    if fs == [] {
      assert MarshalAll(fs) + tail == tail;
      ReadPrefix(next, n);
    } else {
      var head, rest := Marshal(fs[0]), MarshalAll(fs[1..]) + tail;
      assert MarshalAll(fs) + tail == head + rest;
      ReadMarshalled(fs[0], rest);
      assert (head + rest)[|head|..] == rest;
      StreamRoundTrip(fs[1..], next, n);
    }
  }

  /** Whatever is read from a stream, the octets consumed are those frames, marshalled. */
  lemma {:induction false} StreamCanonical(buf: bytes)
    ensures var fs := ReadAll(buf).0;
            |MarshalAll(fs)| <= |buf| && buf[..|MarshalAll(fs)|] == MarshalAll(fs)
    decreases |buf|
  {
    hide Marshal, ReadFrame;
    if ReadFrame(buf).Ok? {
      var (f, n) := ReadFrame(buf).value;
      ReadStable(buf, []);
      StreamCanonical(buf[n..]);
      var fs := ReadAll(buf[n..]).0;
      assert ([f] + fs)[1..] == fs;
      assert buf == buf[..n] + buf[n..];
    }
  }
}
