/** The Go frame type as it runs: a mutable record, header octets written into a buffer, checks in order. */
module FrameIO {
  import opened Bytes
  import opened Crc
  import opened Frames

  /** Writes the low `k` octets of `v` at `off`, most significant first. */
  method PutBe(dst: array<byte>, off: nat, v: nat, k: nat)
    requires off + k <= dst.Length
    modifies dst
    ensures dst[off..off + k] == Be(v, k)
    ensures forall j :: 0 <= j < dst.Length && !(off <= j < off + k) ==> dst[j] == old(dst[j])
  {
    var x, i := v, k;
    while i > 0
      invariant 0 <= i <= k
      invariant Be(v, k) == Be(x, i) + dst[off + i..off + k]
      invariant forall j :: 0 <= j < dst.Length && !(off <= j < off + k) ==> dst[j] == old(dst[j])
    {
      i := i - 1;
      dst[off + i] := x % 256;
      x := x / 256;
      assert dst[off + i..off + k] == [dst[off + i]] + dst[off + i + 1..off + k];
    }
  }

  class WireFrame {
    var version: byte
    var flags: byte
    var ftype: u16
    var channel: u16
    var seqno: u64
    var payload: bytes

    function View(): Frame
      reads this
    {
      Frame(version, flags, ftype, channel, seqno, payload)
    }

    constructor (f: Frame)
      ensures View() == f
    {
      version, flags, ftype, channel, seqno, payload := f.version, f.flags, f.ftype, f.channel, f.seqno, f.payload;
    }

    /** The magic and the octet that packs version and flags; a zero version goes out as the protocol's. */
    method WriteOpening(dst: array<byte>)
      requires dst.Length >= 21
      modifies dst
      ensures dst[..5] == MAGIC + [VersionAndFlags(View())]
      ensures dst[5..] == old(dst[5..])
    {
      var ver := version;
      if ver == 0 { ver := PROTOCOL_VERSION; }
      dst[0] := MAGIC[0];
      dst[1] := MAGIC[1];
      dst[2] := MAGIC[2];
      dst[3] := MAGIC[3];
      dst[4] := ver % 16 * 16 + flags % 16;
    }

    /** Writes octets 0 to 20 into `dst`, leaving the rest of it and the frame alone. */
    method WritePrefix(dst: array<byte>, payloadLen: nat)
      requires dst.Length >= 21
      modifies dst
      ensures dst[..21] == HeaderPrefix(View(), payloadLen)
      ensures dst[21..] == old(dst[21..])
    {
      hide Be, VersionAndFlags;
      ghost var after := dst[21..];
      WriteOpening(dst);
      assert dst[21..] == after by { assert dst[21..] == dst[5..][16..]; }
      PutBe(dst, 5, ftype, 2);
      assert dst[..7] == dst[..5] + dst[5..7];
      PutBe(dst, 7, channel, 2);
      assert dst[..9] == dst[..7] + dst[7..9];
      PutBe(dst, 9, seqno, 8);
      assert dst[..17] == dst[..9] + dst[9..17];
      PutBe(dst, 17, payloadLen, 4);
      assert dst[..21] == dst[..17] + dst[17..21];
    }

    method WriteHeader(dst: array<byte>, payloadLen: nat)
      requires dst.Length >= HEADER_SIZE
      modifies dst
      ensures dst[..36] == Header(View(), payloadLen)
      ensures dst[36..] == old(dst[36..])
    {
      hide Be, Crc32c, HeaderPrefix;
      ghost var after := dst[36..];
      WritePrefix(dst, payloadLen);
      assert dst[36..] == after;
      ghost var p := HeaderPrefix(View(), payloadLen);
      var crc := BitwiseCrc32c(dst[..21]);
      PutBe(dst, 21, crc, 4);
      for i := 25 to HEADER_SIZE
        invariant dst[..21] == p && dst[21..25] == Be(crc, 4) && dst[36..] == after
        invariant forall j :: 25 <= j < i ==> dst[j] == 0
      {
        dst[i] := 0;
      }
      assert dst[..36] == dst[..21] + dst[21..25] + dst[25..36];
      assert dst[25..36] == ZEROS;
    }

    /** Marshals the frame; a zero version is filled in on the way. */
    method MarshalBinary() returns (out: array<byte>)
      modifies this`version
      ensures fresh(out) && out[..] == Marshal(old(View()))
      ensures View() == old(View()).(version := if old(version) == 0 then PROTOCOL_VERSION else old(version))
    {
      hide Be, Crc32c;
      ghost var f := View();
      if version == 0 { version := PROTOCOL_VERSION; }
      assert VersionAndFlags(View()) == VersionAndFlags(f);
      assert HeaderPrefix(View(), |payload|) == HeaderPrefix(f, |payload|);
      out := new byte[HEADER_SIZE + |payload|];
      WriteHeader(out, |payload|);
      ghost var header := out[..36];
      forall i | 0 <= i < |payload| { out[36 + i] := payload[i]; }
      assert out[..36] == header && out[36..] == payload;
      assert out[..] == out[..36] + out[36..];
    }

    /** Parses `buf` into the receiver; on an error the receiver is left as it was. */
    method UnmarshalBinary(buf: bytes) returns (err: Parsed<()>)
      modifies this
      ensures match Unmarshal(GoParser, buf)
              case Ok(f) => err == Ok(()) && View() == f
              case Err(e) => err == Err(e) && View() == old(View())
    {
      hide Crc32c, FromBe;
      if |buf| < HEADER_SIZE { return Err(ShortHeader); }
      var want := BitwiseCrc32c(buf[..21]);
      if FromBe(buf[21..25]) != want { return Err(BadCrc); }
      if buf[0] != MAGIC[0] || buf[1] != MAGIC[1] || buf[2] != MAGIC[2] || buf[3] != MAGIC[3] {
        assert buf[..4][0] != MAGIC[0] || buf[..4][1] != MAGIC[1] || buf[..4][2] != MAGIC[2] || buf[..4][3] != MAGIC[3];
        return Err(BadMagic);
      }
      assert buf[..4] == MAGIC;
      var ver := buf[4] / 16;
      if ver != PROTOCOL_VERSION { return Err(BadVersion); }
      if buf[4] % 2 == 1 || buf[4] / 8 % 2 == 1 { return Err(ReservedFlag); }
      for i := 25 to HEADER_SIZE
        invariant forall j :: 25 <= j < i ==> buf[j] == 0
        invariant View() == old(View())
      {
        if buf[i] != 0 {
          assert buf[25..36][i - 25] != ZEROS[i - 25];
          return Err(ReservedNonzero);
        }
      }
      assert buf[25..36] == ZEROS;
      if FromBe(buf[17..21]) != |buf| - HEADER_SIZE { return Err(LengthMismatch); }
      Octets(buf[5..7]);
      Octets(buf[7..9]);
      Octets(buf[9..17]);
      PowValues();
      version, flags := ver, buf[4] % 16;
      ftype, channel, seqno := FromBe(buf[5..7]), FromBe(buf[7..9]), FromBe(buf[9..17]);
      payload := buf[36..];
      return Ok(());
    }
  }

  /** The reader's loop over a stream buffer: every whole frame at its front, then the reason it stopped. */
  method ReadStream(buf: bytes) returns (frames: seq<Frame>, stopped: FrameError)
    ensures (frames, stopped) == ReadAll(buf)
  {
    hide ReadFrame;
    frames := [];
    var off := 0;
    assert buf[0..] == buf;
    ReadsSome(buf);
    while true
      invariant 0 <= off <= |buf|
      invariant ReadAll(buf) == (frames + ReadAll(buf[off..]).0, ReadAll(buf[off..]).1)
      decreases |buf| - off
    {
      var r := ReadFrame(buf[off..]);
      ReadsSome(buf[off..]);
      if r.Err? {
        assert frames + [] == frames;
        return frames, r.error;
      }
      assert buf[off..][r.value.1..] == buf[off + r.value.1..];
      ghost var more := ReadAll(buf[off + r.value.1..]).0;
      assert frames + ([r.value.0] + more) == frames + [r.value.0] + more;
      frames := frames + [r.value.0];
      off := off + r.value.1;
    }
  }

  lemma ReadsSome(buf: bytes)
    ensures ReadFrame(buf).Ok? ==> 0 < ReadFrame(buf).value.1 <= |buf|
    ensures [] + ReadAll(buf).0 == ReadAll(buf).0
  {}
}
