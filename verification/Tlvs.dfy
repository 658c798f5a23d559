/** Extension TLVs: Type (u16), Length (u16), Value, concatenated. */
module Tlvs {
  import opened Bytes

  const MAX_TLVS: nat := 64

  datatype Tlv = Tlv(typ: u16, value: bytes)

  datatype TlvError = Truncated | TooMany | UnknownCritical | BadOrder | BadValue

  type Result<+T> = Fallible<T, TlvError>

  function EncodeTlv(t: Tlv): bytes { Be(t.typ, 2) + Be(|t.value|, 2) + t.value }

  function EncodeTlvs(ts: seq<Tlv>): bytes {
    if ts == [] then [] else EncodeTlv(ts[0]) + EncodeTlvs(ts[1..])
  }

  /** The length field can express the value's length. */
  predicate Fits(t: Tlv) { |t.value| < 0x1_0000 }

  predicate AllFit(ts: seq<Tlv>) { forall t <- ts :: Fits(t) }

  /** Decodes all of `buf` after `n` TLVs have been read already. */
  function DecodeFrom(buf: bytes, n: nat): Result<seq<Tlv>>
    decreases |buf|
  {
    if |buf| == 0 then Ok([])
    else if |buf| < 4 then Err(Truncated)
    else
      var ln := FromBe(buf[2..4]);
      if |buf| < 4 + ln then Err(Truncated)
      else if n + 1 > MAX_TLVS then Err(TooMany)
      else
        var rest :- DecodeFrom(buf[4 + ln..], n + 1);
        Ok([Tlv(Type(buf), buf[4..4 + ln])] + rest)
  }

  function Type(buf: bytes): u16
    requires |buf| >= 2
  {
    FromBeBound(buf[..2]);
    PowValues();
    FromBe(buf[..2])
  }

  function DecodeTlvs(buf: bytes): Result<seq<Tlv>> { DecodeFrom(buf, 0) }

  /** The decoder's loop: consumes the buffer and appends to the output. */
  method ParseTlvs(buf: bytes) returns (r: Result<seq<Tlv>>)
    ensures r == DecodeTlvs(buf)
  {
    hide FromBe;
    var rest, out: seq<Tlv> := buf, [];
    assert After([], DecodeFrom(buf, 0)) == DecodeFrom(buf, 0) by { AfterNothing(DecodeFrom(buf, 0)); }
    while |rest| > 0
      invariant |out| <= MAX_TLVS
      invariant DecodeFrom(buf, 0) == After(out, DecodeFrom(rest, |out|))
      decreases |rest|
    {
      if |rest| < 4 { return Err(Truncated); }
      var typ := Type(rest);
      var ln := FromBe(rest[2..4]);
      if |rest| < 4 + ln { return Err(Truncated); }
      var t := Tlv(typ, rest[4..4 + ln]);
      AfterOne(out, t, DecodeFrom(rest[4 + ln..], |out| + 1));
      out := out + [t];
      if |out| > MAX_TLVS { return Err(TooMany); }
      rest := rest[4 + ln..];
    }
    assert out + [] == out;
    return Ok(out);
  }

  function After(out: seq<Tlv>, r: Result<seq<Tlv>>): Result<seq<Tlv>> {
    match r
    case Ok(ts) => Ok(out + ts)
    case Err(e) => Err(e)
  }

  lemma AfterNothing(r: Result<seq<Tlv>>)
    ensures After([], r) == r
  {
    if r.Ok? { assert [] + r.value == r.value; }
  }

  lemma AfterOne(out: seq<Tlv>, t: Tlv, r: Result<seq<Tlv>>)
    ensures r.Ok? ==> out + ([t] + r.value) == out + [t] + r.value
  {}

  // ---------- TLVs are self-delimiting ----------

  lemma TlvFront(t: Tlv, rest: bytes)
    requires Fits(t)
    ensures var b := EncodeTlv(t) + rest;
            && |b| == 4 + |t.value| + |rest| && Type(b) == t.typ && FromBe(b[2..4]) == |t.value|
            && b[4..4 + |t.value|] == t.value && b[4 + |t.value|..] == rest
  {
    var b := EncodeTlv(t) + rest;
    PowValues();
    BeRoundTrip(t.typ, 2);
    BeRoundTrip(|t.value|, 2);
    assert b[..2] == Be(t.typ, 2);
    assert b[2..4] == Be(|t.value|, 2);
  }

  lemma TlvPrefixFree(t: Tlv, u: Tlv, r: bytes, s: bytes)
    requires Fits(t) && Fits(u) && EncodeTlv(t) + r == EncodeTlv(u) + s
    ensures t == u && r == s
  {
    hide EncodeTlv;
    TlvFront(t, r);
    TlvFront(u, s);
  }

  // ---------- decoding inverts encoding, both ways ----------

  /** The TLV read at the front re-encodes to the octets it was read from. */
  lemma FrontEncodes(buf: bytes, ln: nat)
    requires |buf| >= 4 && ln == FromBe(buf[2..4]) && 4 + ln <= |buf|
    ensures var t := Tlv(Type(buf), buf[4..4 + ln]); Fits(t) && buf == EncodeTlv(t) + buf[4 + ln..]
  {
    hide FromBe, Be;
    FromBeBound(buf[2..4]);
    PowValues();
    FromBeRoundTrip(buf[..2]);
    FromBeRoundTrip(buf[2..4]);
    assert buf == buf[..2] + buf[2..4] + buf[4..4 + ln] + buf[4 + ln..];
  }

  lemma ConsTlv(t: Tlv, ts: seq<Tlv>)
    requires Fits(t) && AllFit(ts)
    ensures AllFit([t] + ts) && EncodeTlvs([t] + ts) == EncodeTlv(t) + EncodeTlvs(ts)
  {
    hide EncodeTlv;
    assert ([t] + ts)[1..] == ts;
  }

  lemma {:induction false} DecodeSound(buf: bytes, n: nat)
    requires DecodeFrom(buf, n).Ok? && n <= MAX_TLVS
    ensures var ts := DecodeFrom(buf, n).value;
            n + |ts| <= MAX_TLVS && AllFit(ts) && EncodeTlvs(ts) == buf
    decreases |buf|
  {
    hide FromBe, EncodeTlv, EncodeTlvs, AllFit, Fits, Type;
    if |buf| == 0 {
      NothingEncodes();
    } else {
      var ln := FromBe(buf[2..4]);
      FrontEncodes(buf, ln);
      DecodeSound(buf[4 + ln..], n + 1);
      ConsTlv(Tlv(Type(buf), buf[4..4 + ln]), DecodeFrom(buf[4 + ln..], n + 1).value);
    }
  }

  lemma NothingEncodes()
    ensures AllFit([]) && EncodeTlvs([]) == []
  {}

  lemma {:induction false} DecodeComplete(ts: seq<Tlv>, n: nat)
    requires AllFit(ts) && n <= MAX_TLVS
    ensures DecodeFrom(EncodeTlvs(ts), n) == if n + |ts| <= 64 then Ok(ts) else Err(TooMany)
    decreases |ts|
  {
    hide EncodeTlv, FromBe;
    if ts != [] {
      var rest := EncodeTlvs(ts[1..]);
      assert EncodeTlvs(ts) == EncodeTlv(ts[0]) + rest;
      TlvFront(ts[0], rest);
      if n < MAX_TLVS { DecodeComplete(ts[1..], n + 1); }
      assert Tlv(ts[0].typ, ts[0].value) == ts[0];
      assert [ts[0]] + ts[1..] == ts;
    }
  }

  /** A payload decodes to `ts` exactly when it is their encoding, there are at most 64, and each fits. */
  lemma TlvsCanonical(buf: bytes, ts: seq<Tlv>)
    ensures DecodeTlvs(buf) == Ok(ts) <==> |ts| <= 64 && AllFit(ts) && buf == EncodeTlvs(ts)
  {
    hide DecodeFrom, EncodeTlvs;
    if DecodeTlvs(buf) == Ok(ts) { DecodeSound(buf, 0); }
    if |ts| <= MAX_TLVS && AllFit(ts) && buf == EncodeTlvs(ts) { DecodeComplete(ts, 0); }
  }
}
