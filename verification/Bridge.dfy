/** The Bridge channel's payload: an envelope TLV, an optional safety-label TLV, a foreign message kept verbatim. */
module Bridge {
  import opened Bytes
  import opened Tlvs

  const TLV_ENVELOPE: u16 := 0x0010
  const TLV_SAFETY: u16 := 0x0013

  const REQUEST: u16 := 0x0100
  const RESPONSE: u16 := 0x0101
  const ERROR: u16 := 0x0102
  const NOTIFY: u16 := 0x0103
  const STREAM_DATA: u16 := 0x0104
  const STREAM_END: u16 := 0x0105

  const EFFECT_READ_ONLY: byte := 0
  const EFFECT_DESTRUCTIVE: byte := 3

  datatype Envelope = Envelope(protocol: u16, kind: byte, contentType: byte, flags: byte, correlation: bytes, meth: bytes)
  datatype SafetyLabel = SafetyLabel(effect: byte, scope: bytes)
  datatype BridgeFrame = BridgeFrame(envelope: Envelope, safety: Option<SafetyLabel>, foreign: bytes) {
    /** Without a label the effect is taken to be destructive. */
    function EffectiveEffect(): byte { if safety.None? then EFFECT_DESTRUCTIVE else safety.value.effect }
  }

  function KindForFrame(ft: u16): Option<byte> {
    if ft == REQUEST then Some(1)
    else if ft == RESPONSE then Some(2)
    else if ft == ERROR then Some(4)
    else if ft == NOTIFY then Some(3)
    else if ft == STREAM_DATA then Some(5)
    else if ft == STREAM_END then Some(6)
    else None
  }

  /** The one-octet length fields can express the variable parts; the encoders panic otherwise. */
  predicate EnvelopeFits(e: Envelope) { |e.correlation| <= 255 && |e.meth| <= 255 }
  predicate LabelFits(s: SafetyLabel) { |s.scope| <= 255 }
  predicate FrameFits(f: BridgeFrame) { EnvelopeFits(f.envelope) && (f.safety.Some? ==> LabelFits(f.safety.value)) }

  function EncodeEnvelope(e: Envelope): bytes
    requires EnvelopeFits(e)
  {
    Be(e.protocol, 2) + [e.kind, e.contentType, e.flags, |e.correlation|] + e.correlation + [|e.meth|] + e.meth
  }

  function EncodeLabel(s: SafetyLabel): bytes
    requires LabelFits(s)
  {
    [s.effect, |s.scope|] + s.scope
  }

  function EnvelopeTlv(e: Envelope): Tlv
    requires EnvelopeFits(e)
  {
    Tlv(TLV_ENVELOPE, EncodeEnvelope(e))
  }

  function LabelTlv(s: SafetyLabel): Tlv
    requires LabelFits(s)
  {
    Tlv(TLV_SAFETY, EncodeLabel(s))
  }

  function EncodeTail(f: BridgeFrame): bytes
    requires FrameFits(f)
  {
    (if f.safety.Some? then EncodeTlv(LabelTlv(f.safety.value)) else []) + f.foreign
  }

  function EncodeFrame(f: BridgeFrame): bytes
    requires FrameFits(f)
  {
    EncodeTlv(EnvelopeTlv(f.envelope)) + EncodeTail(f)
  }

  function DecodeEnvelope(v: bytes): Option<Envelope> {
    if |v| < 6 then None
    else
      var corrLen: nat := v[5];
      if |v| < 6 + corrLen + 1 then None
      else
        var methodLen: nat := v[6 + corrLen];
        var end := 6 + corrLen + 1 + methodLen;
        if |v| != end then None
        else Some(Envelope(Type(v), v[2], v[3], v[4], v[6..6 + corrLen], v[6 + corrLen + 1..end]))
  }

  function DecodeLabel(v: bytes): Option<SafetyLabel> {
    if |v| < 2 || |v| != 2 + (v[1] as int) then None else Some(SafetyLabel(v[0], v[2..]))
  }

  /** The TLV at the front of `b`, with what follows it. */
  function Front(b: bytes): Option<(Tlv, bytes)> {
    if |b| < 4 then None
    else
      var ln := FromBe(b[2..4]);
      if |b| < 4 + ln then None else Some((Tlv(Type(b), b[4..4 + ln]), b[4 + ln..]))
  }

  /** A notification carries no correlation identifier; every other frame carries one. */
  predicate CorrelationRule(ft: u16, e: Envelope) { |e.correlation| == 0 <==> ft == NOTIFY }

  predicate LooksLikeLabel(rest: bytes) { |rest| >= 4 && Type(rest) == TLV_SAFETY }

  function DecodeTail(e: Envelope, rest: bytes): Option<BridgeFrame> {
    if !LooksLikeLabel(rest) then Some(BridgeFrame(e, None, rest))
    else
      var t := Front(rest);
      if t.None? then None
      else
        var s := DecodeLabel(t.value.0.value);
        if s.None? then None else Some(BridgeFrame(e, Some(s.value), t.value.1))
  }

  /** The validator; every fault it reports is the one malformed-envelope error, here None. */
  function Validate(ft: u16, payload: bytes): Option<BridgeFrame> {
    var kind := KindForFrame(ft);
    if kind.None? || |payload| < 4 || Type(payload) != TLV_ENVELOPE then None
    else
      var t := Front(payload);
      if t.None? then None
      else
        var e := DecodeEnvelope(t.value.0.value);
        if e.None? || e.value.kind != kind.value || !CorrelationRule(ft, e.value) then None
        else DecodeTail(e.value, t.value.1)
  }

  predicate Correlates(request: Envelope, reply: Envelope) {
    |request.correlation| != 0 && |reply.correlation| != 0 && request.correlation == reply.correlation
  }

  /** The six bridged frame types and the message kind each must carry. */
  lemma KindTable(ft: u16, kind: byte)
    ensures KindForFrame(ft) == Some(kind) <==>
              (ft, kind) in {(0x0100, 1), (0x0101, 2), (0x0102, 4), (0x0103, 3), (0x0104, 5), (0x0105, 6)}
  {}

  /** The octets of a frame: type 0x0010 and a length, the envelope's fields in place, then label and foreign message. */
  lemma FrameLayout(f: BridgeFrame)
    requires FrameFits(f)
    ensures var b, e := EncodeFrame(f), f.envelope;
            var k := 10 + |e.correlation|;
            var end := k + 1 + |e.meth|;
            && |b| >= end && b[..2] == [0x00, 0x10] && FromBe(b[2..4]) == end - 4
            && b[4..6] == Be(e.protocol, 2) && b[6] == e.kind && b[7] == e.contentType && b[8] == e.flags
            && b[9] == |e.correlation| && b[10..k] == e.correlation && b[k] == |e.meth| && b[k + 1..end] == e.meth
            && (f.safety.None? ==> b[end..] == f.foreign && f.EffectiveEffect() == 3)
            && (f.safety.Some? ==>
                  var s := f.safety.value;
                  && b[end..] == [0x00, 0x13] + Be(2 + |s.scope|, 2) + [s.effect, |s.scope|] + s.scope + f.foreign
                  && f.EffectiveEffect() == s.effect)
  {
    hide FromBe, Be, EncodeEnvelope, EncodeTail;
    var e, v, tail := f.envelope, EncodeEnvelope(f.envelope), EncodeTail(f);
    EnvelopeLayout(e);
    TailLayout(f);
    BeEnvelopeType();
    PowValues();
    BeRoundTrip(|v|, 2);
    var b := EncodeFrame(f);
    assert b == [0x00, 0x10] + Be(|v|, 2) + v + tail;
    assert b[2..4] == Be(|v|, 2) && b[4..4 + |v|] == v;
    assert forall i :: 0 <= i < |v| ==> b[4 + i] == v[i];
    assert b[4..6] == v[..2];
    assert b[10..10 + |e.correlation|] == v[6..6 + |e.correlation|];
    assert b[11 + |e.correlation|..4 + |v|] == v[7 + |e.correlation|..];
  }

  lemma EnvelopeLayout(e: Envelope)
    requires EnvelopeFits(e)
    ensures var v, k := EncodeEnvelope(e), 6 + |e.correlation|;
            && |v| == k + 1 + |e.meth| && v[..2] == Be(e.protocol, 2)
            && v[2] == e.kind && v[3] == e.contentType && v[4] == e.flags
            && v[5] == |e.correlation| && v[6..k] == e.correlation && v[k] == |e.meth| && v[k + 1..] == e.meth
  {
    hide Be;
  }

  lemma TailLayout(f: BridgeFrame)
    requires FrameFits(f)
    ensures f.safety.None? ==> EncodeTail(f) == f.foreign
    ensures f.safety.Some? ==>
              var s := f.safety.value;
              EncodeTail(f) == [0x00, 0x13] + Be(2 + |s.scope|, 2) + [s.effect, |s.scope|] + s.scope + f.foreign
  {
    hide Be;
    BeLabelType();
  }

  lemma BeEnvelopeType()
    ensures Be(TLV_ENVELOPE, 2) == [0x00, 0x10]
  {
    assert Be(0, 1) == [0x00];
  }

  // ---------- the parts ----------

  lemma FrontCanonical(b: bytes, t: Tlv, rest: bytes)
    ensures Front(b) == Some((t, rest)) <==> Fits(t) && b == EncodeTlv(t) + rest
  {
    if Front(b) == Some((t, rest)) {
      var ln := FromBe(b[2..4]);
      FromBeBound(b[2..4]);
      PowValues();
      FromBeRoundTrip(b[..2]);
      FromBeRoundTrip(b[2..4]);
      assert b == b[..2] + b[2..4] + b[4..4 + ln] + b[4 + ln..];
    }
    if Fits(t) && b == EncodeTlv(t) + rest { TlvFront(t, rest); }
  }

  lemma EnvelopeDecodes(e: Envelope)
    requires EnvelopeFits(e)
    ensures DecodeEnvelope(EncodeEnvelope(e)) == Some(e) && Fits(EnvelopeTlv(e))
  {
    var v := EncodeEnvelope(e);
    PowValues();
    BeRoundTrip(e.protocol, 2);
    assert v[..2] == Be(e.protocol, 2);
    assert v[2] == e.kind && v[3] == e.contentType && v[4] == e.flags && v[5] == |e.correlation|;
    assert v[6..6 + |e.correlation|] == e.correlation;
    assert v[6 + |e.correlation|] == |e.meth|;
    assert v[6 + |e.correlation| + 1..6 + |e.correlation| + 1 + |e.meth|] == e.meth;
  }

  lemma EnvelopeEncodes(v: bytes)
    requires DecodeEnvelope(v).Some?
    ensures var e := DecodeEnvelope(v).value; EnvelopeFits(e) && EncodeEnvelope(e) == v
  {
    var e := DecodeEnvelope(v).value;
    FromBeRoundTrip(v[..2]);
    var k := 6 + |e.correlation|;
    assert v == v[..2] + [v[2], v[3], v[4], v[5]] + v[6..k] + [v[k]] + v[k + 1..];
  }

  /** An envelope value decodes to `e` exactly when it is `e`'s encoding. */
  lemma EnvelopeCanonical(v: bytes, e: Envelope)
    ensures DecodeEnvelope(v) == Some(e) <==> EnvelopeFits(e) && v == EncodeEnvelope(e)
  {
    hide DecodeEnvelope, EncodeEnvelope;
    if DecodeEnvelope(v) == Some(e) { EnvelopeEncodes(v); }
    if EnvelopeFits(e) { EnvelopeDecodes(e); }
  }

  lemma LabelCanonical(v: bytes, s: SafetyLabel)
    ensures DecodeLabel(v) == Some(s) <==> LabelFits(s) && v == EncodeLabel(s)
  {
    if DecodeLabel(v) == Some(s) { assert v == [v[0], v[1]] + v[2..]; }
    if LabelFits(s) && v == EncodeLabel(s) { assert v[2..] == s.scope; }
  }

  // ---------- the payload ----------

  /** An unlabelled frame whose foreign message opens with a safety label's type. */
  predicate Ambiguous(f: BridgeFrame) { f.safety.None? && LooksLikeLabel(f.foreign) }

  predicate LegalFor(ft: u16, f: BridgeFrame) {
    FrameFits(f) && KindForFrame(ft) == Some(f.envelope.kind) && CorrelationRule(ft, f.envelope)
  }

  lemma TailCanonical(e: Envelope, rest: bytes, f: BridgeFrame)
    requires EnvelopeFits(e)
    ensures DecodeTail(e, rest) == Some(f) <==> f.envelope == e && FrameFits(f) && rest == EncodeTail(f) && !Ambiguous(f)
  {
    hide DecodeLabel, EncodeLabel, EncodeTlv, Front, Type;
    assert [] + f.foreign == f.foreign;
    if LooksLikeLabel(rest) && Front(rest).Some? {
      var (t, left) := Front(rest).value;
      FrontCanonical(rest, t, left);
      TlvFront(t, left);
      if DecodeLabel(t.value).Some? { LabelCanonical(t.value, DecodeLabel(t.value).value); }
    }
    if FrameFits(f) && f.safety.Some? && rest == EncodeTail(f) {
      LabelFitsTlv(f.safety.value);
      var t := LabelTlv(f.safety.value);
      FrontCanonical(rest, t, f.foreign);
      TlvFront(t, f.foreign);
      LabelCanonical(t.value, f.safety.value);
    }
  }

  lemma LabelFitsTlv(s: SafetyLabel)
    requires LabelFits(s)
    ensures Fits(LabelTlv(s))
  {}

  /**
   * A payload is accepted as frame `f` exactly when it is `f`'s encoding, `f` obeys the kind and
   * correlation rules of its frame type, and `f` is not an unlabelled frame whose foreign message
   * opens like a label.
   */
  lemma BridgeCanonical(ft: u16, payload: bytes, f: BridgeFrame)
    ensures Validate(ft, payload) == Some(f) <==> LegalFor(ft, f) && payload == EncodeFrame(f) && !Ambiguous(f)
  {
    hide DecodeTail, EncodeTail, DecodeEnvelope, EncodeEnvelope, EncodeTlv, Front, Type, LooksLikeLabel, KindForFrame;
    if Validate(ft, payload) == Some(f) {
      var (t, rest) := Front(payload).value;
      FrontCanonical(payload, t, rest);
      TlvFront(t, rest);
      var e := DecodeEnvelope(t.value).value;
      EnvelopeCanonical(t.value, e);
      TailCanonical(e, rest, f);
    }
    if LegalFor(ft, f) && payload == EncodeFrame(f) && !Ambiguous(f) {
      EnvelopeDecodes(f.envelope);
      var t := EnvelopeTlv(f.envelope);
      FrontCanonical(payload, t, EncodeTail(f));
      TlvFront(t, EncodeTail(f));
      TailCanonical(f.envelope, EncodeTail(f), f);
    }
  }

  /** Decoding undoes encoding exactly for the frames that are not ambiguous. */
  lemma BridgeRoundTrip(ft: u16, f: BridgeFrame)
    requires LegalFor(ft, f)
    ensures Validate(ft, EncodeFrame(f)) == Some(f) <==> f.safety.Some? || |f.foreign| < 4 || f.foreign[..2] != [0x00, 0x13]
  {
    hide Validate, EncodeFrame;
    BridgeCanonical(ft, EncodeFrame(f), f);
    if |f.foreign| >= 4 {
      FromBeRoundTrip(f.foreign[..2]);
      BeLabelType();
    }
  }

  lemma BeLabelType()
    ensures Be(TLV_SAFETY, 2) == [0x00, 0x13] && FromBe([0x00, 0x13]) == TLV_SAFETY
  {
    assert Be(0, 1) == [0];
    BeRoundTrip(TLV_SAFETY, 2) by { PowValues(); }
  }

  /** Adding a label to such a frame's encoding is no change at all: two frames, one payload, two effects. */
  lemma AmbiguousPayload(ft: u16, e: Envelope, foreign: bytes)
    requires LegalFor(ft, BridgeFrame(e, None, foreign))
    ensures var s := SafetyLabel(EFFECT_READ_ONLY, []);
            var plain := BridgeFrame(e, None, EncodeTlv(LabelTlv(s)) + foreign);
            && EncodeFrame(plain) == EncodeFrame(BridgeFrame(e, Some(s), foreign))
            && Validate(ft, EncodeFrame(plain)) == Some(BridgeFrame(e, Some(s), foreign))
            && plain.EffectiveEffect() == EFFECT_DESTRUCTIVE
  {
    hide Validate, EncodeTlv, EncodeEnvelope;
    var s := SafetyLabel(EFFECT_READ_ONLY, []);
    var plain := BridgeFrame(e, None, EncodeTlv(LabelTlv(s)) + foreign);
    assert EncodeTail(plain) == plain.foreign;
    BridgeCanonical(ft, EncodeFrame(plain), BridgeFrame(e, Some(s), foreign));
  }

  /** A payload is valid for at most one frame type. */
  lemma OneFrameType(ft: u16, gt: u16, payload: bytes)
    requires Validate(ft, payload).Some? && Validate(gt, payload).Some?
    ensures ft == gt && Validate(ft, payload) == Validate(gt, payload)
  {
    hide DecodeTail, DecodeEnvelope, Front, Type;
  }

  /** Among accepted payloads, correlation is equality of identifiers, except that notifications never correlate. */
  lemma CorrelationOfAccepted(ft: u16, gt: u16, request: bytes, reply: bytes)
    requires Validate(ft, request).Some? && Validate(gt, reply).Some?
    ensures var a, b := Validate(ft, request).value.envelope, Validate(gt, reply).value.envelope;
            Correlates(a, b) <==> a.correlation == b.correlation && ft != 0x0103 && gt != 0x0103
  {
    hide Validate, EncodeFrame;
    BridgeCanonical(ft, request, Validate(ft, request).value);
    BridgeCanonical(gt, reply, Validate(gt, reply).value);
  }
}
