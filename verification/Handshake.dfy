/** The three handshake messages, as fixed sequences of TLVs. */
module Handshake {
  import opened Bytes
  import opened Tlvs

  const CLIENT_HELLO: u16 := 0x0100
  const SERVER_HELLO: u16 := 0x0101
  const SERVER_AUTH: u16 := 0x0102
  const CLIENT_AUTH: u16 := 0x0103

  const PROFILE_OFFER: u16 := 0x01
  const PROFILE_SELECT: u16 := 0x02
  const KEM_OFFER: u16 := 0x03
  const KEM_SELECT: u16 := 0x04
  const SIG_OFFER: u16 := 0x05
  const SIG_SELECT: u16 := 0x06
  const KEM_SHARE: u16 := 0x07
  const KEM_CIPHERTEXT: u16 := 0x08
  const IDENTITY_KEY: u16 := 0x09
  const CERT_VERIFY: u16 := 0x0A
  const FINISHED: u16 := 0x0B
  const AEAD_OFFER: u16 := 0x0C
  const AEAD_SELECT: u16 := 0x0D

  datatype ClientHello = ClientHello(profiles: bytes, kems: seq<u16>, sigs: seq<u16>, aeads: seq<u16>, share: bytes)
  datatype ServerHello = ServerHello(profile: byte, kem: u16, sig: u16, aead: u16, ciphertext: bytes)
  datatype Auth = Auth(identity: bytes, certVerify: bytes, finished: bytes)

  // ---------- lists of 16-bit code points ----------

  function U16List(ids: seq<u16>): (v: bytes)
    ensures |v| == 2 * |ids|
  {
    if ids == [] then [] else Be(ids[0], 2) + U16List(ids[1..])
  }

  function U16s(v: bytes): (ids: seq<u16>)
    requires |v| % 2 == 0
    ensures |ids| == |v| / 2
  {
    if v == [] then [] else [Type(v)] + U16s(v[2..])
  }

  function ParseU16List(v: bytes): Result<seq<u16>> {
    if |v| == 0 || |v| % 2 != 0 then Err(BadValue) else Ok(U16s(v))
  }

  method AppendU16List(ids: seq<u16>) returns (out: bytes)
    ensures out == U16List(ids)
  {
    hide Be;
    out := [];
    for i := 0 to |ids|
      invariant U16List(ids) == out + U16List(ids[i..])
    {
      assert ids[i..][0] == ids[i] && ids[i..][1..] == ids[i + 1..];
      assert out + (Be(ids[i], 2) + U16List(ids[i + 1..])) == out + Be(ids[i], 2) + U16List(ids[i + 1..]);
      out := out + Be(ids[i], 2);
    }
  }

  method ReadU16List(v: bytes) returns (r: Result<seq<u16>>)
    ensures r == ParseU16List(v)
  {
    if |v| == 0 || |v| % 2 != 0 { return Err(BadValue); }
    hide U16s, Type;
    var out: seq<u16>, i := [], 0;
    assert v[0..] == v && [] + U16s(v) == U16s(v);
    while i < |v|
      invariant 0 <= i <= |v| && i % 2 == 0
      invariant U16s(v) == out + U16s(v[i..])
    {
      var id := Type(v[i..]);
      U16sStep(v, i, out);
      out := out + [id];
      i := i + 2;
    }
    U16sEnd(v, out);
    return Ok(out);
  }

  lemma U16sStep(v: bytes, i: nat, out: seq<u16>)
    requires i + 2 <= |v| && (|v| - i) % 2 == 0
    ensures out + U16s(v[i..]) == out + [Type(v[i..])] + U16s(v[i + 2..])
  {
    hide Type;
    assert v[i..][2..] == v[i + 2..];
  }

  lemma U16sEnd(v: bytes, out: seq<u16>)
    ensures out + U16s(v[|v|..]) == out
  {}

  lemma {:induction false} U16RoundTrip(ids: seq<u16>)
    ensures U16s(U16List(ids)) == ids
  {
    if ids != [] {
      var v := U16List(ids);
      assert v[..2] == Be(ids[0], 2) && v[2..] == U16List(ids[1..]);
      PowValues();
      BeRoundTrip(ids[0], 2);
      U16RoundTrip(ids[1..]);
    }
  }

  lemma {:induction false} U16Canonical(v: bytes)
    requires |v| % 2 == 0
    ensures U16List(U16s(v)) == v
  {
    if v != [] {
      FromBeRoundTrip(v[..2]);
      U16Canonical(v[2..]);
      assert U16s(v)[1..] == U16s(v[2..]);
      assert v == v[..2] + v[2..];
    }
  }

  // ---------- the TLVs a message must have ----------

  function Types(ts: seq<Tlv>): (r: seq<u16>)
    ensures |r| == |ts| && forall i :: 0 <= i < |ts| ==> r[i] == ts[i].typ
  {
    seq(|ts|, i requires 0 <= i < |ts| => ts[i].typ)
  }

  /** An unknown type with the high bit set must be understood, and is not. */
  predicate Critical(t: Tlv, want: seq<u16>) { t.typ >= 0x8000 && t.typ !in want }

  function RequireTlvs(ts: seq<Tlv>, want: seq<u16>): Option<TlvError> {
    if exists t <- ts :: Critical(t, want) then Some(UnknownCritical)
    else if Types(ts) != want then Some(BadOrder)
    else None
  }

  method CheckTlvs(ts: seq<Tlv>, want: seq<u16>) returns (err: Option<TlvError>)
    ensures err == RequireTlvs(ts, want)
  {
    for i := 0 to |ts|
      invariant forall j :: 0 <= j < i ==> !Critical(ts[j], want)
    {
      if ts[i].typ >= 0x8000 && ts[i].typ !in want {
        assert Critical(ts[i], want);
        return Some(UnknownCritical);
      }
    }
    if |ts| != |want| { return Some(BadOrder); }
    for i := 0 to |want|
      invariant forall j :: 0 <= j < i ==> ts[j].typ == want[j]
    {
      if ts[i].typ != want[i] {
        assert Types(ts)[i] != want[i];
        return Some(BadOrder);
      }
    }
    assert Types(ts) == want;
    return None;
  }

  /** A list passes exactly when its types are the wanted ones in order; a critical stranger is reported first. */
  lemma RequiredExactly(ts: seq<Tlv>, want: seq<u16>)
    ensures RequireTlvs(ts, want) == None <==> |ts| == |want| && forall i :: 0 <= i < |ts| ==> ts[i].typ == want[i]
    ensures RequireTlvs(ts, want) == Some(UnknownCritical) <==>
              exists i :: 0 <= i < |ts| && ts[i].typ >= 0x8000 && ts[i].typ !in want
    ensures RequireTlvs(ts, want) in {None, Some(UnknownCritical), Some(BadOrder)}
  {
    if Types(ts) == want { NoneCritical(ts, want); }
    if t: Tlv :| t in ts && Critical(t, want) {
      var i :| 0 <= i < |ts| && ts[i] == t;
    }
    if i :| 0 <= i < |ts| && ts[i].typ >= 0x8000 && ts[i].typ !in want { assert Critical(ts[i], want); }
  }

  // ---------- CLIENT_HELLO ----------

  const CLIENT_HELLO_TYPES: seq<u16> := [PROFILE_OFFER, KEM_OFFER, SIG_OFFER, AEAD_OFFER, KEM_SHARE]

  function ClientHelloTlvs(m: ClientHello): seq<Tlv> {
    [Tlv(PROFILE_OFFER, m.profiles), Tlv(KEM_OFFER, U16List(m.kems)), Tlv(SIG_OFFER, U16List(m.sigs)),
     Tlv(AEAD_OFFER, U16List(m.aeads)), Tlv(KEM_SHARE, m.share)]
  }

  function EncodeClientHello(m: ClientHello): bytes { EncodeTlvs(ClientHelloTlvs(m)) }

  function DecodeClientHello(payload: bytes): Result<ClientHello> {
    var ts :- DecodeTlvs(payload);
    match RequireTlvs(ts, CLIENT_HELLO_TYPES)
    case Some(e) => Err(e)
    case None =>
      if |ts[0].value| == 0 then Err(BadValue)
      else
        var kems :- ParseU16List(ts[1].value);
        var sigs :- ParseU16List(ts[2].value);
        var aeads :- ParseU16List(ts[3].value);
        if |ts[4].value| == 0 then Err(BadValue)
        else Ok(ClientHello(ts[0].value, kems, sigs, aeads, ts[4].value))
  }

  predicate ValidClientHello(m: ClientHello) {
    && 0 < |m.profiles| < 0x1_0000 && 0 < |m.kems| < 0x8000 && 0 < |m.sigs| < 0x8000 && 0 < |m.aeads| < 0x8000
    && 0 < |m.share| < 0x1_0000
  }

  // ---------- SERVER_HELLO ----------

  const SERVER_HELLO_TYPES: seq<u16> := [PROFILE_SELECT, KEM_SELECT, SIG_SELECT, AEAD_SELECT, KEM_CIPHERTEXT]

  function ServerHelloTlvs(m: ServerHello): seq<Tlv> {
    [Tlv(PROFILE_SELECT, [m.profile]), Tlv(KEM_SELECT, Be(m.kem, 2)), Tlv(SIG_SELECT, Be(m.sig, 2)),
     Tlv(AEAD_SELECT, Be(m.aead, 2)), Tlv(KEM_CIPHERTEXT, m.ciphertext)]
  }

  function EncodeServerHello(m: ServerHello): bytes { EncodeTlvs(ServerHelloTlvs(m)) }

  function DecodeServerHello(payload: bytes): Result<ServerHello> {
    var ts :- DecodeTlvs(payload);
    match RequireTlvs(ts, SERVER_HELLO_TYPES)
    case Some(e) => Err(e)
    case None =>
      if |ts[0].value| != 1 || |ts[1].value| != 2 || |ts[2].value| != 2 || |ts[3].value| != 2 || |ts[4].value| == 0
      then Err(BadValue)
      else Ok(ServerHello(ts[0].value[0], Type(ts[1].value), Type(ts[2].value), Type(ts[3].value), ts[4].value))
  }

  predicate ValidServerHello(m: ServerHello) { 0 < |m.ciphertext| < 0x1_0000 }

  // ---------- SERVER_AUTH and CLIENT_AUTH ----------

  const AUTH_TYPES: seq<u16> := [IDENTITY_KEY, CERT_VERIFY, FINISHED]

  function AuthTlvs(m: Auth): seq<Tlv> {
    [Tlv(IDENTITY_KEY, m.identity), Tlv(CERT_VERIFY, m.certVerify), Tlv(FINISHED, m.finished)]
  }

  function EncodeAuth(m: Auth): bytes { EncodeTlvs(AuthTlvs(m)) }

  function DecodeAuth(payload: bytes): Result<Auth> {
    var ts :- DecodeTlvs(payload);
    match RequireTlvs(ts, AUTH_TYPES)
    case Some(e) => Err(e)
    case None =>
      if |ts[0].value| == 0 || |ts[1].value| == 0 || |ts[2].value| == 0 then Err(BadValue)
      else Ok(Auth(ts[0].value, ts[1].value, ts[2].value))
  }

  predicate ValidAuth(m: Auth) {
    0 < |m.identity| < 0x1_0000 && 0 < |m.certVerify| < 0x1_0000 && 0 < |m.finished| < 0x1_0000
  }

  // ---------- each message is accepted exactly in its one encoding ----------

  lemma NoneCritical(ts: seq<Tlv>, want: seq<u16>)
    requires Types(ts) == want
    ensures RequireTlvs(ts, want) == None
  {
    forall t | t in ts ensures !Critical(t, want) {
      var i :| 0 <= i < |ts| && ts[i] == t;
      assert want[i] == t.typ;
    }
  }

  lemma ClientHelloCanonical(payload: bytes, m: ClientHello)
    ensures DecodeClientHello(payload) == Ok(m) <==> ValidClientHello(m) && payload == EncodeClientHello(m)
  {
    hide DecodeTlvs, EncodeTlvs, U16List, U16s, Critical;
    if DecodeClientHello(payload) == Ok(m) {
      var ts := DecodeTlvs(payload).value;
      TlvsCanonical(payload, ts);
      assert Fits(ts[0]) && Fits(ts[1]) && Fits(ts[2]) && Fits(ts[3]) && Fits(ts[4]);
      U16Canonical(ts[1].value);
      U16Canonical(ts[2].value);
      U16Canonical(ts[3].value);
      TypesAre5(ts, CLIENT_HELLO_TYPES);
      assert ts == ClientHelloTlvs(m);
    }
    if ValidClientHello(m) && payload == EncodeClientHello(m) {
      var ts := ClientHelloTlvs(m);
      TlvsCanonical(payload, ts);
      assert Types(ts) == CLIENT_HELLO_TYPES;
      NoneCritical(ts, CLIENT_HELLO_TYPES);
      U16RoundTrip(m.kems);
      U16RoundTrip(m.sigs);
      U16RoundTrip(m.aeads);
    }
  }

  lemma TypesAre5(ts: seq<Tlv>, want: seq<u16>)
    requires Types(ts) == want && |want| == 5
    ensures |ts| == 5 && forall i :: 0 <= i < 5 ==> ts[i] == Tlv(want[i], ts[i].value)
  {}

  lemma ServerHelloCanonical(payload: bytes, m: ServerHello)
    ensures DecodeServerHello(payload) == Ok(m) <==> ValidServerHello(m) && payload == EncodeServerHello(m)
  {
    hide DecodeTlvs, EncodeTlvs, Be, FromBe, Critical;
    if DecodeServerHello(payload) == Ok(m) {
      var ts := DecodeTlvs(payload).value;
      TlvsCanonical(payload, ts);
      assert Fits(ts[4]);
      PairCanonical(ts[1].value);
      PairCanonical(ts[2].value);
      PairCanonical(ts[3].value);
      TypesAre5(ts, SERVER_HELLO_TYPES);
      assert ts[0].value == [m.profile];
      assert ts == ServerHelloTlvs(m);
    }
    if ValidServerHello(m) && payload == EncodeServerHello(m) {
      var ts := ServerHelloTlvs(m);
      TlvsCanonical(payload, ts);
      assert Types(ts) == SERVER_HELLO_TYPES;
      NoneCritical(ts, SERVER_HELLO_TYPES);
      PairRoundTrip(m.kem);
      PairRoundTrip(m.sig);
      PairRoundTrip(m.aead);
    }
  }

  lemma PairCanonical(v: bytes)
    requires |v| == 2
    ensures Be(Type(v), 2) == v
  {
    assert v[..2] == v;
    FromBeRoundTrip(v);
  }

  lemma PairRoundTrip(id: u16)
    ensures Type(Be(id, 2)) == id
  {
    assert Be(id, 2)[..2] == Be(id, 2);
    PowValues();
    BeRoundTrip(id, 2);
  }

  lemma AuthCanonical(payload: bytes, m: Auth)
    ensures DecodeAuth(payload) == Ok(m) <==> ValidAuth(m) && payload == EncodeAuth(m)
  {
    hide DecodeTlvs, EncodeTlvs, Critical;
    if DecodeAuth(payload) == Ok(m) {
      var ts := DecodeTlvs(payload).value;
      TlvsCanonical(payload, ts);
      assert Fits(ts[0]) && Fits(ts[1]) && Fits(ts[2]);
      assert Types(ts) == AUTH_TYPES;
      assert ts == AuthTlvs(m);
    }
    if ValidAuth(m) && payload == EncodeAuth(m) {
      var ts := AuthTlvs(m);
      TlvsCanonical(payload, ts);
      assert Types(ts) == AUTH_TYPES;
      NoneCritical(ts, AUTH_TYPES);
    }
  }

  /** The code points of each message's TLVs, and what each carries. */
  lemma MessageLayouts(ch: ClientHello, sh: ServerHello, a: Auth)
    ensures ClientHelloTlvs(ch) == [Tlv(0x01, ch.profiles), Tlv(0x03, U16List(ch.kems)), Tlv(0x05, U16List(ch.sigs)),
                                    Tlv(0x0C, U16List(ch.aeads)), Tlv(0x07, ch.share)]
    ensures ServerHelloTlvs(sh) == [Tlv(0x02, [sh.profile]), Tlv(0x04, Be(sh.kem, 2)), Tlv(0x06, Be(sh.sig, 2)),
                                    Tlv(0x0D, Be(sh.aead, 2)), Tlv(0x08, sh.ciphertext)]
    ensures AuthTlvs(a) == [Tlv(0x09, a.identity), Tlv(0x0A, a.certVerify), Tlv(0x0B, a.finished)]
  {}
}
