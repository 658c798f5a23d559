/**
 * Both halves of the handshake, each hashing the transcript at its cut points, and what an honest
 * run between them establishes.
 */
module Agreement {
  import opened Bytes
  import opened Frames
  import opened Tlvs
  import opened Handshake
  import opened Transcripts
  import opened KeySchedule

  const PROFILE_STANDARD: byte := 0x01
  const X25519MLKEM768: u16 := 0x11ec
  const ED25519: u16 := 0x0807
  const NO_AUTH: Auth := Auth([], [], [])

  // ---------- CertVerify and Finished ----------

  /** Signature scheme, then the signature over the role's signing input. */
  function SignCertVerify(c: Crypto, sk: bytes, role: Role, th: bytes): bytes {
    Be(ED25519, 2) + c.sign(sk, SigningInput(role, th))
  }

  predicate VerifyCertVerify(c: Crypto, pub: bytes, role: Role, th: bytes, value: bytes) {
    && |pub| == 32 && |value| == 66 && Tlvs.Type(value) == ED25519
    && c.verify(pub, SigningInput(role, th), value[2..])
  }

  function ComputeFinished(c: Crypto, secret: bytes, th: bytes): bytes { c.hmac(FinishedKey(c, secret), th) }

  predicate VerifyFinished(c: Crypto, secret: bytes, th: bytes, data: bytes) { ComputeFinished(c, secret, th) == data }

  // ---------- the server half ----------

  datatype ServerSide = ServerSide(ch: ClientHello, sh: ServerHello, hs: bytes, cHS: bytes, sHS: bytes, auth: Auth)

  function ServerFlight(c: Crypto, sk: bytes, ch: ClientHello, ct: bytes, ss: bytes): ServerSide {
    var sh := ServerHello(PROFILE_STANDARD, X25519MLKEM768, ED25519, AES256GCM, ct);
    var hs := HandshakeSecret(c, ss);
    var thKem := c.hash(Through(Kem, Flights(ch, sh, NO_AUTH, NO_AUTH)));
    var sHS := ServerHandshakeSecret(c, hs, thKem);
    var pub := c.publicKey(sk);
    var cv := SignCertVerify(c, sk, Server, c.hash(Through(ServerId, Flights(ch, sh, Auth(pub, [], []), NO_AUTH))));
    var fin := ComputeFinished(c, sHS, c.hash(Through(ServerCv, Flights(ch, sh, Auth(pub, cv, []), NO_AUTH))));
    ServerSide(ch, sh, hs, ClientHandshakeSecret(c, hs, thKem), sHS, Auth(pub, cv, fin))
  }

  /** From a received CLIENT_HELLO payload; `coins` is the encapsulation's randomness. */
  function ServerStart(c: Crypto, coins: bytes, sk: bytes, payload: bytes): Option<ServerSide> {
    match DecodeClientHello(payload)
    case Err(_) => None
    case Ok(ch) =>
      match c.encapsulate(ch.share, coins)
      case None => None
      case Some((ct, ss)) => Some(ServerFlight(c, sk, ch, ct, ss))
  }

  /** The master secret, once the client's AUTH frame has been opened and decoded. */
  function ServerMaster(c: Crypto, s: ServerSide, f: Frame): Option<bytes>
    requires ExpandLengths(c)
  {
    IvLength(c, s.cHS, ClientToServer, 0, f.channel);
    match OpenFrameWire(c, f, s.cHS, ClientToServer, 0)
    case None => None
    case Some(pt) =>
      match DecodeAuth(pt)
      case Err(_) => None
      case Ok(auth) => Some(MasterSecret(c, s.hs, c.hash(Through(ClientCv, Flights(s.ch, s.sh, s.auth, auth)))))
  }

  // ---------- the client half ----------

  datatype ClientSide = ClientSide(sh: ServerHello, hs: bytes, cHS: bytes, sHS: bytes, serverAuth: Auth, auth: Auth, master: bytes)

  function ClientStart(c: Crypto, kemSk: bytes): ClientHello {
    ClientHello([PROFILE_STANDARD], [X25519MLKEM768], [ED25519], [AES256GCM], c.kemShare(kemSk))
  }

  function ClientFlight(c: Crypto, sk: bytes, ch: ClientHello, sh: ServerHello, hs: bytes, serverAuth: Auth): ClientSide {
    var thKem := c.hash(Through(Kem, Flights(ch, sh, NO_AUTH, NO_AUTH)));
    var cHS := ClientHandshakeSecret(c, hs, thKem);
    var pub := c.publicKey(sk);
    var cv := SignCertVerify(c, sk, Client, c.hash(Through(ClientId, Flights(ch, sh, serverAuth, Auth(pub, [], [])))));
    var thCcv := c.hash(Through(ClientCv, Flights(ch, sh, serverAuth, Auth(pub, cv, []))));
    ClientSide(sh, hs, cHS, ServerHandshakeSecret(c, hs, thKem), serverAuth,
               Auth(pub, cv, ComputeFinished(c, cHS, thCcv)), MasterSecret(c, hs, thCcv))
  }

  function ClientFinish(c: Crypto, kemSk: bytes, sk: bytes, ch: ClientHello, shPayload: bytes, saFrame: Frame): Option<ClientSide>
    requires ExpandLengths(c)
  {
    match DecodeServerHello(shPayload)
    case Err(_) => None
    case Ok(sh) =>
      match c.decapsulate(kemSk, sh.ciphertext)
      case None => None
      case Some(ss) =>
        var hs := HandshakeSecret(c, ss);
        var sHS := ServerHandshakeSecret(c, hs, c.hash(Through(Kem, Flights(ch, sh, NO_AUTH, NO_AUTH))));
        IvLength(c, sHS, ServerToClient, 0, saFrame.channel);
        match OpenFrameWire(c, saFrame, sHS, ServerToClient, 0)
        case None => None
        case Some(pt) =>
          match DecodeAuth(pt)
          case Err(_) => None
          case Ok(serverAuth) => Some(ClientFlight(c, sk, ch, sh, hs, serverAuth))
  }

  function OpenedAuth(c: Crypto, s: ServerSide, f: Frame): Option<Auth>
    requires ExpandLengths(c)
  {
    IvLength(c, s.cHS, ClientToServer, 0, f.channel);
    match OpenFrameWire(c, f, s.cHS, ClientToServer, 0)
    case None => None
    case Some(pt) => match DecodeAuth(pt) case Ok(a) => Some(a) case Err(_) => None
  }

  // ---------- the secrets, spelled out ----------

  /** HMAC under thirty-two zero octets of the exchanged secret, then one expansion over the view it fixes. */
  ghost predicate RootedIn(c: Crypto, ss: bytes, f: Flights, hs: bytes, master: bytes) {
    forall z :: ThirtyTwoZeros(z) ==>
      && hs == c.hmac(z, ss)
      && master == c.expand(c.hmac(z, ss), Info(ForMaster(c.hash(Through(ClientCv, f)))), 32)
  }

  /** The server's master secret comes from the secret it encapsulated and from its view of the handshake. */
  ghost predicate ServerRooted(c: Crypto, coins: bytes, sk: bytes, payload: bytes, f: Frame, master: bytes)
    requires ExpandLengths(c)
  {
    && DecodeClientHello(payload).Ok?
    && var ch := DecodeClientHello(payload).value;
    && c.encapsulate(ch.share, coins).Some?
    && var (ct, ss) := c.encapsulate(ch.share, coins).value;
    && var s := ServerFlight(c, sk, ch, ct, ss);
    && s.ch == ch && s.sh == ServerHello(0x01, 0x11ec, 0x0807, 0x0001, ct)
    && OpenedAuth(c, s, f).Some?
    && RootedIn(c, ss, Flights(ch, s.sh, s.auth, OpenedAuth(c, s, f).value), s.hs, master)
  }

  /** The client's master secret comes from the secret it decapsulated and from its view of the handshake. */
  ghost predicate ClientRooted(c: Crypto, kemSk: bytes, ch: ClientHello, shPayload: bytes, cl: ClientSide) {
    && DecodeServerHello(shPayload) == Ok(cl.sh)
    && c.decapsulate(kemSk, cl.sh.ciphertext).Some?
    && RootedIn(c, c.decapsulate(kemSk, cl.sh.ciphertext).value, Flights(ch, cl.sh, cl.serverAuth, cl.auth), cl.hs, cl.master)
  }

  lemma ServerMasterRooted(c: Crypto, coins: bytes, sk: bytes, payload: bytes, f: Frame)
    requires ExpandLengths(c)
    ensures ServerStart(c, coins, sk, payload).Some? ==>
              var master := ServerMaster(c, ServerStart(c, coins, sk, payload).value, f);
              ExtractIsHmac(c) && master.Some? ==> ServerRooted(c, coins, sk, payload, f, master.value)
  {
    hide Through, ExpandLengths, ExtractIsHmac, ThirtyTwoZeros, OpenFrameWire, DecodeAuth, DecodeClientHello, SignCertVerify,
         ComputeFinished, HandshakeSecret, ClientHandshakeSecret, ServerHandshakeSecret, MasterSecret, TrafficIv, Info;
    if ServerStart(c, coins, sk, payload).Some? {
      var s := ServerStart(c, coins, sk, payload).value;
      if OpenedAuth(c, s, f).Some? {
        LadderInputs(c, s.hs, c.hash(Through(ClientCv, Flights(s.ch, s.sh, s.auth, OpenedAuth(c, s, f).value))), ClientToServer, 0, 0);
      }
    }
  }

  lemma ClientMasterRooted(c: Crypto, kemSk: bytes, sk: bytes, ch: ClientHello, shPayload: bytes, saFrame: Frame)
    requires ExpandLengths(c)
    ensures var r := ClientFinish(c, kemSk, sk, ch, shPayload, saFrame);
            ExtractIsHmac(c) && r.Some? ==> ClientRooted(c, kemSk, ch, shPayload, r.value)
  {
    hide Through, ExpandLengths, ExtractIsHmac, ThirtyTwoZeros, OpenFrameWire, DecodeAuth, DecodeServerHello, SignCertVerify,
         ComputeFinished, HandshakeSecret, ClientHandshakeSecret, ServerHandshakeSecret, MasterSecret, TrafficIv, Info;
    if ClientFinish(c, kemSk, sk, ch, shPayload, saFrame).Some? {
      var cl := ClientFinish(c, kemSk, sk, ch, shPayload, saFrame).value;
      var f := Flights(ch, cl.sh, cl.serverAuth, cl.auth);
      MasterIgnoresFinished(ch, cl.sh, cl.serverAuth, cl.auth);
      LadderInputs(c, cl.hs, c.hash(Through(ClientCv, f)), ClientToServer, 0, 0);
    }
  }

  // ---------- the transcripts as they are built ----------

  lemma ThroughSteps(f: Flights)
    ensures Through(Kem, f) == Absorbed(FrameChunks(CLIENT_HELLO, ClientHelloTlvs(f.ch)))
                             + Absorbed(FrameChunks(SERVER_HELLO, ServerHelloTlvs(f.sh)))
    ensures Through(ServerId, f) == Through(Kem, f) + Absorbed([FrameType(SERVER_AUTH)])
                                  + Absorbed([OneTlv(Tlv(IDENTITY_KEY, f.serverAuth.identity))])
    ensures Through(ServerCv, f) == Through(ServerId, f) + Absorbed([OneTlv(Tlv(CERT_VERIFY, f.serverAuth.certVerify))])
    ensures Through(ClientId, f) == Through(ServerCv, f) + Absorbed([OneTlv(Tlv(FINISHED, f.serverAuth.finished))])
                                  + Absorbed([FrameType(CLIENT_AUTH)])
                                  + Absorbed([OneTlv(Tlv(IDENTITY_KEY, f.clientAuth.identity))])
    ensures Through(ClientCv, f) == Through(ClientId, f) + Absorbed([OneTlv(Tlv(CERT_VERIFY, f.clientAuth.certVerify))])
  {
    hide Absorbed, AllChunks, FrameChunks, ClientHelloTlvs, ServerHelloTlvs;
    var cs := AllChunks(f);
    ChunksAt(f);
    AuthChunksAt(f);
    TypeChunksAt(f);
    assert cs[..12] == cs[..6] + cs[6..12];
    AbsorbedConcat(cs[..6], cs[6..12]);
    OneMore(cs, 12);
    OneMore(cs, 13);
    OneMore(cs, 14);
    OneMore(cs, 15);
    OneMore(cs, 16);
    OneMore(cs, 17);
    OneMore(cs, 18);
  }

  lemma TypeChunksAt(f: Flights)
    ensures AllChunks(f)[0] == FrameType(0x0100) && AllChunks(f)[6] == FrameType(0x0101)
    ensures AllChunks(f)[12] == FrameType(0x0102) && AllChunks(f)[16] == FrameType(0x0103)
  {}

  lemma OneMore(cs: seq<Chunk>, i: nat)
    requires i < |cs|
    ensures Absorbed(cs[..i + 1]) == Absorbed(cs[..i]) + Absorbed([cs[i]])
  {
    hide Absorbed;
    assert cs[..i + 1] == cs[..i] + [cs[i]];
    AbsorbedConcat(cs[..i], [cs[i]]);
  }

  lemma ThroughIgnoresLater(c: Cut, f: Flights, g: Flights)
    requires SameThrough(c, f, g)
    ensures Through(c, f) == Through(c, g)
  {
    hide AllChunks;
    SameMessagesSameChunks(c, f, g);
  }

  /** A transcript object that has absorbed both hellos. */
  method TranscriptThroughHellos(ch: ClientHello, sh: ServerHello) returns (tr: Transcript)
    ensures fresh(tr)
    ensures forall s, t :: tr.buf == Through(Kem, Flights(ch, sh, s, t))
  {
    hide Absorbed, AllChunks, Through, ClientHelloTlvs, ServerHelloTlvs, FrameChunks;
    tr := new Transcript();
    tr.AddFrame(CLIENT_HELLO, ClientHelloTlvs(ch));
    tr.AddFrame(SERVER_HELLO, ServerHelloTlvs(sh));
    var hello := Absorbed(FrameChunks(CLIENT_HELLO, ClientHelloTlvs(ch)));
    assert [] + hello == hello;
    forall s, t ensures tr.buf == Through(Kem, Flights(ch, sh, s, t)) { ThroughSteps(Flights(ch, sh, s, t)); }
  }

  /** The server's transcript object through its own AUTH flight, with the two values it signs and MACs. */
  method TranscriptThroughServerAuth(c: Crypto, sk: bytes, ch: ClientHello, sh: ServerHello, sHS: bytes)
    returns (tr: Transcript, auth: Auth)
    ensures fresh(tr)
    ensures var pub := c.publicKey(sk);
            && auth.identity == pub
            && auth.certVerify == SignCertVerify(c, sk, Server, c.hash(Through(ServerId, Flights(ch, sh, Auth(pub, [], []), NO_AUTH))))
            && auth.finished == ComputeFinished(c, sHS, c.hash(Through(ServerCv, Flights(ch, sh, Auth(pub, auth.certVerify, []), NO_AUTH))))
    ensures tr.buf == Through(ServerCv, Flights(ch, sh, auth, NO_AUTH)) + Absorbed([OneTlv(Tlv(FINISHED, auth.finished))])
  {
    hide Absorbed, AllChunks, Through, SignCertVerify, ComputeFinished;
    tr := TranscriptThroughHellos(ch, sh);
    tr.AddFrameType(SERVER_AUTH);
    var pub := c.publicKey(sk);
    tr.AddTlv(Tlv(IDENTITY_KEY, pub));
    ThroughSteps(Flights(ch, sh, Auth(pub, [], []), NO_AUTH));
    var thId := tr.Sum(c.hash);
    var cv := SignCertVerify(c, sk, Server, thId);
    tr.AddTlv(Tlv(CERT_VERIFY, cv));
    ThroughSteps(Flights(ch, sh, Auth(pub, cv, []), NO_AUTH));
    ThroughIgnoresLater(ServerId, Flights(ch, sh, Auth(pub, [], []), NO_AUTH), Flights(ch, sh, Auth(pub, cv, []), NO_AUTH));
    var thCv := tr.Sum(c.hash);
    var fin := ComputeFinished(c, sHS, thCv);
    tr.AddTlv(Tlv(FINISHED, fin));
    auth := Auth(pub, cv, fin);
    ThroughIgnoresLater(ServerCv, Flights(ch, sh, Auth(pub, cv, []), NO_AUTH), Flights(ch, sh, auth, NO_AUTH));
  }

  /** The server's master secret, continuing its transcript with the client's identity and CertVerify. */
  method EstablishServer(c: Crypto, sk: bytes, coins: bytes, payload: bytes, f: Frame) returns (master: Option<bytes>)
    requires ExpandLengths(c)
    ensures ServerStart(c, coins, sk, payload).None? ==> master == None
    ensures ServerStart(c, coins, sk, payload).Some? ==>
              master == ServerMaster(c, ServerStart(c, coins, sk, payload).value, f)
    ensures ExtractIsHmac(c) && master.Some? ==> ServerRooted(c, coins, sk, payload, f, master.value)
  {
    hide Absorbed, AllChunks, Through, ExpandLengths, OpenFrameWire, DecodeAuth, DecodeClientHello, SignCertVerify,
      ComputeFinished, HandshakeSecret, ClientHandshakeSecret, ServerHandshakeSecret,
         MasterSecret, TrafficIv, ServerRooted, ExtractIsHmac, RootedIn;
    var hello := DecodeClientHello(payload);
    if hello.Err? { return None; }
    var ch := hello.value;
    var enc := c.encapsulate(ch.share, coins);
    if enc.None? { return None; }
    var (ct, ss) := enc.value;
    var sh := ServerHello(PROFILE_STANDARD, X25519MLKEM768, ED25519, AES256GCM, ct);
    var hs := HandshakeSecret(c, ss);
    var trSH := TranscriptThroughHellos(ch, sh);
    var thKem := trSH.Sum(c.hash);
    var cHS, sHS := ClientHandshakeSecret(c, hs, thKem), ServerHandshakeSecret(c, hs, thKem);
    IvLength(c, cHS, ClientToServer, 0, f.channel);
    var pt := OpenFrameWire(c, f, cHS, ClientToServer, 0);
    if pt.None? { return None; }
    var cAuth := DecodeAuth(pt.value);
    if cAuth.Err? { return None; }
    var tr, auth := TranscriptThroughServerAuth(c, sk, ch, sh, sHS);
    tr.AddFrameType(CLIENT_AUTH);
    tr.AddTlv(Tlv(IDENTITY_KEY, cAuth.value.identity));
    tr.AddTlv(Tlv(CERT_VERIFY, cAuth.value.certVerify));
    var thCcv := tr.Sum(c.hash);
    ThroughSteps(Flights(ch, sh, auth, cAuth.value));
    ThroughIgnoresLater(ServerCv, Flights(ch, sh, auth, NO_AUTH), Flights(ch, sh, auth, cAuth.value));
    assert ServerFlight(c, sk, ch, ct, ss).auth == auth;
    ServerMasterRooted(c, coins, sk, payload, f);
    return Some(MasterSecret(c, hs, thCcv));
  }

  /** The client's secrets and AUTH message, from the server's two frames. */
  method EstablishClient(c: Crypto, kemSk: bytes, sk: bytes, ch: ClientHello, shPayload: bytes, saFrame: Frame)
    returns (r: Option<ClientSide>)
    requires ExpandLengths(c)
    ensures r == ClientFinish(c, kemSk, sk, ch, shPayload, saFrame)
    ensures ExtractIsHmac(c) && r.Some? ==> ClientRooted(c, kemSk, ch, shPayload, r.value)
  {
    hide Absorbed, AllChunks, Through, ExpandLengths, OpenFrameWire, DecodeAuth, DecodeServerHello, SignCertVerify,
      ComputeFinished, HandshakeSecret, ClientHandshakeSecret, ServerHandshakeSecret,
         MasterSecret, TrafficIv, ClientRooted, ExtractIsHmac;
    var hello := DecodeServerHello(shPayload);
    if hello.Err? { return None; }
    var sh := hello.value;
    var ss := c.decapsulate(kemSk, sh.ciphertext);
    if ss.None? { return None; }
    var hs := HandshakeSecret(c, ss.value);
    var tr := TranscriptThroughHellos(ch, sh);
    var thKem := tr.Sum(c.hash);
    var cHS, sHS := ClientHandshakeSecret(c, hs, thKem), ServerHandshakeSecret(c, hs, thKem);
    IvLength(c, sHS, ServerToClient, 0, saFrame.channel);
    var pt := OpenFrameWire(c, saFrame, sHS, ServerToClient, 0);
    if pt.None? { return None; }
    var sAuth := DecodeAuth(pt.value);
    if sAuth.Err? { return None; }
    var server := sAuth.value;
    tr.AddFrameType(SERVER_AUTH);
    tr.AddTlv(Tlv(IDENTITY_KEY, server.identity));
    tr.AddTlv(Tlv(CERT_VERIFY, server.certVerify));
    tr.AddTlv(Tlv(FINISHED, server.finished));
    tr.AddFrameType(CLIENT_AUTH);
    var pub := c.publicKey(sk);
    tr.AddTlv(Tlv(IDENTITY_KEY, pub));
    ThroughSteps(Flights(ch, sh, server, Auth(pub, [], [])));
    var thId := tr.Sum(c.hash);
    var cv := SignCertVerify(c, sk, Client, thId);
    tr.AddTlv(Tlv(CERT_VERIFY, cv));
    ThroughSteps(Flights(ch, sh, server, Auth(pub, cv, [])));
    var thCcv := tr.Sum(c.hash);
    var fin := ComputeFinished(c, cHS, thCcv);
    ClientMasterRooted(c, kemSk, sk, ch, shPayload, saFrame);
    return Some(ClientSide(sh, hs, cHS, sHS, server, Auth(pub, cv, fin), MasterSecret(c, hs, thCcv)));
  }

  // ---------- an honest run ----------

  /** What an honest run asks of the primitives: correctness and output lengths, nothing about secrecy. */
  ghost predicate PrimitivesCorrect(c: Crypto) {
    && ExpandLengths(c) && AeadCorrect(c)
    && (forall k, m :: |c.hmac(k, m)| == HASH_LEN)
    && (forall sk :: |c.publicKey(sk)| == 32)
    && (forall sk, m :: |c.sign(sk, m)| == 64 && c.verify(c.publicKey(sk), m, c.sign(sk, m)))
    && (forall k :: |c.kemShare(k)| == 1216)
    && (forall k, r :: KemRoundTrip(c, k, r))
  }

  ghost predicate KemRoundTrip(c: Crypto, k: bytes, coins: bytes) {
    var e := c.encapsulate(c.kemShare(k), coins);
    e.Some? && |e.value.0| == 1120 && c.decapsulate(k, e.value.0) == Some(e.value.1)
  }

  function Cleartext(ft: u16, payload: bytes): Frame { Frame(0, 0, ft, CHAN_CONTROL, 0, payload) }

  lemma CleartextArrives(ft: u16, payload: bytes)
    requires |payload| < 0x1_0000_0000
    ensures Unmarshal(GoParser, Marshal(Cleartext(ft, payload))) == Ok(Frame(2, 0, ft, CHAN_CONTROL, 0, payload))
  {
    hide Marshal, Unmarshal;
    MarshalRoundTrip(GoParser, Cleartext(ft, payload));
  }

  lemma SmallClientHello(ch: ClientHello)
    requires ValidClientHello(ch)
    ensures |EncodeClientHello(ch)| < 0x10_0000
  {
    hide U16List, EncodeTlvs;
    TlvsBound(ClientHelloTlvs(ch));
  }

  lemma SmallServerHello(sh: ServerHello)
    requires ValidServerHello(sh)
    ensures |EncodeServerHello(sh)| < 0x10_0000
  {
    hide Be, EncodeTlvs;
    TlvsBound(ServerHelloTlvs(sh));
  }

  lemma SmallAuth(a: Auth)
    requires ValidAuth(a)
    ensures |EncodeAuth(a)| < 0x10_0000
  {
    hide EncodeTlvs;
    TlvsBound(AuthTlvs(a));
  }

  lemma {:induction false} TlvsBound(ts: seq<Tlv>)
    requires AllFit(ts)
    ensures |EncodeTlvs(ts)| <= 0x1_0003 * |ts|
    decreases |ts|
  {
    if ts != [] {
      assert Fits(ts[0]);
      TlvsBound(ts[1..]);
    }
  }

  /** The server's flight on the wire reaches the client as it was made. */
  lemma SealedAuthArrives(c: Crypto, base: bytes, dir: Direction, ft: u16, a: Auth)
    requires ExpandLengths(c) && AeadCorrect(c) && ValidAuth(a) && |EncodeAuth(a)| < 0x10_0000
    ensures |TrafficIv(c, base, dir, 0, CHAN_CONTROL)| == 12
    ensures var w := Unmarshal(GoParser, SealFrameWire(c, base, dir, 0, CHAN_CONTROL, 0, ft, EncodeAuth(a)));
            && w.Ok? && w.value.ftype == ft && w.value.channel == CHAN_CONTROL
            && OpenFrameWire(c, w.value, base, dir, 0) == Some(EncodeAuth(a))
            && DecodeAuth(EncodeAuth(a)) == Ok(a)
  {
    hide TrafficIv, SealFrameWire, OpenFrameWire, EncodeAuth, DecodeAuth, Unmarshal, SealedPayload, ExpandLengths, AeadCorrect, ValidAuth;
    IvLength(c, base, dir, 0, CHAN_CONTROL);
    SealOpenRoundTrip(c, base, dir, 0, CHAN_CONTROL, 0, ft, EncodeAuth(a));
    AuthCanonical(EncodeAuth(a), a);
  }

  lemma OwnCertVerifyVerifies(c: Crypto, sk: bytes, role: Role, th: bytes)
    requires |c.publicKey(sk)| == 32 && |c.sign(sk, SigningInput(role, th))| == 64
    requires c.verify(c.publicKey(sk), SigningInput(role, th), c.sign(sk, SigningInput(role, th)))
    ensures |SignCertVerify(c, sk, role, th)| == 66
    ensures VerifyCertVerify(c, c.publicKey(sk), role, th, SignCertVerify(c, sk, role, th))
  {
    hide SigningInput;
    var v := SignCertVerify(c, sk, role, th);
    assert v[2..] == c.sign(sk, SigningInput(role, th));
    assert v[..2] == Be(ED25519, 2);
    PowValues();
    BeRoundTrip(ED25519, 2);
  }

  datatype Outcome = Outcome(ch: ClientHello, client: ClientSide, server: ServerSide, serverMaster: bytes, clientAuthSeen: Auth)

  function Delivered(wire: bytes): Option<Frame> {
    match Unmarshal(GoParser, wire)
    case Ok(f) => Some(f)
    case Err(_) => None
  }

  function SealAuth(c: Crypto, base: bytes, dir: Direction, ft: u16, a: Auth): bytes
    requires ExpandLengths(c)
  {
    IvLength(c, base, dir, 0, CHAN_CONTROL);
    SealFrameWire(c, base, dir, 0, CHAN_CONTROL, 0, ft, EncodeAuth(a))
  }

  /** The four frames exchanged over a faithful wire; `None` as soon as either side refuses. */
  function Exchange(c: Crypto, kemSk: bytes, coins: bytes, serverSk: bytes, clientSk: bytes): Option<Outcome>
    requires ExpandLengths(c)
  {
    var ch := ClientStart(c, kemSk);
    match Delivered(Marshal(Cleartext(CLIENT_HELLO, EncodeClientHello(ch))))
    case None => None
    case Some(f1) =>
      match ServerStart(c, coins, serverSk, f1.payload)
      case None => None
      case Some(s) =>
        match (Delivered(Marshal(Cleartext(SERVER_HELLO, EncodeServerHello(s.sh)))),
               Delivered(SealAuth(c, s.sHS, ServerToClient, SERVER_AUTH, s.auth)))
        case (Some(f2), Some(f3)) => ClientReplies(c, kemSk, clientSk, ch, s, f2, f3)
        case _ => None
  }

  function ClientReplies(c: Crypto, kemSk: bytes, clientSk: bytes, ch: ClientHello, s: ServerSide, f2: Frame, f3: Frame): Option<Outcome>
    requires ExpandLengths(c)
  {
    match ClientFinish(c, kemSk, clientSk, ch, f2.payload, f3)
    case None => None
    case Some(cl) =>
      match Delivered(SealAuth(c, cl.cHS, ClientToServer, CLIENT_AUTH, cl.auth))
      case None => None
      case Some(f4) =>
        match (ServerMaster(c, s, f4), OpenedAuth(c, s, f4))
        case (Some(master), Some(seen)) => Some(Outcome(ch, cl, s, master, seen))
        case _ => None
  }

  /** Each side's view of the finished handshake. */
  function ClientView(o: Outcome): Flights { Flights(o.ch, o.client.sh, o.client.serverAuth, o.client.auth) }
  function ServerView(o: Outcome): Flights { Flights(o.server.ch, o.server.sh, o.server.auth, o.clientAuthSeen) }

  ghost predicate ClientAccepts(c: Crypto, o: Outcome) {
    && VerifyCertVerify(c, o.client.serverAuth.identity, Server, c.hash(Through(ServerId, ClientView(o))), o.client.serverAuth.certVerify)
    && VerifyFinished(c, o.client.sHS, c.hash(Through(ServerCv, ClientView(o))), o.client.serverAuth.finished)
  }

  ghost predicate ServerAccepts(c: Crypto, o: Outcome) {
    && VerifyCertVerify(c, o.clientAuthSeen.identity, Client, c.hash(Through(ClientId, ServerView(o))), o.clientAuthSeen.certVerify)
    && VerifyFinished(c, o.server.cHS, c.hash(Through(ClientCv, ServerView(o))), o.clientAuthSeen.finished)
  }

  /** Every secret and every authenticator of a finished handshake, from the exchanged secret and the view alone. */
  ghost predicate SpelledOut(c: Crypto, ss: bytes, f: Flights, hs: bytes, cHS: bytes, sHS: bytes, master: bytes) {
    && RootedIn(c, ss, f, hs, master)
    && cHS == c.expand(hs, Info(ForClientHandshake(c.hash(Through(Kem, f)))), 32)
    && sHS == c.expand(hs, Info(ForServerHandshake(c.hash(Through(Kem, f)))), 32)
    && f.serverAuth.finished == c.hmac(c.expand(sHS, Info(ForFinished), 32), c.hash(Through(ServerCv, f)))
    && f.clientAuth.finished == c.hmac(c.expand(cHS, Info(ForFinished), 32), c.hash(Through(ClientCv, f)))
  }

  /** The identities and signatures both sides see: scheme 0x0807, then a signature over the signing input of the cut point. */
  ghost predicate Signed(c: Crypto, serverSk: bytes, clientSk: bytes, f: Flights) {
    && f.serverAuth.identity == c.publicKey(serverSk) && f.clientAuth.identity == c.publicKey(clientSk)
    && f.serverAuth.certVerify == [0x08, 0x07] + c.sign(serverSk, SigningInput(Server, c.hash(Through(ServerId, f))))
    && f.clientAuth.certVerify == [0x08, 0x07] + c.sign(clientSk, SigningInput(Client, c.hash(Through(ClientId, f))))
  }

  lemma HonestSignatures(c: Crypto, serverSk: bytes, clientSk: bytes, ch: ClientHello, ct: bytes, ss: bytes)
    ensures var s := ServerFlight(c, serverSk, ch, ct, ss);
            var cl := ClientFlight(c, clientSk, ch, s.sh, s.hs, s.auth);
            Signed(c, serverSk, clientSk, Flights(ch, s.sh, s.auth, cl.auth))
  {
    hide Through, SigningInput, HandshakeSecret, ClientHandshakeSecret, ServerHandshakeSecret, MasterSecret, ComputeFinished;
    var s := ServerFlight(c, serverSk, ch, ct, ss);
    var cl := ClientFlight(c, clientSk, ch, s.sh, s.hs, s.auth);
    MasterIgnoresFinished(ch, s.sh, s.auth, cl.auth);
    assert Be(ED25519, 2) == [0x08, 0x07] by { assert Be(0x08, 1) == [0x08]; }
  }

  lemma HonestSecrets(c: Crypto, serverSk: bytes, clientSk: bytes, ch: ClientHello, ct: bytes, ss: bytes)
    requires ExtractIsHmac(c)
    ensures var s := ServerFlight(c, serverSk, ch, ct, ss);
            var cl := ClientFlight(c, clientSk, ch, s.sh, s.hs, s.auth);
            SpelledOut(c, ss, Flights(ch, s.sh, s.auth, cl.auth), s.hs, cl.cHS, cl.sHS, cl.master)
  {
    hide Through, ExtractIsHmac, ThirtyTwoZeros, SignCertVerify, HandshakeSecret, ClientHandshakeSecret, ServerHandshakeSecret,
         MasterSecret, FinishedKey, Info;
    var s := ServerFlight(c, serverSk, ch, ct, ss);
    var cl := ClientFlight(c, clientSk, ch, s.sh, s.hs, s.auth);
    var f := Flights(ch, s.sh, s.auth, cl.auth);
    MasterIgnoresFinished(ch, s.sh, s.auth, cl.auth);
    LadderInputs(c, s.hs, c.hash(Through(Kem, f)), ClientToServer, 0, 0);
    LadderInputs(c, s.hs, c.hash(Through(ClientCv, f)), ClientToServer, 0, 0);
    LadderInputs(c, s.sHS, [], ClientToServer, 0, 0);
    LadderInputs(c, cl.cHS, [], ClientToServer, 0, 0);
  }

  // ---------- the phases of the exchange ----------

  lemma HelloPhase(c: Crypto, kemSk: bytes, coins: bytes, serverSk: bytes)
    requires PrimitivesCorrect(c)
    ensures c.encapsulate(c.kemShare(kemSk), coins).Some?
    ensures var ch := ClientStart(c, kemSk);
            var (ct, ss) := c.encapsulate(c.kemShare(kemSk), coins).value;
            var f := Frame(2, 0, CLIENT_HELLO, CHAN_CONTROL, 0, EncodeClientHello(ch));
            && |ct| == 1120 && c.decapsulate(kemSk, ct) == Some(ss)
            && Delivered(Marshal(Cleartext(CLIENT_HELLO, EncodeClientHello(ch)))) == Some(f)
            && ServerStart(c, coins, serverSk, f.payload) == Some(ServerFlight(c, serverSk, ch, ct, ss))
  {
    hide Unmarshal, Marshal, EncodeClientHello, DecodeClientHello, ServerFlight, ExpandLengths, AeadCorrect;
    var ch := ClientStart(c, kemSk);
    assert KemRoundTrip(c, kemSk, coins);
    SmallClientHello(ch);
    CleartextArrives(CLIENT_HELLO, EncodeClientHello(ch));
    ClientHelloCanonical(EncodeClientHello(ch), ch);
  }

  lemma AuthsValid(c: Crypto, sk: bytes, role: Role, th: bytes, key: bytes, th': bytes)
    requires PrimitivesCorrect(c)
    ensures var a := Auth(c.publicKey(sk), SignCertVerify(c, sk, role, th), c.hmac(key, th'));
            && ValidAuth(a) && |EncodeAuth(a)| < 0x10_0000
            && VerifyCertVerify(c, a.identity, role, th, a.certVerify)
  {
    hide EncodeAuth, SigningInput, VerifyCertVerify, SignCertVerify, ExpandLengths, AeadCorrect, KemRoundTrip;
    OwnCertVerifyVerifies(c, sk, role, th);
    SmallAuth(Auth(c.publicKey(sk), SignCertVerify(c, sk, role, th), c.hmac(key, th')));
  }

  lemma ServerHelloArrives(sh: ServerHello)
    requires ValidServerHello(sh)
    ensures Delivered(Marshal(Cleartext(SERVER_HELLO, EncodeServerHello(sh))))
         == Some(Frame(2, 0, SERVER_HELLO, CHAN_CONTROL, 0, EncodeServerHello(sh)))
    ensures DecodeServerHello(EncodeServerHello(sh)) == Ok(sh)
  {
    hide Unmarshal, Marshal, EncodeServerHello, DecodeServerHello;
    SmallServerHello(sh);
    CleartextArrives(SERVER_HELLO, EncodeServerHello(sh));
    ServerHelloCanonical(EncodeServerHello(sh), sh);
  }

  lemma AuthArrives(c: Crypto, base: bytes, dir: Direction, ft: u16, a: Auth)
    requires ExpandLengths(c) && AeadCorrect(c) && ValidAuth(a) && |EncodeAuth(a)| < 0x10_0000
    ensures var d := Delivered(SealAuth(c, base, dir, ft, a));
            && d.Some? && d.value.channel == CHAN_CONTROL && |TrafficIv(c, base, dir, 0, d.value.channel)| == 12
            && OpenFrameWire(c, d.value, base, dir, 0) == Some(EncodeAuth(a))
            && DecodeAuth(EncodeAuth(a)) == Ok(a)
  {
    hide Unmarshal, TrafficIv, SealFrameWire, OpenFrameWire, EncodeAuth, DecodeAuth, ExpandLengths, AeadCorrect, ValidAuth;
    SealedAuthArrives(c, base, dir, ft, a);
  }

  /** The client ends with exactly what its half computes from the server's own messages. */
  lemma ClientPhase(c: Crypto, kemSk: bytes, clientSk: bytes, ch: ClientHello, s: ServerSide, ss: bytes, f2: Frame, f3: Frame)
    requires PrimitivesCorrect(c)
    requires f2.payload == EncodeServerHello(s.sh) && DecodeServerHello(f2.payload) == Ok(s.sh)
    requires c.decapsulate(kemSk, s.sh.ciphertext) == Some(ss) && s.hs == HandshakeSecret(c, ss)
    requires s.sHS == ServerHandshakeSecret(c, s.hs, c.hash(Through(Kem, Flights(ch, s.sh, NO_AUTH, NO_AUTH))))
    requires |TrafficIv(c, s.sHS, ServerToClient, 0, f3.channel)| == 12
    requires OpenFrameWire(c, f3, s.sHS, ServerToClient, 0) == Some(EncodeAuth(s.auth)) && DecodeAuth(EncodeAuth(s.auth)) == Ok(s.auth)
    ensures ClientFinish(c, kemSk, clientSk, ch, f2.payload, f3) == Some(ClientFlight(c, clientSk, ch, s.sh, s.hs, s.auth))
  {
    hide DecodeServerHello, EncodeServerHello, DecodeAuth, EncodeAuth, OpenFrameWire, TrafficIv, Through, ClientFlight,
         HandshakeSecret, ServerHandshakeSecret, AeadCorrect, KemRoundTrip;
  }

  /** The server derives the client's master secret and sees the client's own AUTH message. */
  lemma FinalPhase(c: Crypto, s: ServerSide, cl: ClientSide, f4: Frame)
    requires ExpandLengths(c) && cl.cHS == s.cHS && cl.hs == s.hs
    requires |TrafficIv(c, s.cHS, ClientToServer, 0, f4.channel)| == 12
    requires OpenFrameWire(c, f4, s.cHS, ClientToServer, 0) == Some(EncodeAuth(cl.auth)) && DecodeAuth(EncodeAuth(cl.auth)) == Ok(cl.auth)
    ensures OpenedAuth(c, s, f4) == Some(cl.auth)
    ensures ServerMaster(c, s, f4) == Some(MasterSecret(c, s.hs, c.hash(Through(ClientCv, Flights(s.ch, s.sh, s.auth, cl.auth)))))
  {
    hide DecodeAuth, EncodeAuth, OpenFrameWire, TrafficIv, Through, MasterSecret, ExpandLengths;
  }

  lemma MasterIgnoresFinished(ch: ClientHello, sh: ServerHello, sa: Auth, ca: Auth)
    ensures Through(ClientCv, Flights(ch, sh, sa, ca)) == Through(ClientCv, Flights(ch, sh, sa, Auth(ca.identity, ca.certVerify, [])))
    ensures Through(ClientId, Flights(ch, sh, sa, ca)) == Through(ClientId, Flights(ch, sh, sa, Auth(ca.identity, [], [])))
    ensures Through(ServerCv, Flights(ch, sh, sa, ca)) == Through(ServerCv, Flights(ch, sh, Auth(sa.identity, sa.certVerify, []), NO_AUTH))
    ensures Through(ServerId, Flights(ch, sh, sa, ca)) == Through(ServerId, Flights(ch, sh, Auth(sa.identity, [], []), NO_AUTH))
    ensures Through(Kem, Flights(ch, sh, sa, ca)) == Through(Kem, Flights(ch, sh, NO_AUTH, NO_AUTH))
  {
    hide Through;
    var f := Flights(ch, sh, sa, ca);
    ThroughIgnoresLater(Kem, f, Flights(ch, sh, NO_AUTH, NO_AUTH));
    ThroughIgnoresLater(ClientCv, f, Flights(ch, sh, sa, Auth(ca.identity, ca.certVerify, [])));
    ThroughIgnoresLater(ClientId, f, Flights(ch, sh, sa, Auth(ca.identity, [], [])));
    ThroughIgnoresLater(ServerCv, f, Flights(ch, sh, Auth(sa.identity, sa.certVerify, []), NO_AUTH));
    ThroughIgnoresLater(ServerId, f, Flights(ch, sh, Auth(sa.identity, [], []), NO_AUTH));
  }

  /**
   * Every honest run completes: both sides hold the same handshake secrets and the same master
   * secret, have the same view of all four flights, and each accepts the other's CertVerify and
   * Finished.  Where extraction is HMAC, every secret and both Finished values are spelled out from the
   * encapsulated secret and the view alone.
   */
  lemma HonestRunAgrees(c: Crypto, kemSk: bytes, coins: bytes, serverSk: bytes, clientSk: bytes)
    requires PrimitivesCorrect(c)
    ensures var e := Exchange(c, kemSk, coins, serverSk, clientSk);
            && e.Some?
            && e.value.client.cHS == e.value.server.cHS && e.value.client.sHS == e.value.server.sHS
            && e.value.client.master == e.value.serverMaster
            && ClientView(e.value) == ServerView(e.value)
            && ClientAccepts(c, e.value) && ServerAccepts(c, e.value)
            && Signed(c, serverSk, clientSk, ClientView(e.value))
            && e.value.client.hs == e.value.server.hs
            && e.value.ch == ClientHello([0x01], [0x11ec], [0x0807], [0x0001], c.kemShare(kemSk))
            && c.encapsulate(c.kemShare(kemSk), coins).Some?
            && var (ct, ss) := c.encapsulate(c.kemShare(kemSk), coins).value;
            && e.value.client.sh == ServerHello(0x01, 0x11ec, 0x0807, 0x0001, ct)
            && var o := e.value.client;
            (ExtractIsHmac(c) ==> SpelledOut(c, ss, ClientView(e.value), o.hs, o.cHS, o.sHS, o.master))
  {
    hide SpelledOut, ExtractIsHmac, Signed;
    hide Unmarshal, Marshal, EncodeClientHello, EncodeServerHello, EncodeAuth, DecodeAuth, DecodeServerHello, DecodeClientHello,
         SealAuth, OpenFrameWire, TrafficIv, Through, HandshakeSecret, ClientHandshakeSecret, ServerHandshakeSecret, MasterSecret,
         FinishedKey, SignCertVerify, VerifyCertVerify, ServerStart, ClientFinish, ServerMaster, OpenedAuth, Delivered,
         KemRoundTrip, AeadCorrect, ExpandLengths, ValidAuth, Cleartext;
    var ch := ClientStart(c, kemSk);
    HelloPhase(c, kemSk, coins, serverSk);
    var (ct, ss) := c.encapsulate(c.kemShare(kemSk), coins).value;
    var s := ServerFlight(c, serverSk, ch, ct, ss);
    AuthsValid(c, serverSk, Server, c.hash(Through(ServerId, Flights(ch, s.sh, Auth(s.auth.identity, [], []), NO_AUTH))),
               FinishedKey(c, s.sHS), c.hash(Through(ServerCv, Flights(ch, s.sh, Auth(s.auth.identity, s.auth.certVerify, []), NO_AUTH))));
    ServerHelloArrives(s.sh);
    AuthArrives(c, s.sHS, ServerToClient, SERVER_AUTH, s.auth);
    var f2 := Frame(2, 0, SERVER_HELLO, CHAN_CONTROL, 0, EncodeServerHello(s.sh));
    var f3 := Delivered(SealAuth(c, s.sHS, ServerToClient, SERVER_AUTH, s.auth)).value;
    ClientPhase(c, kemSk, clientSk, ch, s, ss, f2, f3);
    var cl := ClientFlight(c, clientSk, ch, s.sh, s.hs, s.auth);
    AuthsValid(c, clientSk, Client, c.hash(Through(ClientId, Flights(ch, s.sh, s.auth, Auth(cl.auth.identity, [], [])))),
               FinishedKey(c, cl.cHS), c.hash(Through(ClientCv, Flights(ch, s.sh, s.auth, Auth(cl.auth.identity, cl.auth.certVerify, [])))));
    AuthArrives(c, cl.cHS, ClientToServer, CLIENT_AUTH, cl.auth);
    var f4 := Delivered(SealAuth(c, cl.cHS, ClientToServer, CLIENT_AUTH, cl.auth)).value;
    FinalPhase(c, s, cl, f4);
    MasterIgnoresFinished(ch, s.sh, s.auth, cl.auth);
    assert Exchange(c, kemSk, coins, serverSk, clientSk) == ClientReplies(c, kemSk, clientSk, ch, s, f2, f3);
    assert Exchange(c, kemSk, coins, serverSk, clientSk) == Some(Outcome(ch, cl, s, cl.master, cl.auth));
    HonestSignatures(c, serverSk, clientSk, ch, ct, ss);
    if ExtractIsHmac(c) { HonestSecrets(c, serverSk, clientSk, ch, ct, ss); }
  }

  // ---------- equal master secrets, equal views ----------

  predicate HashCollision(c: Crypto, x: bytes, y: bytes) { x != y && c.hash(x) == c.hash(y) }

  predicate ExpandCollision(c: Crypto, s: bytes, x: bytes, t: bytes, y: bytes) {
    (s != t || x != y) && c.expand(s, x, HASH_LEN) == c.expand(t, y, HASH_LEN)
  }

  /**
   * A master secret fixes the handshake secret and every message through the client's CertVerify: two
   * handshakes that arrive at one master secret agree on both, or exhibit a collision.
   */
  lemma MasterBindsView(c: Crypto, hs: bytes, f: Flights, hs': bytes, g: Flights)
    requires FlightsFit(f) && FlightsFit(g)
    requires |c.hash(Through(ClientCv, f))| <= 255 && |c.hash(Through(ClientCv, g))| <= 255
    requires MasterSecret(c, hs, c.hash(Through(ClientCv, f))) == MasterSecret(c, hs', c.hash(Through(ClientCv, g)))
    ensures var x, y := Through(ClientCv, f), Through(ClientCv, g);
            || (hs == hs' && SameThrough(ClientCv, f, g))
            || HashCollision(c, x, y)
            || ExpandCollision(c, hs, Info(ForMaster(c.hash(x))), hs', Info(ForMaster(c.hash(y))))
  {
    hide Through, SameThrough, FlightsFit, Info, MasterSecret;
    var th, th' := c.hash(Through(ClientCv, f)), c.hash(Through(ClientCv, g));
    LadderInputs(c, hs, th, ClientToServer, 0, 0);
    LadderInputs(c, hs', th', ClientToServer, 0, 0);
    DerivationsSeparate(ForMaster(th), ForMaster(th'));
    TranscriptInjective(ClientCv, f, ClientCv, g);
  }

  /**
   * Whatever travels between them, a client half and a server half that end with one master secret
   * have the same handshake secret and the same view of everything through the client's CertVerify,
   * unless hash or expansion collide on their inputs.
   */
  lemma EqualMastersEqualViews(c: Crypto, kemSk: bytes, clientSk: bytes, ch: ClientHello, shPayload: bytes, saFrame: Frame,
                               coins: bytes, serverSk: bytes, chPayload: bytes, caFrame: Frame)
    requires ExpandLengths(c)
    requires ClientFinish(c, kemSk, clientSk, ch, shPayload, saFrame).Some? && ServerStart(c, coins, serverSk, chPayload).Some?
    requires var cl, s := ClientFinish(c, kemSk, clientSk, ch, shPayload, saFrame).value, ServerStart(c, coins, serverSk, chPayload).value;
             && ServerMaster(c, s, caFrame) == Some(cl.master)
             && var f, g := Flights(ch, cl.sh, cl.serverAuth, cl.auth), Flights(s.ch, s.sh, s.auth, OpenedAuth(c, s, caFrame).value);
             && FlightsFit(f) && FlightsFit(g)
             && |c.hash(Through(ClientCv, f))| <= 255 && |c.hash(Through(ClientCv, g))| <= 255
    ensures var cl, s := ClientFinish(c, kemSk, clientSk, ch, shPayload, saFrame).value, ServerStart(c, coins, serverSk, chPayload).value;
            var f, g := Flights(ch, cl.sh, cl.serverAuth, cl.auth), Flights(s.ch, s.sh, s.auth, OpenedAuth(c, s, caFrame).value);
            var x, y := Through(ClientCv, f), Through(ClientCv, g);
            || (cl.hs == s.hs && SameThrough(ClientCv, f, g))
            || HashCollision(c, x, y)
            || ExpandCollision(c, cl.hs, Info(ForMaster(c.hash(x))), s.hs, Info(ForMaster(c.hash(y))))
  {
    hide Through, SameThrough, FlightsFit, Info, MasterSecret, ExpandLengths, OpenFrameWire, TrafficIv, DecodeAuth, DecodeServerHello,
      HandshakeSecret, ClientHandshakeSecret, ServerHandshakeSecret, ComputeFinished, SignCertVerify, ServerStart;
    var cl, s := ClientFinish(c, kemSk, clientSk, ch, shPayload, saFrame).value, ServerStart(c, coins, serverSk, chPayload).value;
    MasterIgnoresFinished(ch, cl.sh, cl.serverAuth, cl.auth);
    MasterBindsView(c, cl.hs, Flights(ch, cl.sh, cl.serverAuth, cl.auth),
                    s.hs, Flights(s.ch, s.sh, s.auth, OpenedAuth(c, s, caFrame).value));
  }
}
