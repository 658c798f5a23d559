/**
 * The handshake transcript: per frame its two-octet type, then each TLV, hashed at five cut
 * points between TLVs; and the CertVerify signing input built on those hashes.
 */
module Transcripts {
  import opened Bytes
  import opened Tlvs
  import opened Handshake

  class Transcript {
    var buf: bytes

    constructor ()
      ensures buf == []
    {
      buf := [];
    }

    method AddFrameType(ft: u16)
      modifies this
      ensures buf == old(buf) + Absorbed([FrameType(ft)])
    {
      assert Absorbed([FrameType(ft)]) == Be(ft, 2) by { AbsorbedOne(FrameType(ft)); }
      buf := buf + Be(ft, 2);
    }

    method AddTlv(t: Tlv)
      modifies this
      ensures buf == old(buf) + Absorbed([OneTlv(t)])
    {
      assert Absorbed([OneTlv(t)]) == EncodeTlv(t) by { AbsorbedOne(OneTlv(t)); }
      buf := buf + EncodeTlv(t);
    }

    method AddFrame(ft: u16, ts: seq<Tlv>)
      modifies this
      ensures buf == old(buf) + Absorbed(FrameChunks(ft, ts))
    {
      hide EncodeChunk;
      AddFrameType(ft);
      ghost var start, cs := old(buf), FrameChunks(ft, ts);
      assert cs[..1] == [FrameType(ft)];
      for i := 0 to |ts|
        invariant buf == start + Absorbed(cs[..i + 1])
      {
        AddTlv(ts[i]);
        assert cs[..i + 2] == cs[..i + 1] + [OneTlv(ts[i])];
        AbsorbedConcat(cs[..i + 1], [OneTlv(ts[i])]);
      }
      assert cs[..|ts| + 1] == cs;
    }

    /** The hash of everything absorbed so far; the transcript goes on. */
    method Sum(hash: bytes -> bytes) returns (h: bytes)
      ensures h == hash(buf)
    {
      h := hash(buf);
    }
  }

  // ---------- what is absorbed ----------

  datatype Chunk = FrameType(ft: u16) | OneTlv(tlv: Tlv)

  function EncodeChunk(c: Chunk): bytes {
    match c
    case FrameType(ft) => Be(ft, 2)
    case OneTlv(t) => EncodeTlv(t)
  }

  function Absorbed(cs: seq<Chunk>): bytes {
    if cs == [] then [] else EncodeChunk(cs[0]) + Absorbed(cs[1..])
  }

  function FrameChunks(ft: u16, ts: seq<Tlv>): (cs: seq<Chunk>)
    ensures |cs| == 1 + |ts|
  {
    [FrameType(ft)] + seq(|ts|, i requires 0 <= i < |ts| => OneTlv(ts[i]))
  }

  /** A frame type is absorbed as two octets, a TLV as its type, its length and its value. */
  lemma ChunkOctets(ft: u16, t: Tlv)
    ensures Absorbed([FrameType(ft)]) == [ft / 256, ft % 256]
    ensures Absorbed([OneTlv(t)]) == Be(t.typ, 2) + Be(|t.value|, 2) + t.value
  {
    AbsorbedOne(FrameType(ft));
    AbsorbedOne(OneTlv(t));
    assert Be(ft, 2) == [ft / 256, ft % 256] by { assert Be(ft / 256, 1) == [ft / 256]; }
  }

  lemma AbsorbedOne(c: Chunk)
    ensures Absorbed([c]) == EncodeChunk(c)
  {
    assert Absorbed([c]) == EncodeChunk(c) + Absorbed([]);
  }

  lemma {:induction false} AbsorbedConcat(a: seq<Chunk>, b: seq<Chunk>)
    ensures Absorbed(a + b) == Absorbed(a) + Absorbed(b)
    decreases |a|
  {
    hide EncodeChunk;
    if a == [] {
      assert a + b == b;
    } else {
      AbsorbedConcat(a[1..], b);
      assert (a + b)[1..] == a[1..] + b;
    }
  }

  // ---------- the four flights and the cut points ----------

  datatype Flights = Flights(ch: ClientHello, sh: ServerHello, serverAuth: Auth, clientAuth: Auth)

  function AllChunks(f: Flights): (cs: seq<Chunk>)
    ensures |cs| == 20
  {
    FrameChunks(CLIENT_HELLO, ClientHelloTlvs(f.ch)) + FrameChunks(SERVER_HELLO, ServerHelloTlvs(f.sh))
    + FrameChunks(SERVER_AUTH, AuthTlvs(f.serverAuth)) + FrameChunks(CLIENT_AUTH, AuthTlvs(f.clientAuth))
  }

  /** TH_kem, TH_sId, TH_sCV, TH_cId, TH_cCV */
  datatype Cut = Kem | ServerId | ServerCv | ClientId | ClientCv

  function CutIndex(c: Cut): nat {
    match c
    case Kem => 12
    case ServerId => 14
    case ServerCv => 15
    case ClientId => 18
    case ClientCv => 19
  }

  function Through(c: Cut, f: Flights): bytes { Absorbed(AllChunks(f)[..CutIndex(c)]) }

  /** The parts of the flights a cut point covers. */
  predicate SameThrough(c: Cut, f: Flights, g: Flights) {
    && f.ch == g.ch && f.sh == g.sh
    && (c != Kem ==> f.serverAuth.identity == g.serverAuth.identity)
    && (c != Kem && c != ServerId ==> f.serverAuth.certVerify == g.serverAuth.certVerify)
    && (c == ClientId || c == ClientCv ==> f.serverAuth == g.serverAuth && f.clientAuth.identity == g.clientAuth.identity)
    && (c == ClientCv ==> f.clientAuth.certVerify == g.clientAuth.certVerify)
  }

  /** Every value's length fits the two octets of a TLV's length field. */
  predicate FlightsFit(f: Flights) {
    && AllFit(ClientHelloTlvs(f.ch)) && AllFit(ServerHelloTlvs(f.sh))
    && AllFit(AuthTlvs(f.serverAuth)) && AllFit(AuthTlvs(f.clientAuth))
  }

  // ---------- equal bytes, equal chunks ----------

  ghost predicate ChunkFits(c: Chunk) { c.OneTlv? ==> Fits(c.tlv) }

  lemma ChunkPrefixFree(c: Chunk, d: Chunk, r: bytes, s: bytes)
    requires ChunkFits(c) && ChunkFits(d) && c.FrameType? == d.FrameType?
    requires EncodeChunk(c) + r == EncodeChunk(d) + s
    ensures c == d && r == s
  {
    hide EncodeTlv;
    if c.FrameType? {
      SplitEqual(Be(c.ft, 2), r, Be(d.ft, 2), s);
      PowValues();
      BeInjective(c.ft, d.ft, 2);
    } else {
      TlvPrefixFree(c.tlv, d.tlv, r, s);
    }
  }

  lemma {:induction false} ChunksInjective(cs: seq<Chunk>, ds: seq<Chunk>)
    requires forall c <- cs :: ChunkFits(c)
    requires forall d <- ds :: ChunkFits(d)
    requires forall i :: 0 <= i < |cs| && i < |ds| ==> cs[i].FrameType? == ds[i].FrameType?
    requires Absorbed(cs) == Absorbed(ds)
    ensures cs == ds
    decreases |cs|
  {
    hide EncodeChunk;
    if cs == [] || ds == [] {
      if cs != [] { NonEmptyChunk(cs[0]); }
      if ds != [] { NonEmptyChunk(ds[0]); }
    } else {
      assert cs[0] in cs && ds[0] in ds;
      ChunkPrefixFree(cs[0], ds[0], Absorbed(cs[1..]), Absorbed(ds[1..]));
      assert forall i :: 0 <= i < |cs| - 1 && i < |ds| - 1 ==> cs[1..][i] == cs[i + 1] && ds[1..][i] == ds[i + 1];
      ChunksInjective(cs[1..], ds[1..]);
      assert cs == [cs[0]] + cs[1..] && ds == [ds[0]] + ds[1..];
    }
  }

  lemma NonEmptyChunk(c: Chunk)
    ensures |EncodeChunk(c)| > 0
  {}

  lemma ChunksAt(f: Flights)
    ensures var cs := AllChunks(f);
            && cs[..6] == FrameChunks(CLIENT_HELLO, ClientHelloTlvs(f.ch))
            && cs[6..12] == FrameChunks(SERVER_HELLO, ServerHelloTlvs(f.sh))
            && cs[12..16] == FrameChunks(SERVER_AUTH, AuthTlvs(f.serverAuth))
            && cs[16..20] == FrameChunks(CLIENT_AUTH, AuthTlvs(f.clientAuth))
  {}

  lemma KindsAt(f: Flights, i: nat)
    requires i < 20
    ensures AllChunks(f)[i].FrameType? <==> i == 0 || i == 6 || i == 12 || i == 16
  {
    ChunksAt(f);
    var cs := AllChunks(f);
    if i < 6 { assert cs[i] == cs[..6][i]; }
    else if i < 12 { assert cs[i] == cs[6..12][i - 6]; }
    else if i < 16 { assert cs[i] == cs[12..16][i - 12]; }
    else { assert cs[i] == cs[16..20][i - 16]; }
  }

  lemma ChunksFit(f: Flights)
    requires FlightsFit(f)
    ensures forall c <- AllChunks(f) :: ChunkFits(c)
  {
    hide U16List, Be;
  }

  // ---------- equal chunks, equal messages ----------

  lemma ClientHelloFromTlvs(m: ClientHello, n: ClientHello)
    requires ClientHelloTlvs(m) == ClientHelloTlvs(n)
    ensures m == n
  {
    hide U16List;
    var a, b := ClientHelloTlvs(m), ClientHelloTlvs(n);
    assert a[0] == b[0] && a[1] == b[1] && a[2] == b[2] && a[3] == b[3] && a[4] == b[4];
    U16RoundTrip(m.kems);
    U16RoundTrip(n.kems);
    U16RoundTrip(m.sigs);
    U16RoundTrip(n.sigs);
    U16RoundTrip(m.aeads);
    U16RoundTrip(n.aeads);
  }

  lemma ServerHelloFromTlvs(m: ServerHello, n: ServerHello)
    requires ServerHelloTlvs(m) == ServerHelloTlvs(n)
    ensures m == n
  {
    hide Be;
    var a, b := ServerHelloTlvs(m), ServerHelloTlvs(n);
    assert a[0] == b[0] && a[1] == b[1] && a[2] == b[2] && a[3] == b[3] && a[4] == b[4];
    assert [m.profile][0] == [n.profile][0];
    PairRoundTrip(m.kem);
    PairRoundTrip(n.kem);
    PairRoundTrip(m.sig);
    PairRoundTrip(n.sig);
    PairRoundTrip(m.aead);
    PairRoundTrip(n.aead);
  }

  lemma FrameChunksInjective(ft: u16, a: seq<Tlv>, b: seq<Tlv>)
    requires FrameChunks(ft, a) == FrameChunks(ft, b)
    ensures a == b
  {
    var x, y := FrameChunks(ft, a), FrameChunks(ft, b);
    assert |a| == |x| - 1 == |b|;
    forall i | 0 <= i < |a| ensures a[i] == b[i] {
      assert x[i + 1] == OneTlv(a[i]) && y[i + 1] == OneTlv(b[i]);
    }
  }

  lemma SameChunksSameMessages(c: Cut, f: Flights, g: Flights)
    requires AllChunks(f)[..CutIndex(c)] == AllChunks(g)[..CutIndex(c)]
    ensures SameThrough(c, f, g)
  {
    hide AllChunks, FrameChunks, ClientHelloTlvs, ServerHelloTlvs;
    var cs, ds, n := AllChunks(f), AllChunks(g), CutIndex(c);
    ChunksAt(f);
    ChunksAt(g);
    assert cs[..6] == cs[..n][..6] == ds[..n][..6] == ds[..6];
    assert cs[6..12] == cs[..n][6..12] == ds[..n][6..12] == ds[6..12];
    FrameChunksInjective(CLIENT_HELLO, ClientHelloTlvs(f.ch), ClientHelloTlvs(g.ch));
    FrameChunksInjective(SERVER_HELLO, ServerHelloTlvs(f.sh), ServerHelloTlvs(g.sh));
    ClientHelloFromTlvs(f.ch, g.ch);
    ServerHelloFromTlvs(f.sh, g.sh);
    AuthChunksAt(f);
    AuthChunksAt(g);
    assert forall i :: 0 <= i < n ==> cs[i] == cs[..n][i] && ds[i] == ds[..n][i];
  }

  lemma AuthChunksAt(f: Flights)
    ensures var cs := AllChunks(f);
            && cs[13] == OneTlv(Tlv(IDENTITY_KEY, f.serverAuth.identity))
            && cs[14] == OneTlv(Tlv(CERT_VERIFY, f.serverAuth.certVerify))
            && cs[15] == OneTlv(Tlv(FINISHED, f.serverAuth.finished))
            && cs[17] == OneTlv(Tlv(IDENTITY_KEY, f.clientAuth.identity))
            && cs[18] == OneTlv(Tlv(CERT_VERIFY, f.clientAuth.certVerify))
  {}

  /**
   * Equal absorbed octets force the same cut point and the same messages up to it, whatever the
   * two handshakes: nothing hashed at one point can be passed off as another.
   */
  lemma TranscriptInjective(c: Cut, f: Flights, d: Cut, g: Flights)
    requires FlightsFit(f) && FlightsFit(g)
    ensures Through(c, f) == Through(d, g) <==> c == d && SameThrough(c, f, g)
  {
    hide AllChunks, Absorbed, SameThrough, FlightsFit;
    if Through(c, f) == Through(d, g) {
      SameOctetsSameChunks(c, f, d, g);
      assert |AllChunks(f)[..CutIndex(c)]| == CutIndex(c) && |AllChunks(g)[..CutIndex(d)]| == CutIndex(d);
      SameChunksSameMessages(c, f, g);
    }
    if c == d && SameThrough(c, f, g) { SameMessagesSameChunks(c, f, g); }
  }

  lemma SameOctetsSameChunks(c: Cut, f: Flights, d: Cut, g: Flights)
    requires FlightsFit(f) && FlightsFit(g) && Through(c, f) == Through(d, g)
    ensures AllChunks(f)[..CutIndex(c)] == AllChunks(g)[..CutIndex(d)]
  {
    hide AllChunks, Absorbed, ChunkFits, FlightsFit;
    var cs, ds := AllChunks(f)[..CutIndex(c)], AllChunks(g)[..CutIndex(d)];
    ChunksFit(f);
    ChunksFit(g);
    forall x | x in cs ensures ChunkFits(x) { assert x in AllChunks(f); }
    forall x | x in ds ensures ChunkFits(x) { assert x in AllChunks(g); }
    forall i | 0 <= i < |cs| && i < |ds| ensures cs[i].FrameType? == ds[i].FrameType? {
      KindsAt(f, i);
      KindsAt(g, i);
    }
    ChunksInjective(cs, ds);
  }

  lemma SameMessagesSameChunks(c: Cut, f: Flights, g: Flights)
    requires SameThrough(c, f, g)
    ensures AllChunks(f)[..CutIndex(c)] == AllChunks(g)[..CutIndex(c)]
  {
    hide ClientHelloTlvs, ServerHelloTlvs;
    var cs, ds, n := AllChunks(f), AllChunks(g), CutIndex(c);
    AuthChunksAt(f);
    AuthChunksAt(g);
    ChunksAt(f);
    ChunksAt(g);
    assert cs[12] == cs[12..16][0] && ds[12] == ds[12..16][0];
    assert cs[16] == cs[16..20][0] && ds[16] == ds[16..20][0];
    forall i | 0 <= i < n ensures cs[i] == ds[i] {
      if i < 6 { assert cs[i] == cs[..6][i] && ds[i] == ds[..6][i]; }
      else if i < 12 { assert cs[i] == cs[6..12][i - 6] && ds[i] == ds[6..12][i - 6]; }
    }
  }

  // ---------- the CertVerify signing input ----------

  datatype Role = Client | Server

  function Ascii(s: string): (b: bytes)
    ensures |b| == |s|
  {
    seq(|s|, i requires 0 <= i < |s| => s[i] as int % 256)
  }

  /** "N-PAMP/3, client CertificateVerify", or the same for the server. */
  function CertVerifyContext(r: Role): (text: bytes)
    ensures |text| == 34
  {
    Ascii("N-PAMP/3, ") + Ascii(if r == Client then "client" else "server") + Ascii(" CertificateVerify")
  }

  function Spaces(): bytes { seq(64, _ => 0x20) }

  function SigningInput(r: Role, th: bytes): bytes { Spaces() + CertVerifyContext(r) + [0] + th }

  method BuildSigningInput(r: Role, th: bytes) returns (out: bytes)
    ensures out == SigningInput(r, th)
  {
    out := [];
    for i := 0 to 64
      invariant |out| == i && forall j :: 0 <= j < i ==> out[j] == 0x20
    {
      out := out + [0x20];
    }
    assert out == Spaces();
    out := out + CertVerifyContext(r) + [0] + th;
  }

  lemma ContextOctets(r: Role)
    ensures var text := CertVerifyContext(r);
            && text[..10] == [0x4E, 0x2D, 0x50, 0x41, 0x4D, 0x50, 0x2F, 0x33, 0x2C, 0x20]
            && text[10..16] == (if r == Client then [0x63, 0x6C, 0x69, 0x65, 0x6E, 0x74] else [0x73, 0x65, 0x72, 0x76, 0x65, 0x72])
            && text[16..] == [0x20, 0x43, 0x65, 0x72, 0x74, 0x69, 0x66, 0x69, 0x63, 0x61, 0x74, 0x65,
                              0x56, 0x65, 0x72, 0x69, 0x66, 0x79]
  {
    hide Ascii;
    OpeningOctets();
    RoleOctets();
    ClosingOctets();
    var text := CertVerifyContext(r);
    assert text[..10] == Ascii("N-PAMP/3, ");
    assert text[10..16] == Ascii(if r == Client then "client" else "server");
    assert text[16..] == Ascii(" CertificateVerify");
  }

  lemma OpeningOctets()
    ensures Ascii("N-PAMP/3, ") == [0x4E, 0x2D, 0x50, 0x41, 0x4D, 0x50, 0x2F, 0x33, 0x2C, 0x20]
  {}

  lemma RoleOctets()
    ensures Ascii("client") == [0x63, 0x6C, 0x69, 0x65, 0x6E, 0x74] && Ascii("server") == [0x73, 0x65, 0x72, 0x76, 0x65, 0x72]
  {}

  lemma ClosingOctets()
    ensures Ascii(" CertificateVerify") == [0x20, 0x43, 0x65, 0x72, 0x74, 0x69, 0x66, 0x69, 0x63, 0x61, 0x74, 0x65,
                                            0x56, 0x65, 0x72, 0x69, 0x66, 0x79]
  {}

  /** Sixty-four spaces, the role's text, a zero octet, the hash; the two texts differ in one word. */
  lemma SigningInputLayout(r: Role, th: bytes)
    ensures var x := SigningInput(r, th);
            && |x| == 99 + |th| && (forall i :: 0 <= i < 64 ==> x[i] == 0x20)
            && x[64..74] == [0x4E, 0x2D, 0x50, 0x41, 0x4D, 0x50, 0x2F, 0x33, 0x2C, 0x20]
            && x[74..80] == (if r == Client then [0x63, 0x6C, 0x69, 0x65, 0x6E, 0x74] else [0x73, 0x65, 0x72, 0x76, 0x65, 0x72])
            && x[80..98] == [0x20, 0x43, 0x65, 0x72, 0x74, 0x69, 0x66, 0x69, 0x63, 0x61, 0x74, 0x65,
                             0x56, 0x65, 0x72, 0x69, 0x66, 0x79]
            && x[98] == 0 && x[99..] == th
  {
    hide CertVerifyContext;
    ContextOctets(r);
    var x, text := SigningInput(r, th), CertVerifyContext(r);
    assert x[64..74] == text[..10] && x[74..80] == text[10..16] && x[80..98] == text[16..];
  }

  /** A signature made in one role over one hash covers no other role and no other hash. */
  lemma SigningInputInjective(r: Role, th: bytes, s: Role, uh: bytes)
    ensures SigningInput(r, th) == SigningInput(s, uh) <==> r == s && th == uh
  {
    if SigningInput(r, th) == SigningInput(s, uh) {
      hide SigningInput;
      SigningInputLayout(r, th);
      SigningInputLayout(s, uh);
      assert SigningInput(r, th)[74..80][0] == SigningInput(s, uh)[74..80][0];
    }
  }
}
