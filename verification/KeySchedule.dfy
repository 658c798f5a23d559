/**
 * The key schedule and the record layer over abstract cryptography: label and context encodings,
 * the handshake ladder, per-frame nonces, sealing and opening of frames.
 */
module KeySchedule {
  import opened Bytes
  import opened Bits
  import opened Frames
  import opened Transcripts
  import Hkdf

  /** The primitives, as functions; each theorem states what it asks of them. */
  datatype Crypto = Crypto(
    hash: bytes -> bytes,
    hmac: (bytes, bytes) -> bytes,
    extract: (bytes, bytes) -> bytes,
    expand: (bytes, bytes, nat) -> bytes,
    sign: (bytes, bytes) -> bytes,
    verify: (bytes, bytes, bytes) -> bool,
    publicKey: bytes -> bytes,
    kemShare: bytes -> bytes,
    encapsulate: (bytes, bytes) -> Option<(bytes, bytes)>,
    decapsulate: (bytes, bytes) -> Option<bytes>,
    seal: (bytes, bytes, bytes, bytes) -> bytes,
    open: (bytes, bytes, bytes, bytes) -> Option<bytes>)

  const HASH_LEN: nat := 32
  const AES256GCM: u16 := 0x0001
  const CHAN_CONTROL: u16 := 0x0000
  const CHAN_MEMORY: u16 := 0x0001
  const FLAG_ENC: byte := 0x02

  datatype Direction = ClientToServer | ServerToClient

  // ---------- labels and contexts ----------

  /** A length octet, then the octets. */
  function Counted(a: bytes): bytes { [|a| % 256] + a }

  /** HkdfLabel: output length, then the counted label with its protocol prefix, then the counted context. */
  function HkdfLabel(length: nat, lab: bytes, context: bytes): bytes {
    Be(length, 2) + Counted(Ascii("n-pamp ") + lab) + Counted(context)
  }

  /** The context of a traffic secret: direction, epoch, suite, channel. */
  function TrafficContext(dir: Direction, epoch: u64, suite: u16, channel: u16): (ctx: bytes)
    ensures |ctx| == 13
  {
    [if dir.ClientToServer? then 0 else 1] + Be(epoch, 8) + Be(suite, 2) + Be(channel, 2)
  }

  function ExpandLabel(c: Crypto, secret: bytes, lab: bytes, context: bytes, length: nat): bytes {
    c.expand(secret, HkdfLabel(length, lab, context), length)
  }

  /** Where everything stands in an HkdfLabel: two octets of length, then the text "n-pamp " and the label, then the context. */
  lemma LabelLayout(length: nat, lab: bytes, context: bytes)
    requires |lab| <= 248 && |context| <= 255
    ensures var h, n := HkdfLabel(length, lab, context), 10 + |lab|;
            && |h| == n + 1 + |context|
            && h[0] == length / 256 % 256 && h[1] == length % 256
            && h[2] == 7 + |lab| && h[3..10] == [0x6E, 0x2D, 0x70, 0x61, 0x6D, 0x70, 0x20] && h[10..n] == lab
            && h[n] == |context| && h[n + 1..] == context
  {
    var h := HkdfLabel(length, lab, context);
    var text := Ascii("n-pamp ");
    assert text == [0x6E, 0x2D, 0x70, 0x61, 0x6D, 0x70, 0x20];
    assert Be(length, 2) == [length / 256 % 256, length % 256] by { assert Be(length / 256, 1) == [length / 256 % 256]; }
    assert h == Be(length, 2) + [7 + |lab|] + text + lab + [|context|] + context;
  }

  lemma CountedPrefixFree(a: bytes, r: bytes, b: bytes, s: bytes)
    requires |a| < 256 && |b| < 256 && Counted(a) + r == Counted(b) + s
    ensures a == b && r == s
  {
    assert (Counted(a) + r)[0] == |a| && (Counted(b) + s)[0] == |b|;
    SplitEqual(Counted(a), r, Counted(b), s);
    SplitEqual([|a|], a, [|b|], b);
  }

  /** Labels and contexts short enough for their length octets never collide. */
  lemma HkdfLabelInjective(n: nat, l: bytes, x: bytes, m: nat, k: bytes, y: bytes)
    requires n < 0x1_0000 && m < 0x1_0000 && |l| <= 248 && |k| <= 248 && |x| <= 255 && |y| <= 255
    ensures HkdfLabel(n, l, x) == HkdfLabel(m, k, y) <==> n == m && l == k && x == y
  {
    if HkdfLabel(n, l, x) == HkdfLabel(m, k, y) {
      hide Be, Counted, Ascii;
      var p := Ascii("n-pamp ");
      var f, g := p + l, p + k;
      assert HkdfLabel(n, l, x) == Be(n, 2) + (Counted(f) + Counted(x));
      assert HkdfLabel(m, k, y) == Be(m, 2) + (Counted(g) + Counted(y));
      SplitEqual(Be(n, 2), Counted(f) + Counted(x), Be(m, 2), Counted(g) + Counted(y));
      PowValues();
      BeInjective(n, m, 2);
      CountedPrefixFree(f, Counted(x), g, Counted(y));
      SplitEqual(p, l, p, k);
      assert Counted(x) + [] == Counted(y) + [];
      CountedPrefixFree(x, [], y, []);
    }
  }

  lemma ContextParts(d: Direction, e: u64, s: u16, c: u16)
    ensures var x := TrafficContext(d, e, s, c);
            && x[0] == (if d.ClientToServer? then 0 else 1) && x[1..9] == Be(e, 8) && x[9..11] == Be(s, 2) && x[11..13] == Be(c, 2)
  {
    hide Be;
  }

  lemma TrafficContextInjective(d: Direction, e: u64, s: u16, c: u16, d': Direction, e': u64, s': u16, c': u16)
    ensures TrafficContext(d, e, s, c) == TrafficContext(d', e', s', c') <==> d == d' && e == e' && s == s' && c == c'
  {
    if TrafficContext(d, e, s, c) == TrafficContext(d', e', s', c') {
      hide Be, TrafficContext;
      ContextParts(d, e, s, c);
      ContextParts(d', e', s', c');
      PowValues();
      BeInjective(e, e', 8);
      BeInjective(s, s', 2);
      BeInjective(c, c', 2);
    }
  }

  // ---------- the ladder ----------

  function HandshakeSecret(c: Crypto, ss: bytes): bytes { c.extract(seq(HASH_LEN, _ => 0), ss) }

  function ClientHandshakeSecret(c: Crypto, hs: bytes, thKem: bytes): bytes {
    ExpandLabel(c, hs, Ascii("c hs"), thKem, HASH_LEN)
  }

  function ServerHandshakeSecret(c: Crypto, hs: bytes, thKem: bytes): bytes {
    ExpandLabel(c, hs, Ascii("s hs"), thKem, HASH_LEN)
  }

  function MasterSecret(c: Crypto, hs: bytes, thCcv: bytes): bytes {
    ExpandLabel(c, hs, Ascii("master"), thCcv, HASH_LEN)
  }

  function FinishedKey(c: Crypto, secret: bytes): bytes { ExpandLabel(c, secret, Ascii("finished"), [], HASH_LEN) }

  function TrafficSecret(c: Crypto, base: bytes, dir: Direction, epoch: u64, channel: u16): bytes {
    ExpandLabel(c, base, Ascii("traffic"), TrafficContext(dir, epoch, AES256GCM, channel), HASH_LEN)
  }

  function TrafficKey(c: Crypto, base: bytes, dir: Direction, epoch: u64, channel: u16): bytes {
    ExpandLabel(c, TrafficSecret(c, base, dir, epoch, channel), Ascii("key"), [], 32)
  }

  function TrafficIv(c: Crypto, base: bytes, dir: Direction, epoch: u64, channel: u16): bytes {
    ExpandLabel(c, TrafficSecret(c, base, dir, epoch, channel), Ascii("iv"), [], 12)
  }

  /** The symmetric step of the master ratchet, to a new generation. */
  function RatchetTier1(c: Crypto, master: bytes, generation: u64): bytes {
    ExpandLabel(c, master, Ascii("master ratchet"), Be(generation, 8), HASH_LEN)
  }

  /** The step through a fresh key exchange: the old root is the salt. */
  function RatchetTier2(c: Crypto, master: bytes, newSS: bytes, thRekem: bytes): bytes {
    ExpandLabel(c, c.extract(master, newSS), Ascii("master ratchet rekem"), thRekem, HASH_LEN)
  }

  // ---------- every derivation has its own input ----------

  datatype Purpose =
    | ForClientHandshake(thKem: bytes) | ForServerHandshake(thKem: bytes) | ForMaster(thCcv: bytes) | ForFinished
    | ForTraffic(dir: Direction, epoch: u64, channel: u16) | ForKey | ForIv
    | ForRatchet(generation: u64) | ForRekem(thRekem: bytes)

  function LabelOf(p: Purpose): bytes {
    match p
    case ForClientHandshake(_) => Ascii("c hs")
    case ForServerHandshake(_) => Ascii("s hs")
    case ForMaster(_) => Ascii("master")
    case ForFinished => Ascii("finished")
    case ForTraffic(_, _, _) => Ascii("traffic")
    case ForKey => Ascii("key")
    case ForIv => Ascii("iv")
    case ForRatchet(_) => Ascii("master ratchet")
    case ForRekem(_) => Ascii("master ratchet rekem")
  }

  function ContextOf(p: Purpose): bytes {
    match p
    case ForClientHandshake(th) => th
    case ForServerHandshake(th) => th
    case ForMaster(th) => th
    case ForTraffic(dir, epoch, channel) => TrafficContext(dir, epoch, AES256GCM, channel)
    case ForRatchet(generation) => Be(generation, 8)
    case ForRekem(th) => th
    case _ => []
  }

  function Info(p: Purpose): bytes { HkdfLabel(if p.ForIv? then 12 else 32, LabelOf(p), ContextOf(p)) }

  /** Extraction is HMAC keyed by the salt (section 2.2 of RFC 5869). */
  ghost predicate ExtractIsHmac(c: Crypto) { forall salt, ikm :: c.extract(salt, ikm) == c.hmac(salt, ikm) }

  predicate ThirtyTwoZeros(z: bytes) { |z| == 32 && forall i :: 0 <= i < 32 ==> z[i] == 0 }

  lemma TrafficInputs(c: Crypto, s: bytes, dir: Direction, epoch: u64, channel: u16)
    ensures var t := c.expand(s, Info(ForTraffic(dir, epoch, channel)), 32);
            && TrafficSecret(c, s, dir, epoch, channel) == t
            && TrafficKey(c, s, dir, epoch, channel) == c.expand(t, Info(ForKey), 32)
            && TrafficIv(c, s, dir, epoch, channel) == c.expand(t, Info(ForIv), 12)
  {
    hide HkdfLabel, TrafficContext;
  }

  lemma ExtractInputs(c: Crypto, s: bytes, th: bytes)
    requires ExtractIsHmac(c)
    ensures forall z, ss :: ThirtyTwoZeros(z) ==> HandshakeSecret(c, ss) == c.hmac(z, ss)
    ensures forall ss :: RatchetTier2(c, s, ss, th) == c.expand(c.hmac(s, ss), Info(ForRekem(th)), 32)
  {
    hide HkdfLabel;
    forall z | ThirtyTwoZeros(z) ensures z == seq(HASH_LEN, _ => 0) {}
  }

  /** The ladder asks for exactly these inputs. */
  lemma LadderInputs(c: Crypto, s: bytes, th: bytes, dir: Direction, epoch: u64, channel: u16)
    ensures RatchetTier1(c, s, epoch) == c.expand(s, Info(ForRatchet(epoch)), 32)
    ensures forall ss :: RatchetTier2(c, s, ss, th) == c.expand(c.extract(s, ss), Info(ForRekem(th)), 32)
    ensures ExtractIsHmac(c) ==> forall z, ss ::
              ThirtyTwoZeros(z) ==> HandshakeSecret(c, ss) == c.hmac(z, ss)
    ensures ExtractIsHmac(c) ==> forall ss ::
              RatchetTier2(c, s, ss, th) == c.expand(c.hmac(s, ss), Info(ForRekem(th)), 32)
    ensures ClientHandshakeSecret(c, s, th) == c.expand(s, Info(ForClientHandshake(th)), 32)
    ensures ServerHandshakeSecret(c, s, th) == c.expand(s, Info(ForServerHandshake(th)), 32)
    ensures MasterSecret(c, s, th) == c.expand(s, Info(ForMaster(th)), 32)
    ensures FinishedKey(c, s) == c.expand(s, Info(ForFinished), 32)
    ensures var t := TrafficSecret(c, s, dir, epoch, channel);
            && t == c.expand(s, Info(ForTraffic(dir, epoch, channel)), 32)
            && TrafficKey(c, s, dir, epoch, channel) == c.expand(t, Info(ForKey), 32)
            && TrafficIv(c, s, dir, epoch, channel) == c.expand(t, Info(ForIv), 12)
  {
    TrafficInputs(c, s, dir, epoch, channel);
    if ExtractIsHmac(c) { ExtractInputs(c, s, th); }
    hide HkdfLabel, TrafficContext, TrafficSecret, TrafficKey, TrafficIv, HandshakeSecret, ExtractIsHmac, ThirtyTwoZeros;
  }

  // The labels, octet by octet.

  lemma HandshakeLabels(th: bytes)
    ensures LabelOf(ForClientHandshake(th)) == [0x63, 0x20, 0x68, 0x73]
    ensures LabelOf(ForServerHandshake(th)) == [0x73, 0x20, 0x68, 0x73]
    ensures LabelOf(ForMaster(th)) == [0x6D, 0x61, 0x73, 0x74, 0x65, 0x72]
  {}

  lemma FinishedLabel()
    ensures LabelOf(ForFinished) == [0x66, 0x69, 0x6E, 0x69, 0x73, 0x68, 0x65, 0x64]
  {}

  lemma TrafficLabels(dir: Direction, n: u64, channel: u16)
    ensures LabelOf(ForTraffic(dir, n, channel)) == [0x74, 0x72, 0x61, 0x66, 0x66, 0x69, 0x63]
    ensures LabelOf(ForKey) == [0x6B, 0x65, 0x79] && LabelOf(ForIv) == [0x69, 0x76]
  {}

  lemma RatchetLabels(th: bytes, n: u64)
    ensures |LabelOf(ForRatchet(n))| == 14 && LabelOf(ForRatchet(n))[..6] == LabelOf(ForMaster(th))
    ensures LabelOf(ForRatchet(n))[6..] == [0x20, 0x72, 0x61, 0x74, 0x63, 0x68, 0x65, 0x74]
  {}

  lemma RekemLabel(th: bytes, n: u64)
    ensures |LabelOf(ForRekem(th))| == 20 && LabelOf(ForRekem(th))[..14] == LabelOf(ForRatchet(n))
    ensures LabelOf(ForRekem(th))[14..] == [0x20, 0x72, 0x65, 0x6B, 0x65, 0x6D]
  {}

  lemma LabelsDiffer(p: Purpose, q: Purpose)
    ensures |LabelOf(p)| <= 20
    ensures LabelOf(p) == LabelOf(q) ==>
              && (p.ForClientHandshake? <==> q.ForClientHandshake?) && (p.ForServerHandshake? <==> q.ForServerHandshake?)
              && (p.ForMaster? <==> q.ForMaster?) && (p.ForFinished? <==> q.ForFinished?)
              && (p.ForTraffic? <==> q.ForTraffic?) && (p.ForKey? <==> q.ForKey?) && (p.ForIv? <==> q.ForIv?)
              && (p.ForRatchet? <==> q.ForRatchet?) && (p.ForRekem? <==> q.ForRekem?)
  {
    assert Ascii("c hs")[0] == 0x63 && Ascii("s hs")[0] == 0x73;
  }

  /** No two derivations, for whatever purpose, transcript, direction, epoch or channel, share their HKDF input. */
  lemma DerivationsSeparate(p: Purpose, q: Purpose)
    requires |ContextOf(p)| <= 255 && |ContextOf(q)| <= 255
    ensures Info(p) == Info(q) <==> p == q
  {
    hide HkdfLabel, LabelOf, TrafficContext;
    LabelsDiffer(p, q);
    LabelsDiffer(q, p);
    HkdfLabelInjective(if p.ForIv? then 12 else 32, LabelOf(p), ContextOf(p), if q.ForIv? then 12 else 32, LabelOf(q), ContextOf(q));
    if p.ForRatchet? && q.ForRatchet? && ContextOf(p) == ContextOf(q) {
      PowValues();
      BeInjective(p.generation, q.generation, 8);
    }
    if p.ForTraffic? && q.ForTraffic? {
      TrafficContextInjective(p.dir, p.epoch, AES256GCM, p.channel, q.dir, q.epoch, AES256GCM, q.channel);
    }
  }

  // ---------- nonces ----------

  function XorByte(x: byte, y: byte): byte {
    Pow2Values();
    XorBound(x, y, 8);
    Xor(x, y)
  }

  /** Four zero octets and the sequence number, exclusive-ored with the IV. */
  function Nonce(iv: bytes, seqno: u64): (n: bytes)
    requires |iv| == 12
    ensures |n| == 12
  {
    var padded := [0, 0, 0, 0] + Be(seqno, 8);
    seq(12, i requires 0 <= i < 12 => XorByte(padded[i], iv[i]))
  }

  /** The first four octets of a nonce are the IV's own; the sequence number, big-endian, meets the other eight. */
  lemma NonceLayout(iv: bytes, seqno: u64)
    requires |iv| == 12
    ensures Nonce(iv, seqno)[..4] == iv[..4]
    ensures forall i :: 0 <= i < 8 ==> Nonce(iv, seqno)[4 + i] == Xor(iv[4 + i], Be(seqno, 8)[i])
  {
    hide Be, Xor;
    var padded := [0, 0, 0, 0] + Be(seqno, 8);
    forall i | 0 <= i < 4 ensures Nonce(iv, seqno)[i] == iv[i] { XorZero(iv[i]); }
    forall i | 0 <= i < 8 ensures Nonce(iv, seqno)[4 + i] == Xor(iv[4 + i], Be(seqno, 8)[i]) {
      XorCommutes(iv[4 + i], Be(seqno, 8)[i]);
      assert padded[4 + i] == Be(seqno, 8)[i];
    }
  }

  method DeriveNonce(iv: array<byte>, seqno: u64) returns (n: array<byte>)
    requires iv.Length == 12
    ensures fresh(n) && n.Length == 12 && n[..] == Nonce(iv[..], seqno)
  {
    hide Be, Xor;
    n := new byte[12];
    var padded := [0, 0, 0, 0] + Be(seqno, 8);
    forall i | 0 <= i < 12 { n[i] := padded[i]; }
    for i := 0 to 12
      invariant forall j :: 0 <= j < i ==> n[j] == XorByte(padded[j], iv[j])
      invariant forall j :: i <= j < 12 ==> n[j] == padded[j]
    {
      n[i] := XorByte(n[i], iv[i]);
    }
  }

  /** Under one IV, different sequence numbers have different nonces. */
  lemma NonceInjective(iv: bytes, s: u64, t: u64)
    requires |iv| == 12
    ensures Nonce(iv, s) == Nonce(iv, t) <==> s == t
  {
    if Nonce(iv, s) == Nonce(iv, t) {
      hide Be, Xor;
      forall i | 0 <= i < 8 ensures Be(s, 8)[i] == Be(t, 8)[i] {
        var p, q := [0, 0, 0, 0] + Be(s, 8), [0, 0, 0, 0] + Be(t, 8);
        assert Nonce(iv, s)[i + 4] == XorByte(p[i + 4], iv[i + 4]);
        assert Nonce(iv, t)[i + 4] == XorByte(q[i + 4], iv[i + 4]);
        XorCancels(p[i + 4], q[i + 4], iv[i + 4]);
      }
      assert Be(s, 8) == Be(t, 8);
      PowValues();
      BeInjective(s, t, 8);
    }
  }

  // ---------- sealed frames ----------

  /** Expansion yields as many octets as asked for, up to the 255 blocks HKDF allows. */
  ghost predicate ExpandLengths(c: Crypto) { forall s, i, n: nat :: n <= 255 * HASH_LEN ==> |c.expand(s, i, n)| == n }

  function Mac(c: Crypto, key: bytes): bytes -> bytes { m => c.hmac(key, m) }

  /** Expansion is HKDF-Expand over the HMAC. */
  ghost predicate ExpandIsHkdf(c: Crypto) {
    && (forall k :: Hkdf.OutputsLength(Mac(c, k), HASH_LEN))
    && (forall s, i, n: nat :: n <= 255 * HASH_LEN ==> c.expand(s, i, n) == Hkdf.Okm(Mac(c, s), HASH_LEN, i, n))
  }

  /** So the length hypothesis holds of HKDF itself. */
  lemma HkdfLengths(c: Crypto)
    requires ExpandIsHkdf(c)
    ensures ExpandLengths(c)
  {
    forall s, i, n: nat | n <= 255 * HASH_LEN
      ensures |c.expand(s, i, n)| == n
    {
      assert Hkdf.OutputsLength(Mac(c, s), HASH_LEN);
      assert |Hkdf.Okm(Mac(c, s), HASH_LEN, i, n)| == n;
    }
  }

  ghost predicate AeadCorrect(c: Crypto) {
    forall k, n, a, p :: c.open(k, n, a, c.seal(k, n, a, p)) == Some(p) && |c.seal(k, n, a, p)| == |p| + 16
  }

  function AuthenticatedHeader(seqno: u64, channel: u16, ft: u16, payloadLen: nat): bytes {
    HeaderPrefix(Frame(0, FLAG_ENC, ft, channel, seqno, []), payloadLen)
  }

  function SealedPayload(c: Crypto, base: bytes, dir: Direction, epoch: u64, channel: u16, seqno: u64, ft: u16, pt: bytes): bytes
    requires |TrafficIv(c, base, dir, epoch, channel)| == 12
  {
    c.seal(TrafficKey(c, base, dir, epoch, channel), Nonce(TrafficIv(c, base, dir, epoch, channel), seqno),
           AuthenticatedHeader(seqno, channel, ft, |pt| + 16), pt)
  }

  /** A marshalled frame whose payload is sealed with its own header as associated data. */
  function SealFrameWire(c: Crypto, base: bytes, dir: Direction, epoch: u64, channel: u16, seqno: u64, ft: u16, pt: bytes): bytes
    requires |TrafficIv(c, base, dir, epoch, channel)| == 12
  {
    Marshal(Frame(0, FLAG_ENC, ft, channel, seqno, SealedPayload(c, base, dir, epoch, channel, seqno, ft, pt)))
  }

  function OpenFrameWire(c: Crypto, f: Frame, base: bytes, dir: Direction, epoch: u64): Option<bytes>
    requires |TrafficIv(c, base, dir, epoch, f.channel)| == 12
  {
    c.open(TrafficKey(c, base, dir, epoch, f.channel), Nonce(TrafficIv(c, base, dir, epoch, f.channel), f.seqno),
           HeaderPrefix(f, |f.payload|), f.payload)
  }

  lemma IvLength(c: Crypto, base: bytes, dir: Direction, epoch: u64, channel: u16)
    requires ExpandLengths(c)
    ensures |TrafficIv(c, base, dir, epoch, channel)| == 12
  {
    hide HkdfLabel;
  }

  /** The associated data is the wire's own first 21 octets. */
  lemma WirePrefix(seqno: u64, channel: u16, ft: u16, sealed: bytes)
    requires |sealed| < 0x1_0000_0000
    ensures var w := Marshal(Frame(0, FLAG_ENC, ft, channel, seqno, sealed));
            && w[..21] == AuthenticatedHeader(seqno, channel, ft, |sealed|) && w[36..] == sealed
            && w[4] == 0x22 && w[5..7] == Be(ft, 2) && w[7..9] == Be(channel, 2) && w[9..17] == Be(seqno, 8)
            && w[17..21] == Be(|sealed|, 4)
  {
    var f := Frame(0, FLAG_ENC, ft, channel, seqno, sealed);
    assert VersionAndFlags(f) == 0x22;
    assert HeaderPrefix(f, |sealed|) == AuthenticatedHeader(seqno, channel, ft, |sealed|);
    hide Be, HeaderPrefix, Marshal;
    MarshalFields(f);
    PrefixFields(f, |sealed|);
    assert Marshal(f)[17..21] == Marshal(f)[..21][17..21];
  }

  /**
   * A sealed frame on the wire: the flag octet says version 2, encrypted; the payload is the plaintext
   * sealed under the traffic key and the nonce of its sequence number; and the associated data is the
   * wire's own first 21 octets.
   */
  lemma SealedWire(c: Crypto, base: bytes, dir: Direction, epoch: u64, channel: u16, seqno: u64, ft: u16, pt: bytes)
    requires AeadCorrect(c) && |TrafficIv(c, base, dir, epoch, channel)| == 12 && |pt| + 16 < 0x1_0000_0000
    ensures var w := SealFrameWire(c, base, dir, epoch, channel, seqno, ft, pt);
            var secret := c.expand(base, Info(ForTraffic(dir, epoch, channel)), 32);
            var iv := c.expand(secret, Info(ForIv), 12);
            && |w| == 52 + |pt| && |iv| == 12
            && w[4] == 0x22 && w[5..7] == Be(ft, 2) && w[7..9] == Be(channel, 2) && w[9..17] == Be(seqno, 8)
            && w[17..21] == Be(|pt| + 16, 4)
            && w[36..] == c.seal(c.expand(secret, Info(ForKey), 32), Nonce(iv, seqno), w[..21], pt)
  {
    hide TrafficSecret, TrafficKey, TrafficIv, Nonce, Marshal, HeaderPrefix, Be, Info, AuthenticatedHeader;
    hide RatchetTier1, RatchetTier2, ExtractIsHmac, HandshakeSecret, ClientHandshakeSecret, ServerHandshakeSecret,
         MasterSecret, FinishedKey;
    var sealed := SealedPayload(c, base, dir, epoch, channel, seqno, ft, pt);
    TrafficInputs(c, base, dir, epoch, channel);
    assert |sealed| == |pt| + 16;
    WirePrefix(seqno, channel, ft, sealed);
  }

  /** What is sealed and sent is parsed and opened again, under the same base, direction and epoch. */
  lemma SealOpenRoundTrip(c: Crypto, base: bytes, dir: Direction, epoch: u64, channel: u16, seqno: u64, ft: u16, pt: bytes)
    requires AeadCorrect(c) && |TrafficIv(c, base, dir, epoch, channel)| == 12 && |pt| + 16 < 0x1_0000_0000
    ensures var sealed := SealedPayload(c, base, dir, epoch, channel, seqno, ft, pt);
            var f := Frame(PROTOCOL_VERSION, FLAG_ENC, ft, channel, seqno, sealed);
            && Unmarshal(GoParser, SealFrameWire(c, base, dir, epoch, channel, seqno, ft, pt)) == Ok(f)
            && OpenFrameWire(c, f, base, dir, epoch) == Some(pt)
  {
    hide TrafficKey, TrafficIv, Nonce, Marshal, Unmarshal, HeaderPrefix;
    var sealed := SealedPayload(c, base, dir, epoch, channel, seqno, ft, pt);
    var sent, f := Frame(0, FLAG_ENC, ft, channel, seqno, sealed), Frame(PROTOCOL_VERSION, FLAG_ENC, ft, channel, seqno, sealed);
    assert |sealed| == |pt| + 16;
    MarshalRoundTrip(GoParser, sent);
    assert Received(sent) == f;
    PrefixInjective(f, |sealed|, Frame(0, FLAG_ENC, ft, channel, seqno, []), |sealed|);
  }

  /** What a receiver makes of the octets `w`: parse the frame, then open it. */
  function OpenWire(c: Crypto, w: bytes, base: bytes, dir: Direction, epoch: u64): Option<bytes>
    requires ExpandLengths(c)
  {
    match Unmarshal(GoParser, w)
    case Err(_) => None
    case Ok(f) =>
      IvLength(c, base, dir, epoch, f.channel);
      OpenFrameWire(c, f, base, dir, epoch)
  }

  /** A frame some sender sealed: under which secret, where in its key schedule, and what it says. */
  datatype Sent = Sent(base: bytes, dir: Direction, epoch: u64, channel: u16, seqno: u64, ft: u16, pt: bytes)

  function SentKey(c: Crypto, f: Sent): bytes { TrafficKey(c, f.base, f.dir, f.epoch, f.channel) }

  function SentNonce(c: Crypto, f: Sent): bytes
    requires ExpandLengths(c)
  {
    IvLength(c, f.base, f.dir, f.epoch, f.channel);
    Nonce(TrafficIv(c, f.base, f.dir, f.epoch, f.channel), f.seqno)
  }

  function SentHeader(f: Sent): bytes { AuthenticatedHeader(f.seqno, f.channel, f.ft, |f.pt| + 16) }

  function SentPayload(c: Crypto, f: Sent): bytes
    requires ExpandLengths(c)
  {
    IvLength(c, f.base, f.dir, f.epoch, f.channel);
    SealedPayload(c, f.base, f.dir, f.epoch, f.channel, f.seqno, f.ft, f.pt)
  }

  function SentWire(c: Crypto, f: Sent): bytes
    requires ExpandLengths(c)
  {
    IvLength(c, f.base, f.dir, f.epoch, f.channel);
    SealFrameWire(c, f.base, f.dir, f.epoch, f.channel, f.seqno, f.ft, f.pt)
  }

  /** An AEAD that opens what was sealed and nothing else: key, nonce, associated data and ciphertext all count. */
  ghost predicate OpensOnly(c: Crypto, log: set<Sent>)
    requires ExpandLengths(c)
  {
    && (forall f <- log :: |SentPayload(c, f)| == |f.pt| + 16 < 0x1_0000_0000
                           && c.open(SentKey(c, f), SentNonce(c, f), SentHeader(f), SentPayload(c, f)) == Some(f.pt))
    && (forall k, n, a, x :: c.open(k, n, a, x).Some? ==>
          exists f <- log :: k == SentKey(c, f) && n == SentNonce(c, f) && a == SentHeader(f) && x == SentPayload(c, f))
  }

  /** The receiver derives, for the frame's channel and sequence number, the key and nonce the frame was sealed under. */
  predicate Expects(c: Crypto, base: bytes, dir: Direction, epoch: u64, f: Sent)
    requires ExpandLengths(c)
  {
    var g := Sent(base, dir, epoch, f.channel, f.seqno, f.ft, f.pt);
    SentKey(c, g) == SentKey(c, f) && SentNonce(c, g) == SentNonce(c, f)
  }

  /**
   * However many frames were sealed, a receiver opens the octets `w` to `pt` exactly when they are one
   * of those frames, carrying `pt`, sealed under the key and nonce it expects: any change, to any header
   * field, the checksum, the length, the reserved octets or the ciphertext, is refused.
   */
  lemma OnlySealedFramesOpen(c: Crypto, log: set<Sent>, base: bytes, dir: Direction, epoch: u64, w: bytes, pt: bytes)
    requires ExpandLengths(c) && OpensOnly(c, log)
    ensures OpenWire(c, w, base, dir, epoch) == Some(pt) <==>
            exists f <- log :: w == SentWire(c, f) && f.pt == pt && Expects(c, base, dir, epoch, f)
  {
    hide Unmarshal, ExpandLengths, OpensOnly, SentWire, Expects, SentPayload, OpenWire;
    if OpenWire(c, w, base, dir, epoch) == Some(pt) {
      var f := OpenedWasSealed(c, log, base, dir, epoch, w);
    }
    if f :| f in log && w == SentWire(c, f) && f.pt == pt && Expects(c, base, dir, epoch, f) {
      SealedIsOpened(c, log, base, dir, epoch, f);
    }
  }

  /** The frame a receiver parses from a sealed frame's octets. */
  lemma SentArrives(c: Crypto, f: Sent)
    requires ExpandLengths(c) && |SentPayload(c, f)| == |f.pt| + 16 < 0x1_0000_0000
    ensures var g := Frame(PROTOCOL_VERSION, FLAG_ENC, f.ft, f.channel, f.seqno, SentPayload(c, f));
            Unmarshal(GoParser, SentWire(c, f)) == Ok(g) && HeaderPrefix(g, |g.payload|) == SentHeader(f)
  {
    hide Marshal, Unmarshal, HeaderPrefix, ExpandLengths, SealedPayload, TrafficIv;
    var sealed := SentPayload(c, f);
    var sent := Frame(0, FLAG_ENC, f.ft, f.channel, f.seqno, sealed);
    MarshalRoundTrip(GoParser, sent);
    PrefixInjective(Received(sent), |sealed|, Frame(0, FLAG_ENC, f.ft, f.channel, f.seqno, []), |sealed|);
  }

  lemma SealedIsOpened(c: Crypto, log: set<Sent>, base: bytes, dir: Direction, epoch: u64, f: Sent)
    requires ExpandLengths(c) && OpensOnly(c, log) && f in log && Expects(c, base, dir, epoch, f)
    ensures OpenWire(c, SentWire(c, f), base, dir, epoch) == Some(f.pt)
  {
    hide Unmarshal, HeaderPrefix, ExpandLengths, SentWire, SentPayload, TrafficKey, TrafficIv, Nonce, SentHeader;
    SentArrives(c, f);
  }

  lemma OpenedWasSealed(c: Crypto, log: set<Sent>, base: bytes, dir: Direction, epoch: u64, w: bytes) returns (f: Sent)
    requires ExpandLengths(c) && OpensOnly(c, log) && OpenWire(c, w, base, dir, epoch).Some?
    ensures f in log && w == SentWire(c, f) && OpenWire(c, w, base, dir, epoch) == Some(f.pt) && Expects(c, base, dir, epoch, f)
  {
    hide Unmarshal, Marshal, HeaderPrefix, ExpandLengths, TrafficKey, TrafficIv, Nonce, SealedPayload;
    var g := Unmarshal(GoParser, w).value;
    IvLength(c, base, dir, epoch, g.channel);
    var k, n := TrafficKey(c, base, dir, epoch, g.channel), Nonce(TrafficIv(c, base, dir, epoch, g.channel), g.seqno);
    var a := HeaderPrefix(g, |g.payload|);
    assert c.open(k, n, a, g.payload).Some?;
    f :| f in log && k == SentKey(c, f) && n == SentNonce(c, f) && a == SentHeader(f) && g.payload == SentPayload(c, f);
    UnmarshalCanonical(GoParser, w);
    PrefixInjective(g, |g.payload|, Frame(0, FLAG_ENC, f.ft, f.channel, f.seqno, []), |f.pt| + 16);
    SameOctets(g, Frame(0, FLAG_ENC, f.ft, f.channel, f.seqno, g.payload));
  }

  /** Frames that agree in every field, a zero version standing for the protocol's, marshal alike. */
  lemma SameOctets(f: Frame, g: Frame)
    requires VersionAndFlags(f) == VersionAndFlags(g) && f.ftype == g.ftype && f.channel == g.channel
    requires f.seqno == g.seqno && f.payload == g.payload
    ensures Marshal(f) == Marshal(g)
  {
    hide Be, VersionAndFlags;
  }
}
