/** The ERROR-frame body and its hand-written decoder, against the general codec. */
module ErrorBody {
  import opened Bytes
  import opened Cbor
  import opened CborTheorems
  import opened CborOrder
  import opened GoMaps

  /** A shortest-form unsigned integer of at most two argument octets, and its length. */
  function ReadUint(b: bytes): Option<(nat, nat)> {
    if |b| < 1 || b[0] / 32 != 0 then None
    else
      var ai := b[0] % 32;
      if ai < 24 then Some((ai, 1))
      else if ai == 24 then
        if |b| < 2 || b[1] < 24 then None else Some((b[1], 2))
      else if ai == 25 then
        if |b| < 3 then None
        else
          var v := (b[1] as int) * 256 + b[2];
          if v < 256 then None else Some((v, 3))
      else None
  }

  /** A byte string whose length header is read through a copy with the type bits masked off. */
  function ReadBstr(b: bytes): Option<(bytes, nat)> {
    if |b| < 1 || b[0] / 32 != 2 then None
    else
      var hdr := [b[0] % 32] + b[1..];
      match ReadUint(hdr)
      case None => None
      case Some((ln, hn)) =>
        if hn + ln > |b| then None
        else
          var ctx: bytes, n: nat := b[hn..hn + ln], hn + ln;
          Some((ctx, n))
  }

  function DecodeErrorBody(b: bytes): Option<(nat, bytes)> {
    if |b| < 1 || b[0] != 0xa2 then None
    else if 1 >= |b| || b[1] != 0x01 then None
    else
      match ReadUint(b[2..])
      case None => None
      case Some((code, n)) =>
        if code > 255 then None
        else if 2 + n >= |b| || b[2 + n] != 0x02 then None
        else
          match ReadBstr(b[3 + n..])
          case None => None
          case Some((ctx, m)) => if 3 + n + m != |b| then None else Some((code, ctx))
  }

  /** The body as the sender builds it, from an unordered Go map. */
  function EncodeErrorBody(code: byte, ctx: bytes): bytes {
    Encode(ToValue(GoMap(map[1 := GoScalar(Uint(code)), 2 := GoScalar(ByteStr(ctx))])))
  }

  /** The map { 1: code, 2: context } as the general decoder would return it. */
  function ErrorMap(code: nat, ctx: bytes): Value {
    Map([Entry([1], Uint(1), Uint(code)), Entry([2], Uint(2), ByteStr(ctx))])
  }

  // ---------- the small readers are the general header reader, capped at two octets ----------

  lemma ReadUintCanonical(b: bytes, v: nat, n: nat)
    requires ReadUint(b) == Some((v, n))
    ensures v < 0x1_0000 && n <= |b| && b == EncodeHead(0, v) + b[n..] && |EncodeHead(0, v)| == n
  {
    if n == 1 {
      assert b == [b[0]] + b[1..];
      assert Be(v, 0) == [];
    } else if n == 2 {
      assert b == [b[0], b[1]] + b[2..];
      assert Be(v, 1) == [b[1]] by { assert Be(0, 0) == []; }
    } else {
      assert b == [b[0], b[1], b[2]] + b[3..];
      assert Be(v, 2) == [b[1], b[2]] by { assert Be(v / 256, 1) == [b[1]]; }
    }
  }

  lemma ReadUintComplete(v: nat, rest: bytes)
    requires v < 0x1_0000
    ensures ReadUint(EncodeHead(0, v) + rest) == Some((v, |EncodeHead(0, v)|))
  {
    var b := EncodeHead(0, v) + rest;
    if 24 <= v < 256 {
      assert Be(v, 1) == [v] by { assert Be(0, 0) == []; }
      assert b[1] == v;
    } else if 256 <= v {
      assert Be(v, 2) == [v / 256, v % 256] by { assert Be(v / 256, 1) == [v / 256]; }
      assert b[1] == v / 256 && b[2] == v % 256;
    }
  }

  lemma HeadMasked(v: nat, rest: bytes)
    requires v < U64_LIMIT
    ensures var b := EncodeHead(2, v) + rest;
            b[0] / 32 == 2 && [b[0] % 32] + b[1..] == EncodeHead(0, v) + rest
  {
    var b := EncodeHead(2, v) + rest;
    var (ai, w) := HeadShape(v);
    assert b == [64 + ai] + (Be(v, w) + rest);
    assert EncodeHead(0, v) + rest == [ai] + (Be(v, w) + rest);
  }

  /** Putting the major type back on a masked header. */
  lemma Unmask(b: bytes, c: bytes)
    requires |b| >= 1 && |c| >= 1 && b[0] / 32 == c[0] / 32 && [b[0] % 32] + b[1..] == [c[0] % 32] + c[1..]
    ensures b == c
  {
    SplitEqual([b[0] % 32], b[1..], [c[0] % 32], c[1..]);
    assert [b[0] % 32][0] == [c[0] % 32][0];
    assert b == [b[0]] + b[1..] && c == [c[0]] + c[1..];
  }

  lemma ReadBstrCanonical(b: bytes, ctx: bytes, n: nat)
    requires ReadBstr(b) == Some((ctx, n))
    ensures |ctx| < 0x1_0000 && n <= |b| && b == EncodeHead(2, |ctx|) + ctx + b[n..]
  {
    hide EncodeHead, ReadUint;
    var hdr := [b[0] % 32] + b[1..];
    var (ln, hn) := ReadUint(hdr).value;
    ReadUintCanonical(hdr, ln, hn);
    assert hdr[hn..] == b[hn..];
    HeadMasked(ln, b[hn..]);
    Unmask(b, EncodeHead(2, ln) + b[hn..]);
    assert b[hn..] == ctx + b[n..];
    assert EncodeHead(2, ln) + (ctx + b[n..]) == EncodeHead(2, ln) + ctx + b[n..];
  }

  lemma ReadBstrComplete(ctx: bytes, rest: bytes)
    requires |ctx| < 0x1_0000
    ensures ReadBstr(EncodeHead(2, |ctx|) + ctx + rest) == Some((ctx, |EncodeHead(2, |ctx|)| + |ctx|))
  {
    var h := EncodeHead(2, |ctx|);
    var b := h + ctx + rest;
    assert b == h + (ctx + rest);
    HeadMasked(|ctx|, ctx + rest);
    ReadUintComplete(|ctx|, ctx + rest);
    assert b[|h|..|h| + |ctx|] == ctx;
  }

  // ---------- main results ----------

  function Layout(code: nat, ctx: bytes): bytes {
    [0xa2, 1] + EncodeHead(0, code) + [2] + EncodeHead(2, |ctx|) + ctx
  }

  /** The half up to and including the code. */
  lemma CodeHalf(b: bytes, code: nat, n: nat)
    requires |b| >= 2 && b[0] == 0xa2 && b[1] == 1 && ReadUint(b[2..]) == Some((code, n))
    ensures 2 + n <= |b| && b == [0xa2, 1] + EncodeHead(0, code) + b[2 + n..]
  {
    hide ReadUint, EncodeHead;
    var t := b[2..];
    ReadUintCanonical(t, code, n);
    assert t[n..] == b[2 + n..];
    assert b == [0xa2, 1] + t;
    assert [0xa2, 1] + (EncodeHead(0, code) + t[n..]) == [0xa2, 1] + EncodeHead(0, code) + t[n..];
  }

  /** The half from the second key on. */
  lemma ContextHalf(t: bytes, ctx: bytes)
    requires |t| >= 1 && t[0] == 2 && ReadBstr(t[1..]) == Some((ctx, |t| - 1))
    ensures |ctx| < 0x1_0000 && t == [2] + EncodeHead(2, |ctx|) + ctx
  {
    hide ReadBstr, EncodeHead;
    var u := t[1..];
    ReadBstrCanonical(u, ctx, |u|);
    assert u[|u|..] == [];
    assert t == [2] + u;
    assert u == EncodeHead(2, |ctx|) + ctx;
    assert [2] + (EncodeHead(2, |ctx|) + ctx) == [2] + EncodeHead(2, |ctx|) + ctx;
  }

  lemma AcceptedHasLayout(b: bytes, code: nat, ctx: bytes)
    requires DecodeErrorBody(b) == Some((code, ctx))
    ensures code <= 255 && |ctx| < 0x1_0000 && b == Layout(code, ctx)
  {
    hide ReadUint, ReadBstr, EncodeHead;
    var n := ReadUint(b[2..]).value.1;
    CodeHalf(b, code, n);
    var t := b[2 + n..];
    assert t[1..] == b[3 + n..];
    ContextHalf(t, ctx);
    Halves([0xa2, 1] + EncodeHead(0, code), [2], EncodeHead(2, |ctx|), ctx);
  }

  lemma Halves(a: bytes, b: bytes, c: bytes, d: bytes)
    ensures a + (b + c + d) == a + b + c + d
  {}

  lemma LayoutIsAccepted(code: nat, ctx: bytes)
    requires code <= 255 && |ctx| < 0x1_0000
    ensures DecodeErrorBody(Layout(code, ctx)) == Some((code, ctx))
  {
    hide ReadUint, ReadBstr, EncodeHead;
    var b, h, tail := Layout(code, ctx), EncodeHead(0, code), EncodeHead(2, |ctx|) + ctx;
    var n := |h|;
    assert b == [0xa2, 1] + (h + ([2] + tail));
    assert b[2..] == h + ([2] + tail);
    ReadUintComplete(code, [2] + tail);
    assert b[2 + n] == ([2] + tail)[0];
    assert b[3 + n..] == tail + [];
    ReadBstrComplete(ctx, []);
  }

  lemma AcceptedLayout(b: bytes, code: nat, ctx: bytes)
    ensures DecodeErrorBody(b) == Some((code, ctx))
       <==> code <= 255 && |ctx| < 0x1_0000 && b == Layout(code, ctx)
  {
    hide *;
    if DecodeErrorBody(b) == Some((code, ctx)) { AcceptedHasLayout(b, code, ctx); }
    if code <= 255 && |ctx| < 0x1_0000 { LayoutIsAccepted(code, ctx); }
  }

  lemma ErrorMapShape(code: nat, ctx: bytes)
    requires code < U64_LIMIT && |ctx| < U64_LIMIT
    ensures WellFormed(Go, ErrorMap(code, ctx)) && Depth(ErrorMap(code, ctx)) == 2
    ensures Encode(ErrorMap(code, ctx)) == Layout(code, ctx)
  {
    hide Encode, WellFormed, Depth, LexLess, EncodeHead;
    var e, f := Entry([1], Uint(1), Uint(code)), Entry([2], Uint(2), ByteStr(ctx));
    SmallKeys();
    Scalars(code, ctx);
    TwoEntries(Go, e, f);
    assert [0xa2] + [1] + EncodeHead(0, code) + [2] + (EncodeHead(2, |ctx|) + ctx) == Layout(code, ctx);
  }

  lemma Scalars(code: nat, ctx: bytes)
    requires code < U64_LIMIT && |ctx| < U64_LIMIT
    ensures Encode(Uint(code)) == EncodeHead(0, code) && Encode(ByteStr(ctx)) == EncodeHead(2, |ctx|) + ctx
    ensures WellFormed(Go, Uint(code)) && WellFormed(Go, ByteStr(ctx)) && WellFormed(Go, Uint(1)) && WellFormed(Go, Uint(2))
    ensures forall v: Value :: !v.Arr? && !v.Map? ==> Depth(v) == 1
  {}

  lemma SmallKeys()
    ensures Encode(Uint(1)) == [1] && Encode(Uint(2)) == [2] && LexLess([1], [2])
  {
    assert Be(1, 0) == [] && Be(2, 0) == [];
  }

  /**
   * The hand-written decoder accepts exactly those bodies the general decoder reads as the map
   * { 1: code of one octet, 2: byte string under 65536 octets }, with the same contents.
   */
  lemma RefinesGeneralDecoder(b: bytes, code: nat, ctx: bytes)
    ensures DecodeErrorBody(b) == Some((code, ctx))
       <==> DecodeTop(Go, b) == Ok(ErrorMap(code, ctx)) && code <= 255 && |ctx| < 0x1_0000
  {
    hide DecodeErrorBody, DecodeTop, Encode, Layout, WellFormed, Depth;
    AcceptedLayout(b, code, ctx);
    Canonical(Go, b, ErrorMap(code, ctx));
    if code <= 255 && |ctx| < 0x1_0000 { ErrorMapShape(code, ctx); }
  }

  lemma EncodedLayout(code: byte, ctx: bytes)
    requires |ctx| < U64_LIMIT
    ensures EncodeErrorBody(code, ctx) == Layout(code, ctx)
  {
    hide SortedEntries, Encode;
    var g := GoMap(map[1 := GoScalar(Uint(code)), 2 := GoScalar(ByteStr(ctx))]);
    var es := ErrorMap(code, ctx).entries;
    SmallKeys();
    assert Bindings(g) == map[1 := Uint(code), 2 := ByteStr(ctx)];
    assert es[0] == UintEntry(1, Uint(code)) && es[1] == UintEntry(2, ByteStr(ctx));
    SortedListIsUnique(es, Bindings(g), U64_LIMIT);
    ErrorMapShape(code, ctx);
  }

  /** What a sender builds is read back exactly when the context is under 65536 octets. */
  lemma ErrorBodyRoundTrip(code: byte, ctx: bytes)
    requires |ctx| < U64_LIMIT
    ensures DecodeErrorBody(EncodeErrorBody(code, ctx)) == Some((code as nat, ctx)) <==> |ctx| < 0x1_0000
    ensures |ctx| >= 0x1_0000 ==> DecodeErrorBody(EncodeErrorBody(code, ctx)) == None
  {
    hide DecodeErrorBody, EncodeErrorBody, DecodeTop, Encode, WellFormed, Depth;
    var b := EncodeErrorBody(code, ctx);
    EncodedLayout(code, ctx);
    AcceptedLayout(b, code, ctx);
    if DecodeErrorBody(b).Some? {
      var (code', ctx') := DecodeErrorBody(b).value;
      RefinesGeneralDecoder(b, code', ctx');
      ErrorMapShape(code, ctx);
      RoundTrip(Go, ErrorMap(code, ctx));
    }
  }
}
