/**
 * What the decoder says of inputs that are not encodings: every strict prefix of one is truncated, every
 * extension of one has trailing octets, and the forms the profile forbids are named as what they are.
 */
module CborRefusals {
  import opened Bytes
  import opened Cbor
  import opened CborTheorems

  // ---------- a cut through a header or a string ----------

  lemma HeadCut(d: Dialect, major: nat, arg: nat, p: bytes)
    requires major < 7 && arg < 0x1_0000_0000_0000_0000 && p != [] && p < EncodeHead(major, arg)
    ensures DecodeOpening(d, p) == Err(Truncated)
  {
    hide Be;
    var (ai, w) := HeadShape(arg);
    assert p[0] == EncodeHead(major, arg)[0] == major * 32 + ai;
    assert p[0] / 32 == major && p[0] % 32 == ai;
  }

  lemma BodyCut(d: Dialect, major: nat, arg: nat, body: bytes)
    requires 2 <= major <= 5 && |body| < arg < 0x1_0000_0000_0000_0000
    ensures DecodeOpening(d, EncodeHead(major, arg) + body) == Err(Truncated)
  {
    hide DecodeArg, EncodeHead;
    HeadRoundTrip(major, arg, body);
  }

  /** A strict prefix of a header and what follows it stops inside one or the other. */
  lemma WhereCut(h: bytes, t: bytes, p: bytes)
    requires p < h + t
    ensures p < h || (h <= p && p == h + p[|h|..] && p[|h|..] < t)
  {
    if |p| < |h| {
      assert p == (h + t)[..|p|] == h[..|p|];
    } else {
      assert p[..|h|] == (h + t)[..|h|] == h;
      assert p[|h|..] == (h + t)[|h|..|p|] == t[..|p| - |h|];
    }
  }

  // ---------- every strict prefix of an encoding is truncated ----------

  lemma {:induction false} PrefixTruncated(d: Dialect, v: Value, p: bytes, depth: nat)
    requires WellFormed(d, v) && depth + Depth(v) <= 9 && p < Encode(v)
    ensures Decode(d, p, depth) == Err(Truncated)
    decreases v, 0
  {
    hide DecodeItems, DecodeEntries, EncodeItems, EncodeEntries, WellFormedItems, WellFormedEntries, DepthItems,
         DepthEntries, DecodeOpening, EncodeHead;
    if p != [] {
      match v
      case Uint(u) => HeadCut(d, 0, u, p);
      case Int(i) => HeadCut(d, 1, -1 - i, p);
      case ByteStr(bs) => StringCut(d, 2, bs, p);
      case Text(ts) => StringCut(d, 3, ts, p);
      case Arr(es) =>
        var h := EncodeHead(4, |es|);
        WhereCut(h, EncodeItems(es), p);
        if p < h { HeadCut(d, 4, |es|, p); }
        else if |p[|h|..]| < |es| { BodyCut(d, 4, |es|, p[|h|..]); }
        else {
          OpeningComplete(d, OpenArr(|es|), p[|h|..]);
          ItemsTruncated(d, es, p[|h|..], depth + 1);
        }
      case Map(es) =>
        var h := EncodeHead(5, |es|);
        WhereCut(h, EncodeEntries(es), p);
        if p < h { HeadCut(d, 5, |es|, p); }
        else if |p[|h|..]| < |es| { BodyCut(d, 5, |es|, p[|h|..]); }
        else {
          OpeningComplete(d, OpenMap(|es|), p[|h|..]);
          EntriesTruncated(d, es, None, p[|h|..], depth + 1);
        }
      case _ =>
    }
  }

  lemma StringCut(d: Dialect, major: nat, s: bytes, p: bytes)
    requires (major == 2 || major == 3) && |s| < 0x1_0000_0000_0000_0000 && p != [] && p < EncodeHead(major, |s|) + s
    ensures DecodeOpening(d, p) == Err(Truncated)
  {
    hide DecodeOpening, EncodeHead;
    var h := EncodeHead(major, |s|);
    WhereCut(h, s, p);
    if p < h { HeadCut(d, major, |s|, p); } else { BodyCut(d, major, |s|, p[|h|..]); }
  }

  lemma {:induction false} ItemsTruncated(d: Dialect, es: seq<Value>, p: bytes, depth: nat)
    requires WellFormedItems(d, es) && depth + DepthItems(es) <= 9 && p < EncodeItems(es)
    ensures DecodeItems(d, p, |es|, depth) == Err(Truncated)
    decreases es, 0
  {
    hide Decode, Encode, WellFormed, Depth;
    var h := Encode(es[0]);
    WhereCut(h, EncodeItems(es[1..]), p);
    if p < h {
      PrefixTruncated(d, es[0], p, depth);
    } else {
      DecodeComplete(d, es[0], p[|h|..], depth);
      ItemsTruncated(d, es[1..], p[|h|..], depth);
    }
  }

  lemma {:induction false} EntriesTruncated(d: Dialect, es: seq<Entry>, prev: Option<bytes>, p: bytes, depth: nat)
    requires WellFormedEntries(d, es, prev) && depth + DepthEntries(es) <= 9 && p < EncodeEntries(es)
    ensures DecodeEntries(d, p, |es|, prev, depth) == Err(Truncated)
    decreases es, 0
  {
    hide Decode, Encode, WellFormed, Depth, KeyLess;
    var k, v := Encode(es[0].key), Encode(es[0].val);
    assert EncodeEntries(es) == k + (v + EncodeEntries(es[1..]));
    WhereCut(k, v + EncodeEntries(es[1..]), p);
    if p < k {
      PrefixTruncated(d, es[0].key, p, depth);
    } else {
      var q := p[|k|..];
      DecodeComplete(d, es[0].key, q, depth);
      WhereCut(v, EncodeEntries(es[1..]), q);
      if q < v {
        PrefixTruncated(d, es[0].val, q, depth);
      } else {
        DecodeComplete(d, es[0].val, q[|v|..], depth);
        EntriesTruncated(d, es[1..], Some(es[0].keyEnc), q[|v|..], depth);
      }
    }
  }

  /** Of any decodable value: each strict prefix of its encoding is truncated, each strict extension trails. */
  lemma PrefixesAndExtensions(d: Dialect, v: Value, b: bytes)
    requires WellFormed(d, v) && Depth(v) <= 8
    ensures b < Encode(v) ==> DecodeTop(d, b) == Err(Truncated)
    ensures Encode(v) < b ==> DecodeTop(d, b) == Err(Trailing)
  {
    hide Decode, Encode, WellFormed, Depth;
    if b < Encode(v) { PrefixTruncated(d, v, b, 1); }
    if Encode(v) < b {
      var e := Encode(v);
      assert b == e + b[|e|..];
      DecodeComplete(d, v, b[|e|..], 1);
    }
  }

  // ---------- forbidden forms ----------

  /** Indefinite lengths, reserved additional information, tags, and simple values other than the three. */
  lemma ForbiddenForms(d: Dialect, b: bytes)
    requires |b| >= 1
    ensures b[0] / 32 < 7 && b[0] % 32 == 31 ==> DecodeTop(d, b) == Err(Indefinite)
    ensures b[0] / 32 < 7 && 28 <= b[0] % 32 <= 30 ==> DecodeTop(d, b) == Err(Unsupported)
    ensures 0xc0 <= b[0] <= 0xd7 ==> DecodeTop(d, b) == Err(Unsupported)
    ensures b[0] >= 0xe0 && b[0] !in {0xf4, 0xf5, 0xf6} ==> DecodeTop(d, b) == Err(Unsupported)
  {
    hide ShortestArg;
  }

  /** An argument in more octets than it needs. */
  lemma LongForms(d: Dialect, major: nat, w: nat, arg: nat, rest: bytes)
    requires major < 7
    requires (w == 1 && arg < 24) || (w == 2 && arg < 0x100) || (w == 4 && arg < 0x1_0000) || (w == 8 && arg < 0x1_0000_0000)
    ensures var ai := if w == 1 then 24 else if w == 2 then 25 else if w == 4 then 26 else 27;
            DecodeTop(d, [major * 32 + ai] + Be(arg, w) + rest) == Err(NotShortest)
  {
    hide Be, FromBe;
    PowValues();
    var ai := if w == 1 then 24 else if w == 2 then 25 else if w == 4 then 26 else 27;
    var b := [major * 32 + ai] + Be(arg, w) + rest;
    BeRoundTrip(arg, w);
    assert b[1..1 + w] == Be(arg, w);
    assert b[0] / 32 == major && b[0] % 32 == ai;
  }

  /** A second key that does not sort strictly after the first, whatever follows it. */
  lemma OutOfOrder(d: Dialect, k: Value, v: Value, j: Value, rest: bytes)
    requires WellFormed(d, k) && WellFormed(d, v) && WellFormed(d, j) && Depth(k) <= 7 && Depth(v) <= 7 && Depth(j) <= 7
    requires !KeyLess(d, Encode(k), Encode(j))
    ensures DecodeTop(d, [0xa2] + Encode(k) + Encode(v) + Encode(j) + rest) == Err(MapOrder)
  {
    hide Encode, WellFormed, Depth, KeyLess, DecodeOpening;
    var afterKey := Encode(v) + (Encode(j) + rest);
    var body := Encode(k) + afterKey;
    assert [0xa2] + Encode(k) + Encode(v) + Encode(j) + rest == [0xa2] + body;
    assert EncodeHead(5, 2) == [0xa2] by { assert Be(2, 0) == []; }
    OpeningComplete(d, OpenMap(2), body);
    DecodeComplete(d, k, afterKey, 2);
    DecodeComplete(d, v, Encode(j) + rest, 2);
    DecodeComplete(d, j, rest, 2);
    SecondKeyRefused(d, k, v, j, rest);
  }

  lemma SecondKeyRefused(d: Dialect, k: Value, v: Value, j: Value, rest: bytes)
    requires Decode(d, Encode(k) + (Encode(v) + (Encode(j) + rest)), 2) == Ok((k, Encode(v) + (Encode(j) + rest)))
    requires Decode(d, Encode(v) + (Encode(j) + rest), 2) == Ok((v, Encode(j) + rest))
    requires Decode(d, Encode(j) + rest, 2) == Ok((j, rest)) && !KeyLess(d, Encode(k), Encode(j))
    ensures DecodeEntries(d, Encode(k) + (Encode(v) + (Encode(j) + rest)), 2, None, 2) == Err(MapOrder)
  {
    hide Encode, Decode, KeyLess;
    assert DecodeEntries(d, Encode(j) + rest, 1, Some(Encode(k)), 2) == Err(MapOrder);
  }
}
