/** The decoder and the encoder are exact inverses, in either dialect. */
module CborTheorems {
  import opened Bytes
  import opened Cbor

  // ---------- headers ----------

  lemma ShortestArgCanonical(b: bytes, w: nat, least: nat, arg: nat, rest: bytes)
    requires |b| >= 1
    requires ShortestArg(b, w, least) == Ok((arg, rest))
    ensures least <= arg < Pow256(w) && b == [b[0]] + Be(arg, w) + rest
  {
    FromBeBound(b[1..1 + w]);
    FromBeRoundTrip(b[1..1 + w]);
  }

  lemma HeadCanonical(b: bytes, arg: nat, rest: bytes)
    requires |b| >= 1
    requires DecodeArg(b[0] % 32, b) == Ok((arg, rest))
    ensures arg < U64_LIMIT && b == EncodeHead(b[0] / 32, arg) + rest
  {
    var ai := b[0] % 32;
    PowValues();
    if ai < 24 {
      assert b == [b[0]] + [] + b[1..];
    } else {
      var (w, least) := if ai == 24 then (1, 24) else if ai == 25 then (2, 0x100)
                        else if ai == 26 then (4, 0x1_0000) else (8, 0x1_0000_0000);
      ShortestArgCanonical(b, w, least, arg, rest);
      assert HeadShape(arg) == (ai, w);
    }
  }

  lemma HeadRoundTrip(major: nat, arg: nat, rest: bytes)
    requires major < 8 && arg < U64_LIMIT
    ensures var b := EncodeHead(major, arg) + rest;
            b[0] / 32 == major && DecodeArg(b[0] % 32, b) == Ok((arg, rest))
  {
    var b := EncodeHead(major, arg) + rest;
    var (ai, w) := HeadShape(arg);
    PowValues();
    assert b[0] == major * 32 + ai;
    assert b[1..1 + w] == Be(arg, w);
    assert b[1 + w..] == rest;
    if w > 0 { BeRoundTrip(arg, w); }
  }

  /** The octets an opening stands for. */
  function EncodeOpening(o: Opening): bytes {
    match o
    case Leaf(v) => Encode(v)
    case OpenArr(n) => EncodeHead(4, n)
    case OpenMap(n) => EncodeHead(5, n)
  }

  predicate WellFormedOpening(d: Dialect, o: Opening) {
    match o
    case Leaf(v) => WellFormed(d, v) && !v.Arr? && !v.Map?
    case OpenArr(n) => n < U64_LIMIT
    case OpenMap(n) => n < U64_LIMIT
  }

  lemma OpeningSound(d: Dialect, b: bytes)
    requires |b| >= 1 && DecodeOpening(d, b).Ok?
    ensures var (o, rest) := DecodeOpening(d, b).value;
            && WellFormedOpening(d, o) && b == EncodeOpening(o) + rest
            && (!o.Leaf? ==> o.count <= |rest|)
  {
    hide DecodeArg, EncodeHead;
    var major := b[0] / 32;
    if major == 7 {
      assert b == [b[0]] + b[1..];
    } else {
      var (arg, rest) := DecodeArg(b[0] % 32, b).value;
      HeadCanonical(b, arg, rest);
      if major == 2 || major == 3 {
        assert rest == rest[..arg] + rest[arg..];
        assert b == EncodeHead(major, arg) + rest[..arg] + rest[arg..];
      }
    }
  }

  lemma StringComplete(d: Dialect, major: nat, s: bytes, rest: bytes)
    requires (major == 2 || major == 3) && |s| < U64_LIMIT
    ensures var v := if major == 2 then ByteStr(s) else Text(s);
            DecodeOpening(d, EncodeHead(major, |s|) + s + rest) == Ok((Leaf(v), rest))
  {
    HeadRoundTrip(major, |s|, s + rest);
    assert EncodeHead(major, |s|) + s + rest == EncodeHead(major, |s|) + (s + rest);
  }

  lemma OpeningComplete(d: Dialect, o: Opening, rest: bytes)
    requires WellFormedOpening(d, o)
    requires !o.Leaf? ==> o.count <= |rest|
    ensures DecodeOpening(d, EncodeOpening(o) + rest) == Ok((o, rest))
  {
    hide DecodeArg, EncodeHead;
    match o
    case OpenArr(n) => HeadRoundTrip(4, n, rest);
    case OpenMap(n) => HeadRoundTrip(5, n, rest);
    case Leaf(ByteStr(s)) => StringComplete(d, 2, s, rest);
    case Leaf(Text(s)) => StringComplete(d, 3, s, rest);
    case Leaf(Uint(u)) => HeadRoundTrip(0, u, rest);
    case Leaf(Int(i)) => HeadRoundTrip(1, -1 - i, rest);
    case Leaf(Bool(_)) => assert (EncodeOpening(o) + rest)[1..] == rest;
    case Leaf(Null) => assert (EncodeOpening(o) + rest)[1..] == rest;
    case Leaf(Arr(_)) =>
    case Leaf(Map(_)) =>
  }

  // ---------- every accepted input is the encoding of what it decodes to ----------

  lemma ArrParts(d: Dialect, es: seq<Value>)
    ensures WellFormed(d, Arr(es)) <==> |es| < U64_LIMIT && WellFormedItems(d, es)
    ensures Depth(Arr(es)) == 1 + DepthItems(es)
    ensures Encode(Arr(es)) == EncodeHead(4, |es|) + EncodeItems(es)
  {}

  lemma MapParts(d: Dialect, es: seq<Entry>)
    ensures WellFormed(d, Map(es)) <==> |es| < U64_LIMIT && WellFormedEntries(d, es, None)
    ensures Depth(Map(es)) == 1 + DepthEntries(es)
    ensures Encode(Map(es)) == EncodeHead(5, |es|) + EncodeEntries(es)
  {}

  lemma LeafParts(d: Dialect, v: Value)
    requires WellFormedOpening(d, Leaf(v))
    ensures WellFormed(d, v) && Depth(v) == 1 && EncodeOpening(Leaf(v)) == Encode(v)
  {}

  /** What decoding makes of an opening. */
  lemma DecodeOpened(d: Dialect, b: bytes, depth: nat)
    requires Decode(d, b, depth).Ok?
    ensures depth <= MAX_DEPTH && b != [] && DecodeOpening(d, b).Ok?
    ensures var (o, rest) := DecodeOpening(d, b).value;
            match o
            case Leaf(v) => Decode(d, b, depth) == Ok((v, rest))
            case OpenArr(n) =>
              && DecodeItems(d, rest, n, depth + 1).Ok?
              && var (es, after) := DecodeItems(d, rest, n, depth + 1).value;
              Decode(d, b, depth) == Ok((Arr(es), after))
            case OpenMap(n) =>
              && DecodeEntries(d, rest, n, None, depth + 1).Ok?
              && var (es, after) := DecodeEntries(d, rest, n, None, depth + 1).value;
              Decode(d, b, depth) == Ok((Map(es), after))
  {
    hide DecodeItems, DecodeEntries, DecodeOpening;
  }

  lemma {:induction false} DecodeSound(d: Dialect, b: bytes, depth: nat)
    requires Decode(d, b, depth).Ok?
    ensures var (v, rest) := Decode(d, b, depth).value;
            WellFormed(d, v) && b == Encode(v) + rest && depth + Depth(v) <= MAX_DEPTH + 1
    decreases |b|, 0
  {
    hide Decode, DecodeItems, DecodeEntries, Encode, EncodeItems, EncodeEntries, EncodeHead, WellFormed, WellFormedItems,
         WellFormedEntries, Depth, DepthItems, DepthEntries, DecodeOpening;
    DecodeOpened(d, b, depth);
    OpeningSound(d, b);
    var (o, rest) := DecodeOpening(d, b).value;
    match o
    case Leaf(v) => LeafParts(d, v);
    case OpenArr(n) => ArrSound(d, b, rest, n, depth);
    case OpenMap(n) => MapSound(d, b, rest, n, depth);
  }

  lemma {:induction false} ArrSound(d: Dialect, b: bytes, rest: bytes, n: nat, depth: nat)
    requires depth <= MAX_DEPTH && n < U64_LIMIT && |rest| < |b| && b == EncodeHead(4, n) + rest
    requires DecodeItems(d, rest, n, depth + 1).Ok?
    ensures var (es, after) := DecodeItems(d, rest, n, depth + 1).value;
            WellFormed(d, Arr(es)) && b == Encode(Arr(es)) + after && depth + Depth(Arr(es)) <= MAX_DEPTH + 1
    decreases |rest|, 2
  {
    hide DecodeItems, Encode, EncodeItems, EncodeHead, WellFormed, WellFormedItems, Depth, DepthItems;
    var (es, after) := DecodeItems(d, rest, n, depth + 1).value;
    DecodeItemsSound(d, rest, n, depth + 1);
    ArrParts(d, es);
    assert EncodeHead(4, n) + (EncodeItems(es) + after) == EncodeHead(4, n) + EncodeItems(es) + after;
  }

  lemma {:induction false} MapSound(d: Dialect, b: bytes, rest: bytes, n: nat, depth: nat)
    requires depth <= MAX_DEPTH && n < U64_LIMIT && |rest| < |b| && b == EncodeHead(5, n) + rest
    requires DecodeEntries(d, rest, n, None, depth + 1).Ok?
    ensures var (es, after) := DecodeEntries(d, rest, n, None, depth + 1).value;
            WellFormed(d, Map(es)) && b == Encode(Map(es)) + after && depth + Depth(Map(es)) <= MAX_DEPTH + 1
    decreases |rest|, 2
  {
    hide DecodeEntries, Encode, EncodeEntries, EncodeHead, WellFormed, WellFormedEntries, Depth, DepthEntries;
    var (es, after) := DecodeEntries(d, rest, n, None, depth + 1).value;
    DecodeEntriesSound(d, rest, n, None, depth + 1);
    MapParts(d, es);
    assert EncodeHead(5, n) + (EncodeEntries(es) + after) == EncodeHead(5, n) + EncodeEntries(es) + after;
  }

  lemma {:induction false} DecodeItemsSound(d: Dialect, b: bytes, count: nat, depth: nat)
    requires DecodeItems(d, b, count, depth).Ok?
    requires depth <= MAX_DEPTH + 1
    ensures var (es, rest) := DecodeItems(d, b, count, depth).value;
            WellFormedItems(d, es) && b == EncodeItems(es) + rest && depth + DepthItems(es) <= MAX_DEPTH + 1
    decreases |b|, 1, count
  {
    hide Decode, Encode, WellFormed, Depth, KeyLess;
    if count > 0 {
      DecodeSound(d, b, depth);
      var (e, rest) := Decode(d, b, depth).value;
      DecodeItemsSound(d, rest, count - 1, depth);
      var (es, after) := DecodeItems(d, rest, count - 1, depth).value;
      assert b == Encode(e) + EncodeItems(es) + after;
      assert ([e] + es)[1..] == es;
    }
  }

  lemma NoEntries(d: Dialect, prev: Option<bytes>)
    ensures WellFormedEntries(d, [], prev) && EncodeEntries([]) == [] && DepthEntries([]) == 0
  {}

  lemma FourInARow(a: bytes, b: bytes, c: bytes, e: bytes)
    ensures a + (b + (c + e)) == a + b + c + e
  {}

  lemma EntriesCons(d: Dialect, e: Entry, es: seq<Entry>, prev: Option<bytes>)
    ensures EncodeEntries([e] + es) == e.keyEnc + Encode(e.val) + EncodeEntries(es)
    ensures DepthEntries([e] + es) == Max(Max(Depth(e.key), Depth(e.val)), DepthEntries(es))
    ensures WellFormedEntries(d, [e] + es, prev) <==>
            && WellFormed(d, e.key) && e.keyEnc == Encode(e.key) && (prev.Some? ==> KeyLess(d, prev.value, e.keyEnc))
            && WellFormed(d, e.val) && WellFormedEntries(d, es, Some(e.keyEnc))
  {
    hide Encode, Depth, WellFormed, KeyLess;
    assert ([e] + es)[1..] == es;
  }

  lemma {:induction false} DecodeEntriesSound(d: Dialect, b: bytes, count: nat, prev: Option<bytes>, depth: nat)
    requires DecodeEntries(d, b, count, prev, depth).Ok?
    requires depth <= MAX_DEPTH + 1
    ensures var (es, rest) := DecodeEntries(d, b, count, prev, depth).value;
            && WellFormedEntries(d, es, prev) && b == EncodeEntries(es) + rest
            && depth + DepthEntries(es) <= MAX_DEPTH + 1
    decreases |b|, 1, count
  {
    hide Decode, Encode, WellFormed, WellFormedEntries, Depth, KeyLess;
    if count == 0 {
      NoEntries(d, prev);
    } else {
      DecodeSound(d, b, depth);
      var (key, afterKey) := Decode(d, b, depth).value;
      DecodeSound(d, afterKey, depth);
      var (val, afterVal) := Decode(d, afterKey, depth).value;
      DecodeEntriesSound(d, afterVal, count - 1, Some(Encode(key)), depth);
      var (es, after) := DecodeEntries(d, afterVal, count - 1, Some(Encode(key)), depth).value;
      FourInARow(Encode(key), Encode(val), EncodeEntries(es), after);
      EntriesCons(d, Entry(Encode(key), key, val), es, prev);
    }
  }

  // ---------- every well-formed value shallow enough decodes back ----------

  lemma {:induction false} DecodeComplete(d: Dialect, v: Value, rest: bytes, depth: nat)
    requires WellFormed(d, v) && depth + Depth(v) <= MAX_DEPTH + 1
    ensures Decode(d, Encode(v) + rest, depth) == Ok((v, rest))
    decreases v, 0
  {
    hide DecodeItems, DecodeEntries, EncodeItems, EncodeEntries, WellFormedItems, WellFormedEntries, DepthItems,
         DepthEntries, DecodeOpening;
    match v
    case Arr(es) =>
      var tail := EncodeItems(es) + rest;
      assert Encode(v) + rest == EncodeHead(4, |es|) + tail;
      ItemsTakeOctets(es);
      OpeningComplete(d, OpenArr(|es|), tail);
      DecodeItemsComplete(d, es, rest, depth + 1);
    case Map(es) =>
      var tail := EncodeEntries(es) + rest;
      assert Encode(v) + rest == EncodeHead(5, |es|) + tail;
      EntriesTakeOctets(es);
      OpeningComplete(d, OpenMap(|es|), tail);
      DecodeEntriesComplete(d, es, None, rest, depth + 1);
    case _ => OpeningComplete(d, Leaf(v), rest);
  }

  lemma {:induction false} ItemsTakeOctets(es: seq<Value>)
    ensures |EncodeItems(es)| >= |es|
    decreases |es|
  {
    hide Encode;
    if es != [] { ItemsTakeOctets(es[1..]); }
  }

  lemma {:induction false} EntriesTakeOctets(es: seq<Entry>)
    ensures |EncodeEntries(es)| >= |es|
    decreases |es|
  {
    hide Encode;
    if es != [] { EntriesTakeOctets(es[1..]); }
  }

  lemma {:induction false} DecodeItemsComplete(d: Dialect, es: seq<Value>, rest: bytes, depth: nat)
    requires WellFormedItems(d, es) && depth + DepthItems(es) <= MAX_DEPTH + 1
    ensures DecodeItems(d, EncodeItems(es) + rest, |es|, depth) == Ok((es, rest))
    decreases es, 0
  {
    hide Decode, Encode, WellFormed, Depth;
    if es != [] {
      var tail := EncodeItems(es[1..]) + rest;
      assert EncodeItems(es) + rest == Encode(es[0]) + tail;
      DecodeComplete(d, es[0], tail, depth);
      DecodeItemsComplete(d, es[1..], rest, depth);
      assert [es[0]] + es[1..] == es;
    } else {
      assert EncodeItems(es) + rest == rest;
    }
  }

  lemma {:induction false} DecodeEntriesComplete(d: Dialect, es: seq<Entry>, prev: Option<bytes>, rest: bytes, depth: nat)
    requires WellFormedEntries(d, es, prev) && depth + DepthEntries(es) <= MAX_DEPTH + 1
    ensures DecodeEntries(d, EncodeEntries(es) + rest, |es|, prev, depth) == Ok((es, rest))
    decreases es, 0
  {
    hide Decode, Encode, WellFormed, Depth, KeyLess;
    if es != [] {
      var tail := EncodeEntries(es[1..]) + rest;
      var afterKey := Encode(es[0].val) + tail;
      assert EncodeEntries(es) + rest == Encode(es[0].key) + afterKey;
      DecodeComplete(d, es[0].key, afterKey, depth);
      DecodeComplete(d, es[0].val, tail, depth);
      DecodeEntriesComplete(d, es[1..], Some(es[0].keyEnc), rest, depth);
      assert [es[0]] + es[1..] == es;
    } else {
      assert EncodeEntries(es) + rest == rest;
    }
  }

  // ---------- a well-formed value that is too deep is refused for its depth ----------

  lemma {:induction false} DecodeTooDeep(d: Dialect, v: Value, rest: bytes, depth: nat)
    requires WellFormed(d, v) && depth + Depth(v) > MAX_DEPTH + 1
    ensures Decode(d, Encode(v) + rest, depth) == Err(DepthExceeded)
    decreases v, 0
  {
    hide DecodeItems, DecodeEntries, EncodeItems, EncodeEntries, WellFormedItems, WellFormedEntries, DepthItems,
         DepthEntries, DecodeOpening;
    if depth <= MAX_DEPTH {
      match v
      case Arr(es) =>
        var tail := EncodeItems(es) + rest;
        assert Encode(v) + rest == EncodeHead(4, |es|) + tail;
        ItemsTakeOctets(es);
        OpeningComplete(d, OpenArr(|es|), tail);
        DecodeItemsTooDeep(d, es, rest, depth + 1);
      case Map(es) =>
        var tail := EncodeEntries(es) + rest;
        assert Encode(v) + rest == EncodeHead(5, |es|) + tail;
        EntriesTakeOctets(es);
        OpeningComplete(d, OpenMap(|es|), tail);
        DecodeEntriesTooDeep(d, es, None, rest, depth + 1);
      case _ =>
    }
  }

  lemma {:induction false} DecodeItemsTooDeep(d: Dialect, es: seq<Value>, rest: bytes, depth: nat)
    requires WellFormedItems(d, es) && depth + DepthItems(es) > MAX_DEPTH + 1
    requires depth <= MAX_DEPTH + 1
    ensures DecodeItems(d, EncodeItems(es) + rest, |es|, depth) == Err(DepthExceeded)
    decreases es, 0
  {
    hide Decode, Encode, WellFormed, Depth;
    var tail := EncodeItems(es[1..]) + rest;
    assert EncodeItems(es) + rest == Encode(es[0]) + tail;
    if depth + Depth(es[0]) > MAX_DEPTH + 1 {
      DecodeTooDeep(d, es[0], tail, depth);
    } else {
      DecodeComplete(d, es[0], tail, depth);
      DecodeItemsTooDeep(d, es[1..], rest, depth);
    }
  }

  lemma {:induction false} DecodeEntriesTooDeep(d: Dialect, es: seq<Entry>, prev: Option<bytes>, rest: bytes, depth: nat)
    requires WellFormedEntries(d, es, prev) && depth + DepthEntries(es) > MAX_DEPTH + 1
    requires depth <= MAX_DEPTH + 1
    ensures DecodeEntries(d, EncodeEntries(es) + rest, |es|, prev, depth) == Err(DepthExceeded)
    decreases es, 0
  {
    hide Decode, Encode, WellFormed, Depth, KeyLess;
    var tail := EncodeEntries(es[1..]) + rest;
    var afterKey := Encode(es[0].val) + tail;
    assert EncodeEntries(es) + rest == Encode(es[0].key) + afterKey;
    if depth + Depth(es[0].key) > MAX_DEPTH + 1 {
      DecodeTooDeep(d, es[0].key, afterKey, depth);
    } else {
      DecodeComplete(d, es[0].key, afterKey, depth);
      if depth + Depth(es[0].val) > MAX_DEPTH + 1 {
        DecodeTooDeep(d, es[0].val, tail, depth);
      } else {
        DecodeComplete(d, es[0].val, tail, depth);
        DecodeEntriesTooDeep(d, es[1..], Some(es[0].keyEnc), rest, depth);
      }
    }
  }

  // ---------- main results ----------

  /**
   * Canonicity as a bijection: an input is accepted with value `v` exactly when `v` is
   * well-formed, at most eight levels deep, and the input is its one encoding.
   */
  lemma Canonical(d: Dialect, b: bytes, v: Value)
    ensures DecodeTop(d, b) == Ok(v) <==> WellFormed(d, v) && Depth(v) <= 8 && b == Encode(v)
  {
    hide Decode, Encode, WellFormed, Depth;
    assert Encode(v) + [] == Encode(v);
    if DecodeTop(d, b) == Ok(v) {
      DecodeSound(d, b, 1);
    }
    if WellFormed(d, v) && Depth(v) <= MAX_DEPTH && b == Encode(v) {
      DecodeComplete(d, v, [], 1);
    }
  }

  /** Exactly when a well-formed value survives the wire, and the error when it does not. */
  lemma RoundTrip(d: Dialect, v: Value)
    requires WellFormed(d, v)
    ensures DecodeTop(d, Encode(v)) == if Depth(v) <= 8 then Ok(v) else Err(DepthExceeded)
  {
    hide Decode, Encode, WellFormed, Depth;
    assert Encode(v) + [] == Encode(v);
    if Depth(v) <= MAX_DEPTH {
      DecodeComplete(d, v, [], 1);
    } else {
      DecodeTooDeep(d, v, [], 1);
    }
  }

  // ---------- the octets themselves ----------

  /** A header's first octet carries the major type in its top three bits; the argument takes the fewest octets it can. */
  lemma HeadOctets(major: nat, arg: nat)
    requires major < 8 && arg < 0x1_0000_0000_0000_0000
    ensures var h := EncodeHead(major, arg);
            && h[0] / 32 == major && (arg >= 24 ==> FromBe(h[1..]) == arg)
            && (arg < 24 ==> |h| == 1 && h[0] % 32 == arg)
            && (24 <= arg < 0x100 ==> |h| == 2 && h[0] % 32 == 24)
            && (0x100 <= arg < 0x1_0000 ==> |h| == 3 && h[0] % 32 == 25)
            && (0x1_0000 <= arg < 0x1_0000_0000 ==> |h| == 5 && h[0] % 32 == 26)
            && (0x1_0000_0000 <= arg ==> |h| == 9 && h[0] % 32 == 27)
  {
    hide Be, FromBe;
    PowValues();
    var (ai, w) := HeadShape(arg);
    assert EncodeHead(major, arg)[1..] == Be(arg, w);
    if arg >= 24 { BeRoundTrip(arg, w); }
  }

  /** The major type of each kind of value, what follows its header, and the three simple values. */
  lemma ValueOctets(d: Dialect, v: Value)
    requires WellFormed(d, v)
    ensures match v
            case Uint(u) => u <= 0xFFFF_FFFF_FFFF_FFFF && Encode(v) == EncodeHead(0, u)
            case Int(i) => && -0x1_0000_0000_0000_0000 <= i < 0 && (d.Go? ==> -0x8000_0000_0000_0000 <= i)
                           && Encode(v) == EncodeHead(1, -(i + 1))
            case ByteStr(bs) => Encode(v)[0] / 32 == 2 && |Encode(v)| > |bs| && Encode(v)[|Encode(v)| - |bs|..] == bs
            case Text(ts) => Encode(v)[0] / 32 == 3 && |Encode(v)| > |ts| && Encode(v)[|Encode(v)| - |ts|..] == ts
            case Arr(es) => Encode(v)[0] / 32 == 4 && Encode(v) == EncodeHead(4, |es|) + EncodeItems(es)
            case Map(es) => Encode(v)[0] / 32 == 5 && Encode(v) == EncodeHead(5, |es|) + EncodeEntries(es)
            case Bool(b) => Encode(v) == (if b then [0xf5] else [0xf4])
            case Null => Encode(v) == [0xf6]
  {
    hide EncodeItems, EncodeEntries, EncodeHead;
    match v
    case ByteStr(bs) => HeadOctets(2, |bs|);
    case Text(ts) => HeadOctets(3, |ts|);
    case Arr(es) => HeadOctets(4, |es|);
    case Map(es) => HeadOctets(5, |es|);
    case _ =>
  }
}
