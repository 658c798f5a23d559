/** Orders on encoded keys, and what they say about maps keyed by unsigned integers. */
module CborOrder {
  import opened Bytes
  import opened Cbor
  import opened CborTheorems

  // ---------- the bytewise order is a strict total order ----------

  lemma {:induction false} LexIrreflexive(a: bytes)
    ensures !LexLess(a, a)
  {
    if a != [] { LexIrreflexive(a[1..]); }
  }

  lemma {:induction false} LexTransitive(a: bytes, b: bytes, c: bytes)
    requires LexLess(a, b) && LexLess(b, c)
    ensures LexLess(a, c)
  {
    if a != [] && a[0] == b[0] == c[0] { LexTransitive(a[1..], b[1..], c[1..]); }
  }

  lemma {:induction false} LexTotal(a: bytes, b: bytes)
    ensures LexLess(a, b) || LexLess(b, a) || a == b
  {
    if a != [] && b != [] && a[0] == b[0] {
      LexTotal(a[1..], b[1..]);
      assert a == [a[0]] + a[1..] && b == [b[0]] + b[1..];
    }
  }

  lemma KeyLessStrict(d: Dialect, a: bytes, b: bytes, c: bytes)
    ensures !KeyLess(d, a, a)
    ensures KeyLess(d, a, b) && KeyLess(d, b, c) ==> KeyLess(d, a, c)
    ensures KeyLess(d, a, b) || KeyLess(d, b, a) || a == b
  {
    LexIrreflexive(a);
    LexTotal(a, b);
    if LexLess(a, b) && LexLess(b, c) { LexTransitive(a, b, c); }
  }

  // ---------- unsigned keys sort numerically, in both dialects ----------

  lemma {:induction false} LexFront(a: bytes, b: bytes, x: bytes, y: bytes)
    requires |a| == |b|
    ensures LexLess(a, b) ==> LexLess(a + x, b + y)
    ensures a == b ==> LexLess(a + x, b + y) == LexLess(x, y)
  {
    if a == [] {
      assert a + x == x && b + y == y;
    } else {
      LexFront(a[1..], b[1..], x, y);
      assert (a + x)[1..] == a[1..] + x && (b + y)[1..] == b[1..] + y;
    }
  }

  lemma {:induction false} BeOrder(v: nat, w: nat, k: nat)
    requires v < w < Pow256(k)
    ensures LexLess(Be(v, k), Be(w, k))
  {
    if k > 0 {
      LexFront(Be(v / 256, k - 1), Be(w / 256, k - 1), [v % 256], [w % 256]);
      if v / 256 < w / 256 { BeOrder(v / 256, w / 256, k - 1); }
    }
  }

  lemma UintAscends(d: Dialect, a: nat, b: nat)
    requires a < b < U64_LIMIT
    ensures KeyLess(d, Encode(Uint(a)), Encode(Uint(b)))
  {
    PowValues();
    var (ai, aw) := HeadShape(a);
    var (bi, bw) := HeadShape(b);
    LexFront([ai], [bi], Be(a, aw), Be(b, bw));
    if ai == bi { BeOrder(a, b, aw); }
  }

  /** Sorting unsigned keys by their encodings is sorting them by value, lexicographic or length first. */
  lemma UintKeyOrder(d: Dialect, a: nat, b: nat)
    requires a < U64_LIMIT && b < U64_LIMIT
    ensures KeyLess(d, Encode(Uint(a)), Encode(Uint(b))) <==> a < b
  {
    hide Encode, LexLess;
    var x, y := Encode(Uint(a)), Encode(Uint(b));
    if a < b { UintAscends(d, a, b); }
    if b < a { UintAscends(d, b, a); KeyLessStrict(d, x, y, x); }
    if a == b { KeyLessStrict(d, x, y, x); }
  }

  /** Only an unsigned integer encodes as one. */
  lemma EncodesUint(v: Value, k: nat)
    requires WellFormed(Go, v) && k < U64_LIMIT
    ensures Encode(v) == Encode(Uint(k)) <==> v == Uint(k)
  {
    hide Encode, DecodeTop;
    RoundTrip(Go, v);
    RoundTrip(Go, Uint(k));
  }

  // ---------- looking a key up ----------

  /** The value under an unsigned key, found by comparing encodings. */
  function Lookup(es: seq<Entry>, key: nat): Option<Value> {
    if es == [] then None
    else if es[0].keyEnc == Encode(Uint(key)) then Some(es[0].val)
    else Lookup(es[1..], key)
  }

  lemma {:induction false} LookupAbsent(es: seq<Entry>, prev: bytes, key: nat)
    requires WellFormedEntries(Go, es, Some(prev)) && key < U64_LIMIT
    requires !LexLess(prev, Encode(Uint(key)))
    ensures forall e <- es :: e.key != Uint(key)
    decreases es, 0
  {
    hide WellFormed, Encode, LexLess;
    if es != [] {
      var enc := Encode(Uint(key));
      if LexLess(es[0].keyEnc, enc) { LexTransitive(prev, es[0].keyEnc, enc); }
      LookupAbsent(es[1..], es[0].keyEnc, key);
      assert es == [es[0]] + es[1..];
    }
  }

  /** Scanning for a key finds the one entry that has it, and nothing else. */
  lemma {:induction false} LookupFinds(es: seq<Entry>, prev: Option<bytes>, key: nat)
    requires WellFormedEntries(Go, es, prev) && key < U64_LIMIT
    ensures forall e <- es :: e.key == Uint(key) ==> Lookup(es, key) == Some(e.val)
    ensures Lookup(es, key).Some? <==> exists e <- es :: e.key == Uint(key)
    decreases es, 0
  {
    hide WellFormed, Encode, LexLess;
    if es != [] {
      EncodesUint(es[0].key, key);
      LookupFinds(es[1..], Some(es[0].keyEnc), key);
      assert es == [es[0]] + es[1..];
      if es[0].key == Uint(key) {
        LexIrreflexive(es[0].keyEnc);
        LookupAbsent(es[1..], es[0].keyEnc, key);
        assert es[0] in es;
      }
    }
  }

  // ---------- the two decoders against each other ----------

  /** Every map, also inside keys, lists its keys in non-decreasing order of encoded length. */
  predicate KeysLengthen(v: Value)
    decreases v, 0
  {
    match v
    case Arr(es) => KeysLengthenItems(es)
    case Map(es) => KeysLengthenEntries(es, 0)
    case _ => true
  }

  predicate KeysLengthenItems(es: seq<Value>)
    decreases es, 0
  {
    es == [] || (KeysLengthen(es[0]) && KeysLengthenItems(es[1..]))
  }

  predicate KeysLengthenEntries(es: seq<Entry>, least: nat)
    decreases es, 0
  {
    es == [] ||
    (&& KeysLengthen(es[0].key) && least <= |es[0].keyEnc| && KeysLengthen(es[0].val)
     && KeysLengthenEntries(es[1..], |es[0].keyEnc|))
  }

  /** Every map is keyed by unsigned integers. */
  predicate UintKeyed(v: Value)
    decreases v, 0
  {
    match v
    case Arr(es) => UintKeyedItems(es)
    case Map(es) => UintKeyedEntries(es)
    case _ => true
  }

  predicate UintKeyedItems(es: seq<Value>)
    decreases es, 0
  {
    es == [] || (UintKeyed(es[0]) && UintKeyedItems(es[1..]))
  }

  predicate UintKeyedEntries(es: seq<Entry>)
    decreases es, 0
  {
    es == [] || (es[0].key.Uint? && UintKeyed(es[0].val) && UintKeyedEntries(es[1..]))
  }

  /** Every negative integer is one int64 can hold. */
  predicate Int64Only(v: Value)
    decreases v, 0
  {
    match v
    case Int(i) => -0x8000_0000_0000_0000 <= i
    case Arr(es) => Int64OnlyItems(es)
    case Map(es) => Int64OnlyEntries(es)
    case _ => true
  }

  predicate Int64OnlyItems(es: seq<Value>)
    decreases es, 0
  {
    es == [] || (Int64Only(es[0]) && Int64OnlyItems(es[1..]))
  }

  predicate Int64OnlyEntries(es: seq<Entry>)
    decreases es, 0
  {
    es == [] || (Int64Only(es[0].key) && Int64Only(es[0].val) && Int64OnlyEntries(es[1..]))
  }

  lemma {:induction false} GoShapes(v: Value)
    requires WellFormed(Go, v)
    ensures WellFormed(CSharp, v) <==> KeysLengthen(v)
    decreases v, 0
  {
    match v
    case Arr(es) => GoShapesItems(es);
    case Map(es) => GoShapesEntries(es, None);
    case _ =>
  }

  lemma {:induction false} GoShapesItems(es: seq<Value>)
    requires WellFormedItems(Go, es)
    ensures WellFormedItems(CSharp, es) <==> KeysLengthenItems(es)
    decreases es, 0
  {
    hide WellFormed, KeysLengthen;
    if es != [] {
      GoShapes(es[0]);
      GoShapesItems(es[1..]);
    }
  }

  lemma {:induction false} GoShapesEntries(es: seq<Entry>, prev: Option<bytes>)
    requires WellFormedEntries(Go, es, prev)
    ensures WellFormedEntries(CSharp, es, prev) <==> KeysLengthenEntries(es, if prev.Some? then |prev.value| else 0)
    decreases es, 0
  {
    hide WellFormed, KeysLengthen, LexLess, Encode;
    if es != [] {
      GoShapes(es[0].key);
      GoShapes(es[0].val);
      GoShapesEntries(es[1..], Some(es[0].keyEnc));
    }
  }

  lemma {:induction false} UintShapes(v: Value)
    requires UintKeyed(v)
    ensures WellFormed(Go, v) <==> WellFormed(CSharp, v) && Int64Only(v)
    decreases v, 0
  {
    match v
    case Arr(es) => UintShapesItems(es);
    case Map(es) => UintShapesEntries(es, None);
    case _ =>
  }

  lemma {:induction false} UintShapesItems(es: seq<Value>)
    requires UintKeyedItems(es)
    ensures WellFormedItems(Go, es) <==> WellFormedItems(CSharp, es) && Int64OnlyItems(es)
    decreases es, 0
  {
    hide WellFormed, UintKeyed, Int64Only;
    if es != [] {
      UintShapes(es[0]);
      UintShapesItems(es[1..]);
    }
  }

  predicate UintEncoding(e: bytes) {
    exists u: nat :: u < U64_LIMIT && e == Encode(Uint(u))
  }

  lemma UintEncodingsOrder(a: bytes, b: bytes)
    requires UintEncoding(a) && UintEncoding(b)
    ensures KeyLess(Go, a, b) <==> KeyLess(CSharp, a, b)
  {
    hide Encode, KeyLess;
    var x: nat :| x < U64_LIMIT && a == Encode(Uint(x));
    var y: nat :| y < U64_LIMIT && b == Encode(Uint(y));
    UintKeyOrder(Go, x, y);
    UintKeyOrder(CSharp, x, y);
  }

  lemma {:induction false} UintShapesEntries(es: seq<Entry>, prev: Option<bytes>)
    requires UintKeyedEntries(es)
    requires prev.Some? ==> UintEncoding(prev.value)
    ensures WellFormedEntries(Go, es, prev) <==> WellFormedEntries(CSharp, es, prev) && Int64OnlyEntries(es)
    decreases es, 0
  {
    hide WellFormed, UintKeyed, KeyLess, Encode;
    if es != [] {
      var key := es[0].key;
      UintShapes(es[0].val);
      KeyIsWellFormed(key);
      if key.u < U64_LIMIT && es[0].keyEnc == Encode(key) {
        assert UintEncoding(es[0].keyEnc) by { assert key == Uint(key.u); }
        UintShapesEntries(es[1..], Some(es[0].keyEnc));
        if prev.Some? { UintEncodingsOrder(prev.value, es[0].keyEnc); }
      }
    }
  }

  lemma KeyIsWellFormed(key: Value)
    requires key.Uint?
    ensures forall d :: WellFormed(d, key) <==> key.u < U64_LIMIT
  {}

  // ---------- neither decoder can read the other's tree differently ----------

  lemma {:induction false} SameTree(b: bytes, depth: nat)
    requires Decode(Go, b, depth).Ok? && Decode(CSharp, b, depth).Ok?
    ensures Decode(Go, b, depth) == Decode(CSharp, b, depth)
    decreases |b|, 0
  {
    hide DecodeItems, DecodeEntries, DecodeArg;
    var (o, rest) := DecodeOpening(Go, b).value;
    assert DecodeOpening(CSharp, b) == Ok((o, rest));
    match o
    case Leaf(_) =>
    case OpenArr(n) => SameItems(rest, n, depth + 1);
    case OpenMap(n) => SameEntries(rest, n, None, depth + 1);
  }

  lemma {:induction false} SameItems(b: bytes, count: nat, depth: nat)
    requires DecodeItems(Go, b, count, depth).Ok? && DecodeItems(CSharp, b, count, depth).Ok?
    ensures DecodeItems(Go, b, count, depth) == DecodeItems(CSharp, b, count, depth)
    decreases |b|, 1, count
  {
    hide Decode;
    if count > 0 {
      SameTree(b, depth);
      SameItems(Decode(Go, b, depth).value.1, count - 1, depth);
    }
  }

  lemma {:induction false} SameEntries(b: bytes, count: nat, prev: Option<bytes>, depth: nat)
    requires DecodeEntries(Go, b, count, prev, depth).Ok? && DecodeEntries(CSharp, b, count, prev, depth).Ok?
    ensures DecodeEntries(Go, b, count, prev, depth) == DecodeEntries(CSharp, b, count, prev, depth)
    decreases |b|, 1, count
  {
    hide Decode, Encode, KeyLess;
    if count > 0 {
      SameTree(b, depth);
      var (key, afterKey) := Decode(Go, b, depth).value;
      SameTree(afterKey, depth);
      SameEntries(Decode(Go, afterKey, depth).value.1, count - 1, Some(Encode(key)), depth);
    }
  }

  /**
   * An input the Go decoder accepts is accepted by the C# decoder, and then with the same tree,
   * exactly when every map's keys come in non-decreasing encoded length.
   */
  lemma CSharpAcceptsGo(b: bytes, v: Value)
    requires DecodeTop(Go, b) == Ok(v)
    ensures DecodeTop(CSharp, b).Ok? <==> KeysLengthen(v)
    ensures DecodeTop(CSharp, b).Ok? ==> DecodeTop(CSharp, b) == Ok(v)
  {
    hide Decode, KeysLengthen;
    Canonical(Go, b, v);
    Canonical(CSharp, b, v);
    GoShapes(v);
    if DecodeTop(CSharp, b).Ok? { SameTree(b, 1); }
  }

  /** Keyed by unsigned integers, an input is accepted by both or by neither, but for negatives beyond int64. */
  lemma DialectsAgree(b: bytes, v: Value)
    requires UintKeyed(v)
    ensures DecodeTop(Go, b) == Ok(v) <==> DecodeTop(CSharp, b) == Ok(v) && Int64Only(v)
  {
    hide *;
    Canonical(Go, b, v);
    Canonical(CSharp, b, v);
    UintShapes(v);
  }

  lemma TwoEntries(d: Dialect, e: Entry, f: Entry)
    requires WellFormed(d, e.key) && e.keyEnc == Encode(e.key) && WellFormed(d, e.val)
    requires WellFormed(d, f.key) && f.keyEnc == Encode(f.key) && WellFormed(d, f.val)
    requires KeyLess(d, e.keyEnc, f.keyEnc)
    ensures WellFormed(d, Map([e, f]))
    ensures Depth(Map([e, f])) == 1 + Max(Max(Depth(e.key), Depth(e.val)), Max(Depth(f.key), Depth(f.val)))
    ensures Encode(Map([e, f])) == [0xa2] + e.keyEnc + Encode(e.val) + f.keyEnc + Encode(f.val)
    ensures KeysLengthen(Map([e, f])) ==> |e.keyEnc| <= |f.keyEnc|
  {
    hide WellFormed, Depth, Encode, KeyLess, KeysLengthen;
    var es := [e, f];
    assert es[1..] == [f] && [f][1..] == [];
    assert WellFormedEntries(d, [f], Some(e.keyEnc));
    assert WellFormedEntries(d, es, None);
    assert EncodeEntries([f]) == f.keyEnc + Encode(f.val);
    assert EncodeEntries(es) == e.keyEnc + Encode(e.val) + EncodeEntries([f]);
    assert DepthEntries([f]) == Max(Depth(f.key), Depth(f.val));
    MapParts(d, es);
    MapLengthens(es);
    assert EncodeHead(5, 2) == [0xa2] by { assert Be(2, 0) == []; }
  }

  lemma MapLengthens(es: seq<Entry>)
    ensures KeysLengthen(Map(es)) <==> KeysLengthenEntries(es, 0)
  {}

  /** The orders do part: keys 256 and "a" in that order are canonical for Go and refused by C#. */
  lemma DialectsDiffer()
    ensures var v := Map([Entry([0x19, 1, 0], Uint(256), Null), Entry([0x61, 0x61], Text([0x61]), Null)]);
            DecodeTop(Go, Encode(v)) == Ok(v) && DecodeTop(CSharp, Encode(v)).Err?
  {
    var e1, e2 := Entry([0x19, 1, 0], Uint(256), Null), Entry([0x61, 0x61], Text([0x61]), Null);
    assert Encode(e1.key) == e1.keyEnc by { assert Be(256, 2) == [1, 0]; }
    assert Encode(e2.key) == e2.keyEnc by { assert Be(1, 0) == []; }
    TwoEntries(Go, e1, e2);
    Canonical(Go, Encode(Map([e1, e2])), Map([e1, e2]));
    CSharpAcceptsGo(Encode(Map([e1, e2])), Map([e1, e2]));
  }

  // ---------- and the other way round ----------

  /** Every map, also inside keys, lists its keys in ascending lexicographic order of their encodings. */
  predicate KeysAscend(v: Value)
    decreases v, 0
  {
    match v
    case Arr(es) => KeysAscendItems(es)
    case Map(es) => KeysAscendEntries(es, None)
    case _ => true
  }

  predicate KeysAscendItems(es: seq<Value>)
    decreases es, 0
  {
    es == [] || (KeysAscend(es[0]) && KeysAscendItems(es[1..]))
  }

  predicate KeysAscendEntries(es: seq<Entry>, prev: Option<bytes>)
    decreases es, 0
  {
    es == [] ||
    (&& KeysAscend(es[0].key) && (prev.Some? ==> LexLess(prev.value, es[0].keyEnc)) && KeysAscend(es[0].val)
     && KeysAscendEntries(es[1..], Some(es[0].keyEnc)))
  }

  lemma {:induction false} CSharpShapes(v: Value)
    requires WellFormed(CSharp, v)
    ensures WellFormed(Go, v) <==> Int64Only(v) && KeysAscend(v)
    decreases v, 0
  {
    match v
    case Arr(es) => CSharpShapesItems(es);
    case Map(es) => CSharpShapesEntries(es, None);
    case _ =>
  }

  lemma {:induction false} CSharpShapesItems(es: seq<Value>)
    requires WellFormedItems(CSharp, es)
    ensures WellFormedItems(Go, es) <==> Int64OnlyItems(es) && KeysAscendItems(es)
    decreases es, 0
  {
    hide WellFormed, Int64Only, KeysAscend;
    if es != [] {
      CSharpShapes(es[0]);
      CSharpShapesItems(es[1..]);
    }
  }

  lemma {:induction false} CSharpShapesEntries(es: seq<Entry>, prev: Option<bytes>)
    requires WellFormedEntries(CSharp, es, prev)
    ensures WellFormedEntries(Go, es, prev) <==> Int64OnlyEntries(es) && KeysAscendEntries(es, prev)
    decreases es, 0
  {
    hide WellFormed, Int64Only, KeysAscend, LexLess, Encode;
    if es != [] {
      CSharpShapes(es[0].key);
      CSharpShapes(es[0].val);
      CSharpShapesEntries(es[1..], Some(es[0].keyEnc));
    }
  }

  /**
   * An input the C# decoder accepts is accepted by the Go decoder, and then with the same tree, exactly
   * when every negative integer fits int64 and every map's keys ascend lexicographically.
   */
  lemma GoAcceptsCSharp(b: bytes, v: Value)
    requires DecodeTop(CSharp, b) == Ok(v)
    ensures DecodeTop(Go, b).Ok? <==> Int64Only(v) && KeysAscend(v)
    ensures DecodeTop(Go, b).Ok? ==> DecodeTop(Go, b) == Ok(v)
  {
    hide Decode, Int64Only, KeysAscend;
    Canonical(Go, b, v);
    Canonical(CSharp, b, v);
    CSharpShapes(v);
    if DecodeTop(Go, b).Ok? { SameTree(b, 1); }
  }

  /** Keys "a" and 256 in that order are canonical for C# and refused by Go. */
  lemma DialectsDifferBack()
    ensures var v := Map([Entry([0x61, 0x61], Text([0x61]), Null), Entry([0x19, 1, 0], Uint(256), Null)]);
            DecodeTop(CSharp, Encode(v)) == Ok(v) && DecodeTop(Go, Encode(v)).Err?
  {
    var e1, e2 := Entry([0x61, 0x61], Text([0x61]), Null), Entry([0x19, 1, 0], Uint(256), Null);
    assert Encode(e2.key) == e2.keyEnc by { assert Be(256, 2) == [1, 0]; }
    assert Encode(e1.key) == e1.keyEnc by { assert Be(1, 0) == []; }
    TwoEntries(CSharp, e1, e2);
    var es := [e1, e2];
    Canonical(CSharp, Encode(Map(es)), Map(es));
    GoAcceptsCSharp(Encode(Map(es)), Map(es));
    assert es[1..] == [e2];
    assert !LexLess(e1.keyEnc, e2.keyEnc);
    assert !KeysAscendEntries([e2], Some(e1.keyEnc));
    assert !KeysAscendEntries(es, None);
  }
}
