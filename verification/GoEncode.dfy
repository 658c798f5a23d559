/**
 * The encoder's way back from portable Go values: every map, at every level, is listed in whatever
 * order iteration yields, sorted by encoded key, and only then are its values encoded.
 */
module GoEncode {
  import opened Bytes
  import opened Cbor
  import opened CborTheorems
  import opened CborOrder
  import GoCbor
  import opened GoMaps

  /** A map entry before its value is encoded. */
  datatype RawEntry = RawEntry(keyEnc: bytes, key: nat, val: GoValue)

  predicate Keyed(r: RawEntry) { r.key < U64_LIMIT && r.keyEnc == Encode(Uint(r.key)) }

  /** Map keys are 64-bit, at every level. */
  predicate KeysFit(g: GoValue)
    decreases g
  {
    match g
    case GoScalar(_) => true
    case GoSlice(gs) => forall i :: 0 <= i < |gs| ==> KeysFit(gs[i])
    case GoMap(_) => forall k :: k in g.m ==> k < U64_LIMIT && KeysFit(g.m[k])
  }

  /** The tree entries that raw entries stand for. */
  function Convert(rs: seq<RawEntry>): (es: seq<Entry>)
    ensures |es| == |rs| && forall i :: 0 <= i < |rs| ==> es[i] == UintEntry(rs[i].key, ToValue(rs[i].val))
  {
    seq(|rs|, i requires 0 <= i < |rs| => UintEntry(rs[i].key, ToValue(rs[i].val)))
  }

  lemma ConvertInsert(s: seq<RawEntry>, e: RawEntry, j: nat)
    requires j <= |s|
    ensures Convert(s[..j] + [e] + s[j..]) == Convert(s)[..j] + [UintEntry(e.key, ToValue(e.val))] + Convert(s)[j..]
  {
    hide Encode, ToValue;
  }

  method InsertByKey(s: seq<RawEntry>, e: RawEntry) returns (t: seq<RawEntry>)
    requires Ascending(Convert(s)) && Keyed(e) && forall f <- s :: Keyed(f) && f.key != e.key
    ensures Ascending(Convert(t)) && multiset(Convert(t)) == multiset(Convert(s)) + multiset{UintEntry(e.key, ToValue(e.val))}
    ensures forall r <- t :: r in s || r == e
  {
    hide Encode, LexLess, Ascending, ToValue, Convert;
    var j := |s|;
    while j > 0
      invariant 0 <= j <= |s|
      invariant forall k :: j <= k < |s| ==> LexLess(e.keyEnc, s[k].keyEnc)
    {
      var less := GoCbor.ByteLess(e.keyEnc, s[j - 1].keyEnc);
      if !less { break; }
      j := j - 1;
    }
    t := s[..j] + [e] + s[j..];
    ghost var es, x := Convert(s), UintEntry(e.key, ToValue(e.val));
    ConvertInsert(s, e, j);
    InsertAdds(es, x, j);
    assert forall k :: 0 <= k < |s| ==> s[k] in s && es[k].keyEnc == s[k].keyEnc;
    if j > 0 { BelowPrevious(es, x, j); }
    InsertAscends(es, x, j);
  }

  /** A sort by `byteLess` on the encoded keys of distinct unsigned keys. */
  method SortByKey(rs: seq<RawEntry>) returns (s: seq<RawEntry>)
    requires (forall r <- rs :: Keyed(r)) && forall i, j :: 0 <= i < j < |rs| ==> rs[i].key != rs[j].key
    ensures Ascending(Convert(s)) && multiset(Convert(s)) == multiset(Convert(rs))
    ensures forall r <- s :: r in rs
  {
    hide Encode, LexLess, ToValue, Keyed, Convert;
    s := [];
    assert Convert(rs[..0]) == [] && Convert(s) == [];
    for i := 0 to |rs|
      invariant Ascending(Convert(s)) && multiset(Convert(s)) == multiset(Convert(rs[..i]))
      invariant forall r <- s :: r in rs[..i]
    {
      assert Convert(rs[..i + 1]) == Convert(rs[..i]) + [UintEntry(rs[i].key, ToValue(rs[i].val))];
      assert forall r <- rs[..i] :: r in rs[..i + 1];
      assert rs[i] in rs[..i + 1];
      s := InsertByKey(s, rs[i]);
    }
    assert rs[..|rs|] == rs;
  }

  /** Collects the bindings in whatever order the map yields them, then sorts by encoded key. */
  method NewCborMapU(g: GoValue) returns (rs: seq<RawEntry>)
    requires g.GoMap? && forall k :: k in g.m ==> k < U64_LIMIT
    ensures Convert(rs) == SortedEntries(Bindings(g), U64_LIMIT)
    ensures forall r <- rs :: Keyed(r) && r.key in g.m && r.val == g.m[r.key]
  {
    hide Encode, LexLess, SortedEntries, ToValue, Convert;
    rs := [];
    var left := g.m.Keys;
    while left != {}
      invariant left <= g.m.Keys
      invariant forall r <- rs :: Keyed(r) && r.key in g.m && r.key !in left && r.val == g.m[r.key]
      invariant forall k :: k in g.m && k !in left ==> RawEntry(Encode(Uint(k)), k, g.m[k]) in rs
      invariant forall i, j :: 0 <= i < j < |rs| ==> rs[i].key != rs[j].key
    {
      var k :| k in left;
      assert forall r <- rs :: r.key != k;
      rs := rs + [RawEntry(Encode(Uint(k)), k, g.m[k])];
      left := left - {k};
    }
    ghost var collected := rs;
    rs := SortByKey(rs);
    CollectedLists(g, collected);
    ReorderedLists(Convert(collected), Convert(rs), Bindings(g));
    SortedListIsUnique(Convert(rs), Bindings(g), U64_LIMIT);
  }

  lemma CollectedLists(g: GoValue, rs: seq<RawEntry>)
    requires g.GoMap? && forall r <- rs :: Keyed(r) && r.key in g.m && r.val == g.m[r.key]
    requires forall k :: k in g.m ==> RawEntry(Encode(Uint(k)), k, g.m[k]) in rs
    ensures Lists(Convert(rs), Bindings(g), U64_LIMIT)
  {
    hide Encode, ToValue, Convert;
    var es, m := Convert(rs), Bindings(g);
    assert forall i :: 0 <= i < |rs| ==> rs[i] in rs;
    forall k | k in m && k < U64_LIMIT
      ensures UintEntry(k, m[k]) in es
    {
      var i :| 0 <= i < |rs| && rs[i] == RawEntry(Encode(Uint(k)), k, g.m[k]);
      assert es[i] == UintEntry(k, m[k]);
    }
  }

  /** Encodes a portable value; the octets do not depend on any map's iteration order, at any level. */
  method EncodeGo(g: GoValue) returns (out: bytes)
    requires KeysFit(g)
    ensures out == Encode(ToValue(g))
    decreases g, 1
  {
    hide EncodeItems, EncodeEntries, SortedEntries, ToValues;
    match g
    case GoScalar(v) => out := GoCbor.CborEncode(v);
    case GoSlice(gs) =>
      var items := EncodeSlice(g);
      out := EncodeHead(4, |gs|) + items;
    case GoMap(_) =>
      var rs := NewCborMapU(g);
      var items := EncodeRaw(g, rs);
      out := EncodeHead(5, |rs|) + items;
  }

  method EncodeSlice(g: GoValue) returns (out: bytes)
    requires g.GoSlice? && KeysFit(g)
    ensures out == EncodeItems(ToValues(g.elems))
    decreases g, 0
  {
    hide Encode, ToValue;
    var gs := g.elems;
    out := [];
    for i := 0 to |gs|
      invariant EncodeItems(ToValues(gs)) == out + EncodeItems(ToValues(gs[i..]))
    {
      var e := EncodeGo(g.elems[i]);
      ghost var vs, rest := ToValues(gs[i..]), ToValues(gs[i + 1..]);
      assert gs[i..][0] == gs[i] && gs[i..][1..] == gs[i + 1..];
      assert vs == [ToValue(gs[i])] + rest && vs[0] == ToValue(gs[i]) && vs[1..] == rest;
      assert out + (e + EncodeItems(rest)) == out + e + EncodeItems(rest);
      out := out + e;
    }
    assert gs[|gs|..] == [];
  }

  method EncodeRaw(g: GoValue, rs: seq<RawEntry>) returns (out: bytes)
    requires g.GoMap? && KeysFit(g) && forall r <- rs :: Keyed(r) && r.key in g.m && r.val == g.m[r.key]
    ensures out == EncodeEntries(Convert(rs))
    decreases g, 0
  {
    hide Encode, ToValue, Convert, EncodeEntries, KeysFit;
    ghost var es := Convert(rs);
    out := [];
    assert es[0..] == es && [] + EncodeEntries(es) == EncodeEntries(es);
    for i := 0 to |rs|
      invariant EncodeEntries(es) == out + EncodeEntries(es[i..])
    {
      var r := rs[i];
      assert r in rs;
      ValueFits(g, r.key);
      var e := EncodeGo(g.m[r.key]);
      EntryStep(es, i, out);
      out := out + (r.keyEnc + e);
    }
    EntriesEnd(es, out);
  }

  lemma ValueFits(g: GoValue, k: nat)
    requires g.GoMap? && KeysFit(g) && k in g.m
    ensures KeysFit(g.m[k])
  {}

  lemma EntryStep(es: seq<Entry>, i: nat, out: bytes)
    requires i < |es|
    ensures out + EncodeEntries(es[i..]) == out + (es[i].keyEnc + Encode(es[i].val)) + EncodeEntries(es[i + 1..])
  {
    hide Encode;
    var rest := EncodeEntries(es[i + 1..]);
    assert es[i..][0] == es[i] && es[i..][1..] == es[i + 1..];
    assert EncodeEntries(es[i..]) == es[i].keyEnc + Encode(es[i].val) + rest;
  }

  lemma EntriesEnd(es: seq<Entry>, out: bytes)
    ensures out + EncodeEntries(es[|es|..]) == out
  {}

  // ---------- the round trip ----------

  lemma {:induction false} ToGoFits(v: Value)
    requires WellFormed(Go, v)
    ensures KeysFit(ToGo(v))
    decreases v, 0
  {
    hide WellFormedItems, WellFormedEntries, ToGoItems, ToGoEntries;
    match v
    case Arr(es) => ItemsFit(es);
    case Map(es) =>
      EntriesFit(es, None);
      assert ToGo(v).m == ToGoEntries(es);
    case _ =>
  }

  lemma {:induction false} ItemsFit(es: seq<Value>)
    requires WellFormedItems(Go, es)
    ensures forall i :: 0 <= i < |es| ==> KeysFit(ToGoItems(es)[i])
    decreases es, 0
  {
    hide WellFormed, ToGo, KeysFit;
    if es != [] {
      ToGoFits(es[0]);
      ItemsFit(es[1..]);
    }
  }

  predicate MapFits(m: map<nat, GoValue>) { forall k :: k in m ==> k < U64_LIMIT && KeysFit(m[k]) }

  lemma {:induction false} EntriesFit(es: seq<Entry>, prev: Option<bytes>)
    requires WellFormedEntries(Go, es, prev)
    ensures MapFits(ToGoEntries(es))
    decreases es, 0
  {
    hide WellFormed, ToGo, KeysFit, Encode, KeyLess;
    if es != [] {
      var e := es[0];
      EntriesFit(es[1..], Some(e.keyEnc));
      ToGoFits(e.val);
      if e.key.Uint? { KeyIsWellFormed(e.key); }
    }
  }

  /**
   * Decoding a body, taking it out to portable values and encoding those again, with an arbitrary
   * iteration order at every map, gives the same octets exactly when every map was keyed by unsigned
   * integers; a body that does not decode is refused with the decoder's error.
   */
  method Reencode(b: bytes) returns (r: Result<bytes>)
    ensures match DecodeTop(Go, b)
            case Err(e) => r == Err(e)
            case Ok(v) => r.Ok? && (r.value == b <==> UintKeyed(v))
  {
    hide *;
    var v := GoCbor.CborDecodeTop(b);
    if v.Err? { return Err(v.error); }
    var g := CborToGo(v.value);
    Canonical(Go, b, v.value);
    ToGoFits(v.value);
    var out := EncodeGo(g);
    PortableRoundTrip(b, v.value);
    return Ok(out);
  }
}
