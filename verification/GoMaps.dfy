/**
 * Portable Go values: decoded trees with every map turned into `map[uint64]any`, the tree such a value
 * stands for, and what the way out and back loses.
 */
module GoMaps {
  import opened Bytes
  import opened Cbor
  import opened CborTheorems
  import opened CborOrder

  datatype GoValue =
    | GoScalar(v: Value)
    | GoSlice(elems: seq<GoValue>)
    | GoMap(m: map<nat, GoValue>)

  // ---------- from a decoded tree to portable values ----------

  function ToGo(v: Value): GoValue
    decreases v, 0
  {
    match v
    case Arr(es) => GoSlice(ToGoItems(es))
    case Map(es) => GoMap(ToGoEntries(es))
    case _ => GoScalar(v)
  }

  function ToGoItems(es: seq<Value>): (gs: seq<GoValue>)
    ensures |gs| == |es|
    decreases es, 0
  {
    if es == [] then [] else [ToGo(es[0])] + ToGoItems(es[1..])
  }

  /** Entries under unsigned keys, a later one replacing an earlier; the others are dropped. */
  function ToGoEntries(es: seq<Entry>): map<nat, GoValue>
    decreases es, 0
  {
    if es == [] then map[]
    else
      var rest := ToGoEntries(es[1..]);
      if es[0].key.Uint? && es[0].key.u !in rest then rest[es[0].key.u := ToGo(es[0].val)] else rest
  }

  method CborToGo(v: Value) returns (g: GoValue)
    ensures g == ToGo(v)
    decreases v, 0
  {
    match v
    case Arr(es) =>
      var out := CopyItems(es);
      g := GoSlice(out);
    case Map(es) =>
      var out := CopyEntries(es);
      g := GoMap(out);
    case _ => g := GoScalar(v);
  }

  method CopyItems(es: seq<Value>) returns (out: seq<GoValue>)
    ensures out == ToGoItems(es)
    decreases es, 0
  {
    hide ToGo;
    out := [];
    for i := 0 to |es|
      invariant ToGoItems(es) == out + ToGoItems(es[i..])
    {
      var g := CborToGo(es[i]);
      assert es[i..][0] == es[i] && es[i..][1..] == es[i + 1..];
      out := out + [g];
    }
  }

  method CopyEntries(es: seq<Entry>) returns (out: map<nat, GoValue>)
    ensures out == ToGoEntries(es)
    decreases es, 0
  {
    hide ToGo;
    out := map[];
    for i := 0 to |es|
      invariant ToGoEntries(es) == out + ToGoEntries(es[i..])
    {
      assert es[i..][0] == es[i] && es[i..][1..] == es[i + 1..];
      if es[i].key.Uint? {
        var g := CborToGo(es[i].val);
        out := out[es[i].key.u := g];
      }
    }
  }

  // ---------- and back ----------

  function UintEntry(k: nat, v: Value): Entry { Entry(Encode(Uint(k)), Uint(k), v) }

  /** The entries with keys below `n`, in ascending numeric order. */
  function SortedEntries(m: map<nat, Value>, n: nat): seq<Entry> {
    if n == 0 then [] else SortedEntries(m, n - 1) + if n - 1 in m then [UintEntry(n - 1, m[n - 1])] else []
  }

  /** The tree a portable value encodes as. */
  function ToValue(g: GoValue): Value
    decreases g, 1
  {
    match g
    case GoScalar(v) => v
    case GoSlice(gs) => Arr(ToValues(gs))
    case GoMap(_) => Map(SortedEntries(Bindings(g), U64_LIMIT))
  }

  function Bindings(g: GoValue): map<nat, Value>
    requires g.GoMap?
    decreases g, 0
  {
    map k | k in g.m :: ToValue(g.m[k])
  }

  function ToValues(gs: seq<GoValue>): (es: seq<Value>)
    ensures |es| == |gs|
    decreases gs, 0
  {
    if gs == [] then [] else [ToValue(gs[0])] + ToValues(gs[1..])
  }

  // ---------- whatever the iteration order, sorting gives one list ----------

  ghost predicate Ascending(es: seq<Entry>) {
    forall i, j :: 0 <= i < j < |es| ==> LexLess(es[i].keyEnc, es[j].keyEnc)
  }

  predicate IsBinding(e: Entry, m: map<nat, Value>, n: nat) {
    e.key.Uint? && e.key.u in m && e.key.u < n && e == UintEntry(e.key.u, m[e.key.u])
  }

  /** `es` lists exactly the bindings of `m` with keys below `n`. */
  ghost predicate Lists(es: seq<Entry>, m: map<nat, Value>, n: nat) {
    && (forall i :: 0 <= i < |es| ==> IsBinding(es[i], m, n))
    && (forall k :: k in m && k < n ==> UintEntry(k, m[k]) in es)
  }

  lemma {:induction false} SortedListIsUnique(es: seq<Entry>, m: map<nat, Value>, n: nat)
    requires n <= U64_LIMIT && Ascending(es) && Lists(es, m, n)
    ensures es == SortedEntries(m, n)
    decreases n
  {
    hide Encode, LexLess, Lists, Ascending;
    if n == 0 {
      if |es| > 0 { BindingAt(es, m, n, 0); }
    } else if n - 1 in m {
      GreatestIsLast(es, m, n);
      var front := es[..|es| - 1];
      assert es == front + [UintEntry(n - 1, m[n - 1])];
      FrontLists(front, m, n);
      SortedListIsUnique(front, m, n - 1);
    } else {
      UnboundTop(es, m, n);
      SortedListIsUnique(es, m, n - 1);
    }
  }

  lemma UnboundTop(es: seq<Entry>, m: map<nat, Value>, n: nat)
    requires 0 < n && n - 1 !in m && Lists(es, m, n)
    ensures Lists(es, m, n - 1)
  {
    hide Encode;
  }

  lemma BindingAt(es: seq<Entry>, m: map<nat, Value>, n: nat, i: nat)
    requires Lists(es, m, n) && i < |es|
    ensures n > 0 && IsBinding(es[i], m, n)
  {
    hide Encode;
  }

  lemma GreatestIsLast(es: seq<Entry>, m: map<nat, Value>, n: nat)
    requires 0 < n <= U64_LIMIT && n - 1 in m && Ascending(es) && Lists(es, m, n)
    ensures |es| > 0 && es[|es| - 1] == UintEntry(n - 1, m[n - 1])
  {
    hide Encode, LexLess;
    var j :| 0 <= j < |es| && es[j] == UintEntry(n - 1, m[n - 1]);
    if j < |es| - 1 {
      BindingAt(es, m, n, j + 1);
      UintKeyOrder(Go, n - 1, es[j + 1].key.u);
    }
  }

  lemma FrontLists(front: seq<Entry>, m: map<nat, Value>, n: nat)
    requires 0 < n <= U64_LIMIT && n - 1 in m
    requires Ascending(front + [UintEntry(n - 1, m[n - 1])])
    requires Lists(front + [UintEntry(n - 1, m[n - 1])], m, n)
    ensures Lists(front, m, n - 1) && Ascending(front)
  {
    hide Encode, LexLess;
    var e := UintEntry(n - 1, m[n - 1]);
    var es := front + [e];
    assert forall i :: 0 <= i < |front| ==> es[i] == front[i];
    forall i | 0 <= i < |front|
      ensures IsBinding(front[i], m, n - 1)
    {
      assert es[i] == front[i] && LexLess(es[i].keyEnc, es[|front|].keyEnc);
      UintKeyOrder(Go, front[i].key.u, n - 1);
    }
    forall k | k in m && k < n - 1
      ensures UintEntry(k, m[k]) in front
    {
      assert UintEntry(k, m[k]) in es;
      assert UintEntry(k, m[k]) != e;
    }
  }

  lemma ReorderedLists(es: seq<Entry>, fs: seq<Entry>, m: map<nat, Value>)
    requires Lists(es, m, U64_LIMIT) && multiset(es) == multiset(fs)
    ensures Lists(fs, m, U64_LIMIT)
  {
    hide Encode, IsBinding;
    forall i | 0 <= i < |fs| ensures IsBinding(fs[i], m, U64_LIMIT) {
      assert fs[i] in multiset(es);
      var j :| 0 <= j < |es| && es[j] == fs[i];
    }
    forall k | k in m && k < U64_LIMIT ensures UintEntry(k, m[k]) in fs {
      assert UintEntry(k, m[k]) in multiset(es);
    }
  }

  lemma InsertAdds(s: seq<Entry>, e: Entry, j: nat)
    requires j <= |s|
    ensures multiset(s[..j] + [e] + s[j..]) == multiset(s) + multiset{e}
  {
    assert s == s[..j] + s[j..];
  }

  lemma BelowPrevious(s: seq<Entry>, e: Entry, j: nat)
    requires Ascending(s) && 0 < j <= |s|
    requires e.key.Uint? && e.key.u < U64_LIMIT && e.keyEnc == Encode(e.key)
    requires forall f <- s :: f.key.Uint? && f.key.u < U64_LIMIT && f.keyEnc == Encode(f.key) && f.key != e.key
    requires !LexLess(e.keyEnc, s[j - 1].keyEnc)
    ensures forall k :: 0 <= k < j ==> LexLess(s[k].keyEnc, e.keyEnc)
  {
    hide Encode, LexLess;
    var f := s[j - 1];
    UintKeyOrder(Go, e.key.u, f.key.u);
    UintKeyOrder(Go, f.key.u, e.key.u);
    assert e.key == Uint(e.key.u) && f.key == Uint(f.key.u);
    forall k | 0 <= k < j ensures LexLess(s[k].keyEnc, e.keyEnc) {
      if k < j - 1 { LexTransitive(s[k].keyEnc, f.keyEnc, e.keyEnc); }
    }
  }

  lemma InsertAscends(s: seq<Entry>, e: Entry, j: nat)
    requires Ascending(s) && j <= |s|
    requires forall k :: 0 <= k < j ==> LexLess(s[k].keyEnc, e.keyEnc)
    requires forall k :: j <= k < |s| ==> LexLess(e.keyEnc, s[k].keyEnc)
    ensures Ascending(s[..j] + [e] + s[j..])
  {
    hide LexLess;
    var t := s[..j] + [e] + s[j..];
    assert forall i :: 0 <= i < |t| ==> t[i] == if i < j then s[i] else if i == j then e else s[i - 1];
    forall i, k | 0 <= i < k < |t| ensures LexLess(t[i].keyEnc, t[k].keyEnc) {
      if i != j && k != j {
        var i', k' := if i < j then i else i - 1, if k < j then k else k - 1;
        assert LexLess(s[i'].keyEnc, s[k'].keyEnc);
      }
    }
  }

  // ---------- the way out and back drops exactly the entries under other keys ----------

  /** `v` with every entry under a key that is not an unsigned integer removed. */
  function Strip(v: Value): Value
    decreases v, 0
  {
    match v
    case Arr(es) => Arr(StripItems(es))
    case Map(es) => Map(StripEntries(es))
    case _ => v
  }

  function StripItems(es: seq<Value>): (r: seq<Value>)
    ensures |r| == |es|
    decreases es, 0
  {
    if es == [] then [] else [Strip(es[0])] + StripItems(es[1..])
  }

  function StripEntries(es: seq<Entry>): (r: seq<Entry>)
    ensures |r| <= |es|
    decreases es, 0
  {
    if es == [] then []
    else if es[0].key.Uint? then [Entry(es[0].keyEnc, es[0].key, Strip(es[0].val))] + StripEntries(es[1..])
    else StripEntries(es[1..])
  }

  lemma {:induction false} ToValueToGo(v: Value)
    requires WellFormed(Go, v)
    ensures ToValue(ToGo(v)) == Strip(v)
    decreases v, 0
  {
    hide ToGoItems, ToGoEntries, SortedEntries, StripItems, StripEntries, WellFormedItems, WellFormedEntries;
    match v
    case Arr(es) => ToValuesToGoItems(es);
    case Map(es) =>
      EntriesListed(es, None);
      StripAscends(es, None);
      SortedListIsUnique(StripEntries(es), Bindings(ToGo(v)), U64_LIMIT);
    case _ =>
  }

  lemma {:induction false} ToValuesToGoItems(es: seq<Value>)
    requires WellFormedItems(Go, es)
    ensures ToValues(ToGoItems(es)) == StripItems(es)
    decreases es, 0
  {
    hide ToGo, Strip, WellFormed, ToValue;
    if es != [] {
      ToValueToGo(es[0]);
      ToValuesToGoItems(es[1..]);
      assert ToGoItems(es)[1..] == ToGoItems(es[1..]);
    }
  }

  lemma {:induction false} StripAscends(es: seq<Entry>, prev: Option<bytes>)
    requires WellFormedEntries(Go, es, prev)
    ensures Ascending(StripEntries(es))
    ensures prev.Some? ==> forall e <- StripEntries(es) :: LexLess(prev.value, e.keyEnc)
    decreases es, 1
  {
    hide Strip, WellFormed, Encode, LexLess;
    if es != [] {
      var rest := StripEntries(es[1..]);
      StripAscends(es[1..], Some(es[0].keyEnc));
      if prev.Some? {
        forall e | e in rest ensures LexLess(prev.value, e.keyEnc) {
          LexTransitive(prev.value, es[0].keyEnc, e.keyEnc);
        }
      }
    }
  }

  lemma {:induction false} EntriesListed(es: seq<Entry>, prev: Option<bytes>)
    requires WellFormedEntries(Go, es, prev)
    ensures Lists(StripEntries(es), Bindings(GoMap(ToGoEntries(es))), U64_LIMIT)
    ensures forall k <- ToGoEntries(es) :: k < U64_LIMIT
    decreases es, 0
  {
    hide ToGo, ToValue, Strip, WellFormed, Encode, LexLess;
    if es != [] {
      var e, tail := es[0], es[1..];
      EntriesListed(tail, Some(e.keyEnc));
      if e.key.Uint? {
        var k := e.key.u;
        ToValueToGo(e.val);
        KeyIsWellFormed(e.key);
        var rest := ToGoEntries(tail);
        var m := Bindings(GoMap(rest));
        if k in rest {
          StripAscends(tail, Some(e.keyEnc));
          assert UintEntry(k, m[k]) in StripEntries(tail);
          assert e.key == Uint(k);
          LexIrreflexive(e.keyEnc);
          assert false;
        }
        ListsOneMore(StripEntries(tail), m, k, Strip(e.val));
        assert Bindings(GoMap(ToGoEntries(es))) == m[k := Strip(e.val)];
      }
    }
  }

  lemma ListsOneMore(es: seq<Entry>, m: map<nat, Value>, k: nat, v: Value)
    requires Lists(es, m, U64_LIMIT) && k !in m && k < U64_LIMIT
    ensures Lists([UintEntry(k, v)] + es, m[k := v], U64_LIMIT)
  {
    hide Encode;
    var all, m' := [UintEntry(k, v)] + es, m[k := v];
    forall i | 0 <= i < |all| ensures IsBinding(all[i], m', U64_LIMIT) {
      if i > 0 { assert all[i] == es[i - 1]; }
    }
    forall j | j in m' && j < U64_LIMIT ensures UintEntry(j, m'[j]) in all {
      if j == k { assert all[0] == UintEntry(j, m'[j]); } else { assert UintEntry(j, m[j]) in es; }
    }
  }

  lemma {:induction false} StripWellFormed(v: Value)
    requires WellFormed(Go, v)
    ensures WellFormed(Go, Strip(v)) && Depth(Strip(v)) <= Depth(v)
    ensures Strip(v) == v <==> UintKeyed(v)
    decreases v, 0
  {
    hide StripItems, StripEntries, WellFormedItems, WellFormedEntries, UintKeyedItems, UintKeyedEntries, DepthItems, DepthEntries;
    match v
    case Arr(es) => StripItemsWellFormed(es);
    case Map(es) =>
      StripEntriesWellFormed(es, None);
      StripAscends(es, None);
    case _ =>
  }

  lemma {:induction false} StripItemsWellFormed(es: seq<Value>)
    requires WellFormedItems(Go, es)
    ensures WellFormedItems(Go, StripItems(es)) && DepthItems(StripItems(es)) <= DepthItems(es)
    ensures StripItems(es) == es <==> UintKeyedItems(es)
    decreases es, 0
  {
    hide Strip, WellFormed, UintKeyed, Depth;
    if es != [] {
      StripWellFormed(es[0]);
      StripItemsWellFormed(es[1..]);
      assert StripItems(es) == [Strip(es[0])] + StripItems(es[1..]);
      assert StripItems(es)[1..] == StripItems(es[1..]);
      SameHeadTail(StripItems(es), es);
    }
  }

  lemma SameHeadTail(a: seq<Value>, b: seq<Value>)
    requires a != [] && b != []
    ensures a == b <==> a[0] == b[0] && a[1..] == b[1..]
  {
    assert a == [a[0]] + a[1..] && b == [b[0]] + b[1..];
  }

  lemma StartsAfter(es: seq<Entry>, prev: bytes)
    requires WellFormedEntries(Go, es, None)
    requires forall e <- es :: LexLess(prev, e.keyEnc)
    ensures WellFormedEntries(Go, es, Some(prev))
  {
    hide WellFormed, LexLess, Encode;
    if es != [] { assert es[0] in es; }
  }

  lemma {:induction false} StripEntriesWellFormed(es: seq<Entry>, prev: Option<bytes>)
    requires WellFormedEntries(Go, es, prev)
    ensures WellFormedEntries(Go, StripEntries(es), None) && DepthEntries(StripEntries(es)) <= DepthEntries(es)
    ensures StripEntries(es) == es <==> UintKeyedEntries(es)
    decreases es, 0
  {
    hide Strip, WellFormed, UintKeyed, Depth, LexLess, Encode;
    if es != [] {
      var e, tail := es[0], StripEntries(es[1..]);
      StripWellFormed(e.val);
      StripEntriesWellFormed(es[1..], Some(e.keyEnc));
      assert es == [e] + es[1..];
      if e.key.Uint? {
        var e' := Entry(e.keyEnc, e.key, Strip(e.val));
        var r := [e'] + tail;
        assert StripEntries(es) == r && r[0] == e' && r[1..] == tail;
        StripAscends(es[1..], Some(e.keyEnc));
        StartsAfter(tail, e.keyEnc);
      }
    }
  }

  /**
   * A body taken out to portable values and encoded again is the same octets exactly when every
   * map was keyed by unsigned integers.
   */
  lemma PortableRoundTrip(b: bytes, v: Value)
    requires DecodeTop(Go, b) == Ok(v)
    ensures Encode(ToValue(ToGo(v))) == b <==> UintKeyed(v)
  {
    hide *;
    Canonical(Go, b, v);
    ToValueToGo(v);
    StripWellFormed(v);
    RoundTrip(Go, Strip(v));
    RoundTrip(Go, v);
  }
}
