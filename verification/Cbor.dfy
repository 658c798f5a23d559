/**
 * The deterministic CBOR subset of RFC 8949 section 4.2.1 used by every operation body:
 * values, the canonical encoder, and the strict depth-bounded decoder.
 *
 * The Go decoder and its C# port differ in two rules only: how encoded map keys are ordered,
 * and how far below zero an integer may go.  `Dialect` carries those two rules, so one
 * definition specifies both decoders.
 */
module Cbor {
  import opened Bytes

  const U64_LIMIT: nat := 0x1_0000_0000_0000_0000
  const MAX_INT64: nat := 0x7FFF_FFFF_FFFF_FFFF
  const MAX_DEPTH: nat := 8

  datatype Value =
    | Uint(u: nat)
    | Int(i: int)
    | ByteStr(bs: bytes)
    | Text(ts: bytes)
    | Arr(elems: seq<Value>)
    | Map(entries: seq<Entry>)
    | Bool(b: bool)
    | Null

  /** A map entry keeps the key's encoding beside the key; order and equality use the encoding. */
  datatype Entry = Entry(keyEnc: bytes, key: Value, val: Value)

  datatype Error = Trailing | Truncated | NotShortest | Indefinite | Unsupported | MapOrder | DepthExceeded

  type Result<+T> = Fallible<T, Error>

  datatype Dialect = Go | CSharp

  // ---------- key order ----------

  /** Bytewise lexicographic order; a proper prefix sorts first. */
  predicate LexLess(a: bytes, b: bytes) {
    if b == [] then false
    else if a == [] then true
    else if a[0] != b[0] then a[0] < b[0]
    else LexLess(a[1..], b[1..])
  }

  predicate KeyLess(d: Dialect, a: bytes, b: bytes) {
    match d
    case Go => LexLess(a, b)
    case CSharp => |a| < |b| || (|a| == |b| && LexLess(a, b))
  }

  /** The largest argument of a negative integer: the Go decoder stops at int64. */
  function MaxNegArg(d: Dialect): nat {
    match d
    case Go => MAX_INT64
    case CSharp => U64_LIMIT - 1
  }

  // ---------- encoding ----------

  /** Additional information and number of argument octets of the shortest form. */
  function HeadShape(arg: nat): (nat, nat) {
    if arg < 24 then (arg, 0)
    else if arg < 0x100 then (24, 1)
    else if arg < 0x1_0000 then (25, 2)
    else if arg < 0x1_0000_0000 then (26, 4)
    else (27, 8)
  }

  /** A type header in shortest form. */
  function EncodeHead(major: nat, arg: nat): (h: bytes)
    requires major < 8
    ensures |h| >= 1
  {
    var (ai, w) := HeadShape(arg);
    [major * 32 + ai] + Be(arg, w)
  }

  function Encode(v: Value): (e: bytes)
    ensures |e| >= 1
    decreases v, 0
  {
    match v
    case Uint(u) => EncodeHead(0, u)
    case Int(i) => if i < 0 then EncodeHead(1, -1 - i) else EncodeHead(0, i)
    case ByteStr(bs) => EncodeHead(2, |bs|) + bs
    case Text(ts) => EncodeHead(3, |ts|) + ts
    case Arr(elems) => EncodeHead(4, |elems|) + EncodeItems(elems)
    case Map(entries) => EncodeHead(5, |entries|) + EncodeEntries(entries)
    case Bool(b) => [if b then 0xf5 else 0xf4]
    case Null => [0xf6]
  }

  function EncodeItems(es: seq<Value>): bytes
    decreases es, 0
  {
    if es == [] then [] else Encode(es[0]) + EncodeItems(es[1..])
  }

  function EncodeEntries(es: seq<Entry>): bytes
    decreases es, 0
  {
    if es == [] then [] else es[0].keyEnc + Encode(es[0].val) + EncodeEntries(es[1..])
  }

  // ---------- nesting depth and well-formedness ----------

  function Max(a: nat, b: nat): nat { if a < b then b else a }

  function Depth(v: Value): nat
    decreases v, 0
  {
    match v
    case Arr(elems) => 1 + DepthItems(elems)
    case Map(entries) => 1 + DepthEntries(entries)
    case _ => 1
  }

  function DepthItems(es: seq<Value>): nat
    decreases es, 0
  {
    if es == [] then 0 else Max(Depth(es[0]), DepthItems(es[1..]))
  }

  function DepthEntries(es: seq<Entry>): nat
    decreases es, 0
  {
    if es == [] then 0
    else Max(Max(Depth(es[0].key), Depth(es[0].val)), DepthEntries(es[1..]))
  }

  /**
   * What the decoded Go (or C#) value types promise: integers in range and negative where the
   * type is signed, lengths a machine can hold, entries carrying their key's own encoding, in
   * strictly ascending order of the dialect.
   */
  predicate WellFormed(d: Dialect, v: Value)
    decreases v, 0
  {
    match v
    case Uint(u) => u < U64_LIMIT
    case Int(i) => i < 0 && -1 - i <= MaxNegArg(d)
    case ByteStr(bs) => |bs| < U64_LIMIT
    case Text(ts) => |ts| < U64_LIMIT
    case Arr(elems) => |elems| < U64_LIMIT && WellFormedItems(d, elems)
    case Map(entries) => |entries| < U64_LIMIT && WellFormedEntries(d, entries, None)
    case _ => true
  }

  predicate WellFormedItems(d: Dialect, es: seq<Value>)
    decreases es, 0
  {
    es == [] || (WellFormed(d, es[0]) && WellFormedItems(d, es[1..]))
  }

  predicate WellFormedEntries(d: Dialect, es: seq<Entry>, prev: Option<bytes>)
    decreases es, 0
  {
    es == [] ||
    (&& WellFormed(d, es[0].key) && es[0].keyEnc == Encode(es[0].key)
     && (prev.Some? ==> KeyLess(d, prev.value, es[0].keyEnc))
     && WellFormed(d, es[0].val)
     && WellFormedEntries(d, es[1..], Some(es[0].keyEnc)))
  }

  // ---------- decoding ----------

  /** What an initial octet opens: a finished value, or the items of a container still to be read. */
  datatype Opening = Leaf(v: Value) | OpenArr(count: nat) | OpenMap(count: nat)

  /** The argument announced by additional information `ai`, with the octets after the header. */
  function DecodeArg(ai: nat, b: bytes): (r: Result<(nat, bytes)>)
    requires ai < 32 && |b| >= 1
    ensures r.Ok? ==> |r.value.1| < |b|
  {
    if ai < 24 then Ok((ai, b[1..]))
    else if ai == 24 then ShortestArg(b, 1, 24)
    else if ai == 25 then ShortestArg(b, 2, 0x100)
    else if ai == 26 then ShortestArg(b, 4, 0x1_0000)
    else if ai == 27 then ShortestArg(b, 8, 0x1_0000_0000)
    else if ai == 31 then Err(Indefinite)
    else Err(Unsupported)
  }

  /** A `w`-octet argument, refused when it would have fitted a shorter form. */
  function ShortestArg(b: bytes, w: nat, least: nat): (r: Result<(nat, bytes)>) {
    if |b| < 1 + w then Err(Truncated)
    else
      var v := FromBe(b[1..1 + w]);
      if v < least then Err(NotShortest) else Ok((v, b[1 + w..]))
  }

  function DecodeSimple(ai: nat): (r: Result<Value>) {
    if ai == 20 then Ok(Bool(false))
    else if ai == 21 then Ok(Bool(true))
    else if ai == 22 then Ok(Null)
    else Err(Unsupported)
  }

  /** Everything about one item that needs no recursion. */
  function DecodeOpening(d: Dialect, b: bytes): (r: Result<(Opening, bytes)>)
    requires |b| >= 1
    ensures r.Ok? ==> |r.value.1| < |b|
  {
    var major, ai := b[0] / 32, b[0] % 32;
    if major == 7 then
      var v :- DecodeSimple(ai);
      Ok((Leaf(v), b[1..]))
    else
      var (arg, rest) :- DecodeArg(ai, b);
      if major == 0 then Ok((Leaf(Uint(arg)), rest))
      else if major == 1 then
        if arg > MaxNegArg(d) then Err(Unsupported) else Ok((Leaf(Int(-1 - arg)), rest))
      else if major == 6 then Err(Unsupported)
      else if arg > |rest| then Err(Truncated)
      else if major == 2 then Ok((Leaf(ByteStr(rest[..arg])), rest[arg..]))
      else if major == 3 then Ok((Leaf(Text(rest[..arg])), rest[arg..]))
      else if major == 4 then Ok((OpenArr(arg), rest))
      else Ok((OpenMap(arg), rest))
  }

  /** Decodes one item at the front of `b`: the value and the octets after it. */
  function Decode(d: Dialect, b: bytes, depth: nat): (r: Result<(Value, bytes)>)
    ensures r.Ok? ==> |r.value.1| < |b|
    decreases |b|, 0
  {
    if depth > MAX_DEPTH then Err(DepthExceeded)
    else if b == [] then Err(Truncated)
    else
      var (o, rest) :- DecodeOpening(d, b);
      match o
      case Leaf(v) => Ok((v, rest))
      case OpenArr(count) =>
        var (es, after) :- DecodeItems(d, rest, count, depth + 1);
        Ok((Arr(es), after))
      case OpenMap(count) =>
        var (es, after) :- DecodeEntries(d, rest, count, None, depth + 1);
        Ok((Map(es), after))
  }

  function DecodeItems(d: Dialect, b: bytes, count: nat, depth: nat): (r: Result<(seq<Value>, bytes)>)
    ensures r.Ok? ==> |r.value.1| <= |b| && |r.value.0| == count
    decreases |b|, 1, count
  {
    if count == 0 then Ok(([], b))
    else
      var (e, rest) :- Decode(d, b, depth);
      var (es, after) :- DecodeItems(d, rest, count - 1, depth);
      Ok(([e] + es, after))
  }

  /** Entries in strictly ascending order of their keys' encodings. */
  function DecodeEntries(d: Dialect, b: bytes, count: nat, prev: Option<bytes>, depth: nat):
    (r: Result<(seq<Entry>, bytes)>)
    ensures r.Ok? ==> |r.value.1| <= |b| && |r.value.0| == count
    decreases |b|, 1, count
  {
    if count == 0 then Ok(([], b))
    else
      var (key, afterKey) :- Decode(d, b, depth);
      if prev.Some? && !KeyLess(d, prev.value, Encode(key)) then Err(MapOrder)
      else
        var (val, afterVal) :- Decode(d, afterKey, depth);
        var (es, after) :- DecodeEntries(d, afterVal, count - 1, Some(Encode(key)), depth);
        Ok(([Entry(Encode(key), key, val)] + es, after))
  }

  /** One item that takes all of `b`. */
  function DecodeTop(d: Dialect, b: bytes): (r: Result<Value>) {
    var (v, rest) :- Decode(d, b, 1);
    if rest != [] then Err(Trailing) else Ok(v)
  }
}
