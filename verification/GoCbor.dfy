/**
 * The Go codec as it runs: cursors into a byte slice, appended outputs, and a scan for a key.
 * Each method is proved against the functions of `Cbor` in the Go dialect.
 */
module GoCbor {
  import opened Bytes
  import opened Cbor
  import opened CborTheorems
  import opened CborOrder
  import opened CborLoops

  /** The slice comparison of two encoded keys. */
  method ByteLess(a: bytes, b: bytes) returns (less: bool)
    ensures less == LexLess(a, b)
  {
    var n := |a|;
    if |b| < n { n := |b|; }
    var i := 0;
    while i < n
      invariant 0 <= i <= n
      invariant LexLess(a, b) == LexLess(a[i..], b[i..])
    {
      if a[i] != b[i] { return a[i] < b[i]; }
      assert a[i..][1..] == a[i + 1..] && b[i..][1..] == b[i + 1..];
      i := i + 1;
    }
    return |a| < |b|;
  }

  /** Canonical encoding, appending item by item. */
  method CborEncode(v: Value) returns (out: bytes)
    ensures out == Encode(v)
    decreases v, 0
  {
    hide EncodeItems, EncodeEntries;
    match v
    case Uint(u) => out := EncodeHead(0, u);
    case Int(i) => out := if i < 0 then EncodeHead(1, -1 - i) else EncodeHead(0, i);
    case ByteStr(bs) => out := EncodeHead(2, |bs|) + bs;
    case Text(ts) => out := EncodeHead(3, |ts|) + ts;
    case Arr(es) =>
      var items := AppendItems(es);
      out := EncodeHead(4, |es|) + items;
    case Map(es) =>
      var items := AppendEntries(es);
      out := EncodeHead(5, |es|) + items;
    case Bool(b) => out := [if b then 0xf5 else 0xf4];
    case Null => out := [0xf6];
  }

  method AppendItems(es: seq<Value>) returns (out: bytes)
    ensures out == EncodeItems(es)
    decreases es, 0
  {
    hide Encode;
    out := [];
    for i := 0 to |es|
      invariant EncodeItems(es) == out + EncodeItems(es[i..])
    {
      var e := CborEncode(es[i]);
      assert es[i..][0] == es[i] && es[i..][1..] == es[i + 1..];
      assert out + (e + EncodeItems(es[i + 1..])) == out + e + EncodeItems(es[i + 1..]);
      out := out + e;
    }
  }

  method AppendEntries(es: seq<Entry>) returns (out: bytes)
    ensures out == EncodeEntries(es)
    decreases es, 0
  {
    hide Encode;
    out := [];
    for i := 0 to |es|
      invariant EncodeEntries(es) == out + EncodeEntries(es[i..])
    {
      var e := CborEncode(es[i].val);
      assert es[i..][0] == es[i] && es[i..][1..] == es[i + 1..];
      var step := es[i].keyEnc + e;
      assert out + (step + EncodeEntries(es[i + 1..])) == out + step + EncodeEntries(es[i + 1..]);
      out := out + step;
    }
  }

  /** The cursor form of a decoding result: a count of octets instead of the octets after it. */
  function Consumed<T>(b: bytes, r: Result<(T, bytes)>): Result<(T, int)> {
    match r
    case Ok((t, rest)) => Ok((t, |b| - |rest|))
    case Err(e) => Err(e)
  }

  method DecodeArgument(ai: nat, b: bytes) returns (r: Result<(nat, int)>)
    requires ai < 32 && |b| >= 1
    ensures r == Consumed(b, DecodeArg(ai, b))
  {
    if ai < 24 {
      return Ok((ai, 1));
    } else if ai == 24 {
      if |b| < 2 { return Err(Truncated); }
      assert b[1..2] == [b[1]] && FromBe([b[1]]) == b[1];
      if b[1] < 24 { return Err(NotShortest); }
      return Ok((b[1], 2));
    } else if ai == 25 {
      if |b| < 3 { return Err(Truncated); }
      var v := (b[1] as int) * 256 + b[2];
      FromBeTwo(b[1], b[2]);
      assert b[1..3] == [b[1], b[2]];
      if v < 0x100 { return Err(NotShortest); }
      return Ok((v, 3));
    } else if ai == 26 || ai == 27 {
      var w := if ai == 26 then 4 else 8;
      if |b| < 1 + w { return Err(Truncated); }
      var v: nat := 0;
      for i := 1 to w + 1
        invariant v == FromBe(b[1..i])
      {
        assert b[1..i + 1][..i - 1] == b[1..i];
        v := v * 256 + b[i];
      }
      if v < if ai == 26 then 0x1_0000 else 0x1_0000_0000 { return Err(NotShortest); }
      return Ok((v, 1 + w));
    } else if ai == 31 {
      return Err(Indefinite);
    } else {
      return Err(Unsupported);
    }
  }

  lemma FromBeTwo(x: byte, y: byte)
    ensures FromBe([x, y]) == x * 256 + y
  {
    assert [x, y][..1] == [x];
    assert FromBe([x]) == x;
  }

  // ---------- the decoder ----------

  method CborDecodeTop(b: bytes) returns (r: Result<Value>)
    ensures r == DecodeTop(Go, b)
  {
    hide Decode;
    var d := CborDecode(b, 1);
    if d.Err? { return Err(d.error); }
    if d.value.1 != |b| { return Err(Trailing); }
    return Ok(d.value.0);
  }

  method CborDecode(b: bytes, depth: nat) returns (r: Result<(Value, int)>)
    ensures r == Consumed(b, Decode(Go, b, depth))
    decreases |b|, 1
  {
    hide DecodeItems, DecodeEntries, DecodeArg;
    if depth > MAX_DEPTH { return Err(DepthExceeded); }
    if |b| == 0 { return Err(Truncated); }
    var major, ai := b[0] / 32, b[0] % 32;
    if major == 7 {
      match ai
      case 20 => return Ok((Bool(false), 1));
      case 21 => return Ok((Bool(true), 1));
      case 22 => return Ok((Null, 1));
      case _ => return Err(Unsupported);
    }
    var head := DecodeArgument(ai, b);
    if head.Err? { return Err(head.error); }
    var (arg, n) := head.value;
    HeadCanonical(b, arg, DecodeArg(ai, b).value.1);
    assert DecodeArg(ai, b).value.1 == b[n..];
    if major == 0 {
      return Ok((Uint(arg), n));
    } else if major == 1 {
      if arg > MAX_INT64 { return Err(Unsupported); }
      return Ok((Int(-1 - arg), n));
    } else if major == 2 || major == 3 {
      if arg > |b| || n + arg > |b| { return Err(Truncated); }
      assert b[n..][..arg] == b[n..n + arg];
      return Ok((if major == 2 then ByteStr(b[n..n + arg]) else Text(b[n..n + arg]), n + arg));
    } else if major == 4 {
      if arg > |b| - n { return Err(Truncated); }
      r := DecodeArray(b, n, arg, depth + 1);
    } else if major == 5 {
      if arg > |b| - n { return Err(Truncated); }
      r := DecodeMap(b, n, arg, depth + 1);
    } else {
      return Err(Unsupported);
    }
  }

  /** The element loop of an array whose header ends at `n`. */
  method DecodeArray(b: bytes, n: int, arg: nat, depth: nat) returns (r: Result<(Value, int)>)
    requires 0 < n <= |b|
    ensures r == match DecodeItems(Go, b[n..], arg, depth)
                 case Ok((es, rest)) => Ok((Arr(es), |b| - |rest|))
                 case Err(e) => Err(e)
    decreases |b|, 0
  {
    hide Decode, DecodeItems;
    var out, off := [], n;
    AfterNone(DecodeItems(Go, b[n..], arg, depth));
    for i := 0 to arg
      invariant n <= off <= |b|
      invariant DecodeItems(Go, b[n..], arg, depth) == After(out, DecodeItems(Go, b[off..], arg - i, depth))
    {
      ItemsStep(Go, out, b[off..], arg - i, depth);
      var el := CborDecode(b[off..], depth);
      if el.Err? { return Err(el.error); }
      RestIsSuffix(Go, b[off..], depth);
      assert b[off..][el.value.1..] == b[off + el.value.1..];
      out := out + [el.value.0];
      off := off + el.value.1;
    }
    NoMoreItems(Go, b[off..], depth);
    assert out + [] == out;
    return Ok((Arr(out), off));
  }

  /** The entry loop of a map whose header ends at `n`, comparing each raw key with the previous one. */
  /** One entry at the front of `b`: its key must sort after `prev`. */
  method DecodeEntry(b: bytes, prev: Option<bytes>, depth: nat) returns (r: Result<(Entry, int)>)
    ensures match EntryAt(Go, b, prev, depth)
            case Err(e) => r == Err(e)
            case Ok((entry, rest)) => |rest| <= |b| && rest == b[|b| - |rest|..] && r == Ok((entry, |b| - |rest|))
    decreases |b|, 2
  {
    hide Decode, LexLess, Encode;
    var key := CborDecode(b, depth);
    if key.Err? { return Err(key.error); }
    RestIsSuffix(Go, b, depth);
    var kn := key.value.1;
    var keyEnc := b[..kn];
    if prev.Some? {
      var less := ByteLess(prev.value, keyEnc);
      if !less { return Err(MapOrder); }
    }
    var after := b[kn..];
    var val := CborDecode(after, depth);
    if val.Err? { return Err(val.error); }
    RestIsSuffix(Go, after, depth);
    assert after[val.value.1..] == b[kn + val.value.1..];
    return Ok((Entry(keyEnc, key.value.0, val.value.0), kn + val.value.1));
  }

  method DecodeMap(b: bytes, n: int, arg: nat, depth: nat) returns (r: Result<(Value, int)>)
    requires 0 < n <= |b|
    ensures r == match DecodeEntries(Go, b[n..], arg, None, depth)
                 case Ok((es, rest)) => Ok((Map(es), |b| - |rest|))
                 case Err(e) => Err(e)
    decreases |b|, 0
  {
    hide DecodeEntries, EntryAt;
    var out, off := [], n;
    var prevKeyEnc: Option<bytes> := None;
    AfterNone(DecodeEntries(Go, b[n..], arg, None, depth));
    for i := 0 to arg
      invariant n <= off <= |b|
      invariant DecodeEntries(Go, b[n..], arg, None, depth)
             == After(out, DecodeEntries(Go, b[off..], arg - i, prevKeyEnc, depth))
    {
      EntriesStep(Go, out, b[off..], arg - i, prevKeyEnc, depth);
      var entry := DecodeEntry(b[off..], prevKeyEnc, depth);
      if entry.Err? { return Err(entry.error); }
      assert b[off..][entry.value.1..] == b[off + entry.value.1..];
      prevKeyEnc := Some(entry.value.0.keyEnc);
      off := off + entry.value.1;
      out := out + [entry.value.0];
    }
    NoMoreItems(Go, b[off..], depth);
    assert out + [] == out;
    return Ok((Map(out), off));
  }

  /** The scan for an unsigned key over the canonically ordered entries. */
  method Get(es: seq<Entry>, key: nat) returns (r: Option<Value>)
    ensures r == Lookup(es, key)
  {
    hide Encode;
    var ke := Encode(Uint(key));
    for i := 0 to |es|
      invariant Lookup(es, key) == Lookup(es[i..], key)
    {
      if es[i].keyEnc == ke { return Some(es[i].val); }
      assert es[i..][1..] == es[i + 1..];
    }
    return None;
  }
}
