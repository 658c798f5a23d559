/**
 * The C# port of the decoder as it runs: one buffer, a cursor passed by reference, values of the
 * platform's own types.  Text goes through the platform's UTF-8 reader, which is a parameter here.
 */
module CsCbor {
  import opened Bytes
  import opened Cbor
  import opened CborTheorems
  import opened CborLoops

  datatype CsValue =
    | Big(n: int)
    | Octets(bs: bytes)
    | Str(s: string)
    | List(elems: seq<CsValue>)
    | CborMap(entries: seq<CsEntry>)
    | Boolean(b: bool)
    | NullRef

  datatype CsEntry = CsEntry(keyEnc: bytes, key: CsValue, val: CsValue)

  /** A decoded tree in the types of the C# port. */
  function Project(utf8: bytes -> string, v: Value): CsValue
    decreases v, 0
  {
    match v
    case Uint(u) => Big(u)
    case Int(i) => Big(i)
    case ByteStr(bs) => Octets(bs)
    case Text(ts) => Str(utf8(ts))
    case Arr(es) => List(ProjectItems(utf8, es))
    case Map(es) => CborMap(ProjectEntries(utf8, es))
    case Bool(b) => Boolean(b)
    case Null => NullRef
  }

  function ProjectItems(utf8: bytes -> string, es: seq<Value>): seq<CsValue>
    decreases es, 0
  {
    if es == [] then [] else [Project(utf8, es[0])] + ProjectItems(utf8, es[1..])
  }

  function ProjectEntries(utf8: bytes -> string, es: seq<Entry>): seq<CsEntry>
    decreases es, 0
  {
    if es == [] then []
    else [CsEntry(es[0].keyEnc, Project(utf8, es[0].key), Project(utf8, es[0].val))] + ProjectEntries(utf8, es[1..])
  }

  lemma {:induction false} ProjectItemsSnoc(utf8: bytes -> string, es: seq<Value>, e: Value)
    ensures ProjectItems(utf8, es + [e]) == ProjectItems(utf8, es) + [Project(utf8, e)]
    decreases |es|
  {
    hide Project;
    if es != [] {
      ProjectItemsSnoc(utf8, es[1..], e);
      assert (es + [e])[1..] == es[1..] + [e];
    } else {
      assert es + [e] == [e] && [e][1..] == [];
    }
  }

  lemma {:induction false} ProjectEntriesSnoc(utf8: bytes -> string, es: seq<Entry>, e: Entry)
    ensures ProjectEntries(utf8, es + [e])
         == ProjectEntries(utf8, es) + [CsEntry(e.keyEnc, Project(utf8, e.key), Project(utf8, e.val))]
    decreases |es|
  {
    hide Project;
    if es != [] {
      ProjectEntriesSnoc(utf8, es[1..], e);
      assert (es + [e])[1..] == es[1..] + [e];
    } else {
      assert es + [e] == [e] && [e][1..] == [];
    }
  }

  /** Shorter first, then bytewise. */
  method ByteLess(a: bytes, b: bytes) returns (less: bool)
    ensures less == KeyLess(CSharp, a, b)
  {
    if |a| != |b| { return |a| < |b|; }
    for i := 0 to |a|
      invariant LexLess(a, b) == LexLess(a[i..], b[i..])
    {
      if a[i] != b[i] { return a[i] < b[i]; }
      assert a[i..][1..] == a[i + 1..] && b[i..][1..] == b[i + 1..];
    }
    return false;
  }

  method ReadArg(ai: nat, b: bytes, pos: nat) returns (r: Result<nat>, pos': nat)
    requires ai < 32 && pos < |b|
    ensures match DecodeArg(ai, b[pos..])
            case Ok((arg, rest)) => r == Ok(arg) && pos' <= |b| && rest == b[pos'..]
            case Err(e) => r == Err(e) && pos' == pos
  {
    pos' := pos;
    if ai < 24 {
      pos' := pos + 1;
      r := Ok(ai);
      assert b[pos..][1..] == b[pos'..];
    } else if ai <= 27 {
      var w := if ai == 24 then 1 else if ai == 25 then 2 else if ai == 26 then 4 else 8;
      var least := if ai == 24 then 24 else if ai == 25 then 0x100 else if ai == 26 then 0x1_0000 else 0x1_0000_0000;
      if pos + 1 + w > |b| { return Err(Truncated), pos; }
      var v: nat := 0;
      ghost var here := b[pos..];
      for i := 1 to w + 1
        invariant v == FromBe(here[1..i])
      {
        assert here[1..i + 1] == here[1..i] + [here[i]];
        assert here[1..i + 1][..i - 1] == here[1..i];
        v := v * 256 + b[pos + i];
      }
      if v < least { return Err(NotShortest), pos; }
      pos' := pos + 1 + w;
      assert b[pos..][1 + w..] == b[pos'..];
      r := Ok(v);
    } else if ai == 31 {
      r := Err(Indefinite);
    } else {
      r := Err(Unsupported);
    }
  }

  /** What a call at `pos` returns and where it leaves the cursor. */
  ghost predicate Reads(utf8: bytes -> string, b: bytes, r: Result<CsValue>, pos': nat, d: Result<(Value, bytes)>) {
    match d
    case Ok((v, rest)) => r == Ok(Project(utf8, v)) && pos' <= |b| && rest == b[pos'..]
    case Err(e) => r == Err(e)
  }

  method DecodeTop(utf8: bytes -> string, b: bytes) returns (r: Result<CsValue>)
    ensures r == match Cbor.DecodeTop(CSharp, b)
                 case Ok(v) => Ok(Project(utf8, v))
                 case Err(e) => Err(e)
  {
    hide Decode, Project;
    var pos := 0;
    assert b[0..] == b;
    r, pos := DecodeAt(utf8, b, 0, 1);
    if r.Ok? && pos != |b| { r := Err(Trailing); }
  }

  method DecodeAt(utf8: bytes -> string, b: bytes, pos: nat, depth: nat) returns (r: Result<CsValue>, pos': nat)
    requires pos <= |b|
    ensures Reads(utf8, b, r, pos', Decode(CSharp, b[pos..], depth))
    decreases |b| - pos, 1
  {
    hide DecodeItems, DecodeEntries, DecodeArg, ProjectItems, ProjectEntries;
    pos' := pos;
    if depth > MAX_DEPTH { return Err(DepthExceeded), pos; }
    if pos >= |b| { return Err(Truncated), pos; }
    var major, ai := b[pos] / 32, b[pos] % 32;
    assert b[pos..][0] == b[pos] && b[pos..][1..] == b[pos + 1..];
    if major == 7 {
      match ai
      case 20 => return Ok(Boolean(false)), pos + 1;
      case 21 => return Ok(Boolean(true)), pos + 1;
      case 22 => return Ok(NullRef), pos + 1;
      case _ => return Err(Unsupported), pos;
    }
    var head, n := ReadArg(ai, b, pos);
    if head.Err? { return Err(head.error), n; }
    var arg := head.value;
    pos' := n;
    if major == 0 {
      r := Ok(Big(arg));
    } else if major == 1 {
      HeadCanonical(b[pos..], arg, b[n..]);
      r := Ok(Big(-1 - arg));
    } else if major == 2 || major == 3 {
      if arg > |b| - n { return Err(Truncated), n; }
      pos' := n + arg;
      assert b[n..][..arg] == b[n..pos'] && b[n..][arg..] == b[pos'..];
      r := Ok(if major == 2 then Octets(b[n..pos']) else Str(utf8(b[n..pos'])));
    } else if major == 4 {
      if arg > |b| - n { return Err(Truncated), n; }
      r, pos' := ReadList(utf8, b, n, arg, depth + 1);
    } else if major == 5 {
      if arg > |b| - n { return Err(Truncated), n; }
      r, pos' := ReadMap(utf8, b, n, arg, depth + 1);
    } else {
      r := Err(Unsupported);
    }
  }

  method ReadList(utf8: bytes -> string, b: bytes, n: nat, count: nat, depth: nat)
    returns (r: Result<CsValue>, pos: nat)
    requires n <= |b|
    ensures match DecodeItems(CSharp, b[n..], count, depth)
            case Ok((es, rest)) => r == Ok(List(ProjectItems(utf8, es))) && pos <= |b| && rest == b[pos..]
            case Err(e) => r == Err(e)
    decreases |b| - n, 2, count
  {
    hide Decode, DecodeItems, Project, ProjectItems;
    var outList: seq<CsValue> := [];
    pos := n;
    ghost var out: seq<Value> := [];
    AfterNone(DecodeItems(CSharp, b[n..], count, depth));
    assert outList == ProjectItems(utf8, out) by { NothingProjected(utf8); }
    for i := 0 to count
      invariant n <= pos <= |b|
      invariant outList == ProjectItems(utf8, out)
      invariant DecodeItems(CSharp, b[n..], count, depth) == After(out, DecodeItems(CSharp, b[pos..], count - i, depth))
    {
      ItemsStep(CSharp, out, b[pos..], count - i, depth);
      ghost var before := pos;
      var el: Result<CsValue>;
      el, pos := DecodeAt(utf8, b, pos, depth);
      if el.Err? { return Err(el.error), pos; }
      ghost var v := Decode(CSharp, b[before..], depth).value.0;
      ProjectItemsSnoc(utf8, out, v);
      outList := outList + [el.value];
      out := out + [v];
    }
    NoMoreItems(CSharp, b[pos..], depth);
    assert out + [] == out;
    r := Ok(List(outList));
  }

  lemma NothingProjected(utf8: bytes -> string)
    ensures ProjectItems(utf8, []) == [] && ProjectEntries(utf8, []) == []
  {}

  method ReadMap(utf8: bytes -> string, b: bytes, n: nat, count: nat, depth: nat)
    returns (r: Result<CsValue>, pos: nat)
    requires n <= |b|
    ensures match DecodeEntries(CSharp, b[n..], count, None, depth)
            case Ok((es, rest)) => r == Ok(CborMap(ProjectEntries(utf8, es))) && pos <= |b| && rest == b[pos..]
            case Err(e) => r == Err(e)
    decreases |b| - n, 2, count
  {
    hide Decode, DecodeEntries, Project, ProjectEntries, Encode, KeyLess;
    var entries: seq<CsEntry> := [];
    var prevKeyEnc: Option<bytes> := None;
    pos := n;
    ghost var out: seq<Entry> := [];
    AfterNone(DecodeEntries(CSharp, b[n..], count, None, depth));
    assert entries == ProjectEntries(utf8, out) by { NothingProjected(utf8); }
    for i := 0 to count
      invariant n <= pos <= |b|
      invariant entries == ProjectEntries(utf8, out)
      invariant DecodeEntries(CSharp, b[n..], count, None, depth)
             == After(out, DecodeEntries(CSharp, b[pos..], count - i, prevKeyEnc, depth))
    {
      EntriesStep(CSharp, out, b[pos..], count - i, prevKeyEnc, depth);
      var keyStart := pos;
      var key: Result<CsValue>;
      key, pos := DecodeAt(utf8, b, pos, depth);
      if key.Err? { return Err(key.error), pos; }
      var keyEnc := b[keyStart..pos];
      KeyOctets(b, keyStart, pos, depth);
      if prevKeyEnc.Some? {
        var less := ByteLess(prevKeyEnc.value, keyEnc);
        if !less { return Err(MapOrder), pos; }
      }
      prevKeyEnc := Some(keyEnc);
      ghost var k, valStart := Decode(CSharp, b[keyStart..], depth).value.0, pos;
      var val: Result<CsValue>;
      val, pos := DecodeAt(utf8, b, pos, depth);
      if val.Err? { return Err(val.error), pos; }
      ghost var e := Entry(keyEnc, k, Decode(CSharp, b[valStart..], depth).value.0);
      ProjectEntriesSnoc(utf8, out, e);
      entries := entries + [CsEntry(keyEnc, key.value, val.value)];
      out := out + [e];
    }
    NoMoreItems(CSharp, b[pos..], depth);
    assert out + [] == out;
    r := Ok(CborMap(entries));
  }

  lemma KeyOctets(b: bytes, start: nat, end: nat, depth: nat)
    requires start <= |b| && end <= |b| && Decode(CSharp, b[start..], depth).Ok?
    requires Decode(CSharp, b[start..], depth).value.1 == b[end..]
    ensures start < end && b[start..end] == Encode(Decode(CSharp, b[start..], depth).value.0)
  {
    hide *;
    RestIsSuffix(CSharp, b[start..], depth);
    assert b[start..end] == b[start..][..end - start];
  }
}
