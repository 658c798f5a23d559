/** One iteration of the decoders' loops, in terms of the recursive definitions. */
module CborLoops {
  import opened Bytes
  import opened Cbor
  import opened CborTheorems

  lemma RestIsSuffix(d: Dialect, b: bytes, depth: nat)
    requires Decode(d, b, depth).Ok?
    ensures var (v, rest) := Decode(d, b, depth).value;
            rest == b[|b| - |rest|..] && Encode(v) == b[..|b| - |rest|]
  {
    hide *;
    DecodeSound(d, b, depth);
  }

  function After<T>(out: seq<T>, r: Result<(seq<T>, bytes)>): Result<(seq<T>, bytes)> {
    match r
    case Ok((es, rest)) => Ok((out + es, rest))
    case Err(e) => Err(e)
  }

  lemma AfterNone<T>(r: Result<(seq<T>, bytes)>)
    ensures After([], r) == r
  {
    if r.Ok? { assert [] + r.value.0 == r.value.0; }
  }

  lemma ItemsStep(d: Dialect, out: seq<Value>, b: bytes, count: nat, depth: nat)
    requires count > 0
    ensures var whole := After(out, DecodeItems(d, b, count, depth));
            match Decode(d, b, depth)
            case Err(e) => whole == Err(e)
            case Ok((e, rest)) => whole == After(out + [e], DecodeItems(d, rest, count - 1, depth))
  {
    hide Decode;
    if Decode(d, b, depth).Ok? {
      var (e, rest) := Decode(d, b, depth).value;
      var r := DecodeItems(d, rest, count - 1, depth);
      if r.Ok? { assert out + ([e] + r.value.0) == out + [e] + r.value.0; }
    }
  }

  /** One map entry: a key that sorts after `prev`, then its value. */
  function EntryAt(d: Dialect, b: bytes, prev: Option<bytes>, depth: nat): Result<(Entry, bytes)> {
    var (key, afterKey) :- Decode(d, b, depth);
    if prev.Some? && !KeyLess(d, prev.value, Encode(key)) then Err(MapOrder)
    else
      var (val, rest) :- Decode(d, afterKey, depth);
      Ok((Entry(Encode(key), key, val), rest))
  }

  lemma EntriesStep(d: Dialect, out: seq<Entry>, b: bytes, count: nat, prev: Option<bytes>, depth: nat)
    requires count > 0
    ensures var whole := After(out, DecodeEntries(d, b, count, prev, depth));
            match EntryAt(d, b, prev, depth)
            case Err(e) => whole == Err(e)
            case Ok((entry, rest)) => whole == After(out + [entry], DecodeEntries(d, rest, count - 1, Some(entry.keyEnc), depth))
  {
    hide Decode, Encode, KeyLess;
    if EntryAt(d, b, prev, depth).Ok? {
      var (entry, rest) := EntryAt(d, b, prev, depth).value;
      var r := DecodeEntries(d, rest, count - 1, Some(entry.keyEnc), depth);
      if r.Ok? { assert out + ([entry] + r.value.0) == out + [entry] + r.value.0; }
    }
  }

  lemma NoMoreItems(d: Dialect, b: bytes, depth: nat)
    ensures DecodeItems(d, b, 0, depth) == Ok(([], b))
    ensures forall prev :: DecodeEntries(d, b, 0, prev, depth) == Ok(([], b))
  {}
}
