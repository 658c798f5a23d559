/** The operation-body validators, as the receivers run them. */
module BodyValidators {
  import opened Bytes
  import opened Cbor
  import opened CborOrder
  import opened GoCbor
  import opened BodyRules

  /** The forward-compatibility scan over a map's keys. */
  method ForwardCompatKeys(es: seq<Entry>) returns (ok: bool)
    ensures ok == KeysAccepted(es)
  {
    for i := 0 to |es|
      invariant forall j :: 0 <= j < i ==> KeyAccepted(es[j].key)
    {
      var k := es[i].key;
      if k.Int? {
        if k.i < 0 { return false; }
      } else if !k.Uint? {
        return false;
      }
    }
    return true;
  }

  method CheckFields(es: seq<Entry>, schema: seq<Field>) returns (ok: bool)
    ensures ok == (FieldsAccepted(es, schema) && KeysAccepted(es))
  {
    hide Lookup, KeysAccepted, MatchesKind;
    for i := 0 to |schema|
      invariant forall j :: 0 <= j < i ==> FieldAccepted(es, schema[j])
    {
      var f := schema[i];
      var val := Get(es, f.key);
      if val.None? {
        if f.required { return false; }
      } else if !MatchesKind(val.value, f.kind) {
        assert !FieldAccepted(es, f);
        return false;
      }
    }
    ok := ForwardCompatKeys(es);
  }

  /** Decoding the payload to a map; any other outcome is malformed. */
  method DecodeBody(payload: bytes) returns (r: Option<seq<Entry>>)
    ensures r == var v := DecodeTop(Go, payload); if v.Ok? && v.value.Map? then Some(v.value.entries) else None
  {
    hide DecodeTop;
    var v := CborDecodeTop(payload);
    if v.Err? { return None; }
    match v.value {
      case Map(es) => return Some(es);
      case _ => return None;
    }
  }

  method CheckKind(ft: u16, es: seq<Entry>) returns (ok: bool)
    ensures ok == (Lookup(es, 0) == Some(Uint(ft)))
  {
    hide Lookup;
    var kind := Get(es, 0);
    if kind.None? { return false; }
    match kind.value {
      case Uint(u) => return u == ft;
      case _ => return false;
    }
  }

  method CheckCorr(es: seq<Entry>) returns (ok: bool)
    ensures ok == CorrAccepted(Lookup(es, 1))
  {
    hide Lookup;
    var corr := Get(es, 1);
    if corr.None? { return false; }
    match corr.value {
      case ByteStr(bs) => return 1 <= |bs| && |bs| <= 64;
      case _ => return false;
    }
  }

  /** The steps the Memory, Commerce and Immune validators share: schema, map, frame kind, corr, fields. */
  method CheckBody(schema: Option<seq<Field>>, ft: u16, payload: bytes) returns (r: Option<seq<Entry>>)
    ensures r == var v := DecodeTop(Go, payload);
                 if && schema.Some? && v.Ok? && v.value.Map? && EnvelopeAccepted(ft, v.value.entries)
                    && FieldsAccepted(v.value.entries, schema.value) && KeysAccepted(v.value.entries)
                 then Some(v.value.entries) else None
  {
    hide DecodeTop, Lookup, FieldsAccepted, KeysAccepted, CorrAccepted;
    if schema.None? { return None; }
    var body := DecodeBody(payload);
    if body.None? { return None; }
    var es := body.value;
    var ok := CheckKind(ft, es);
    if !ok { return None; }
    ok := CheckCorr(es);
    if !ok { return None; }
    ok := CheckFields(es, schema.value);
    return if ok then Some(es) else None;
  }

  method ValidateMemoryPayload(ft: u16, payload: bytes) returns (r: Option<seq<Entry>>)
    ensures r == Validate(Memory, ft, payload)
  {
    hide DecodeTop, EnvelopeAccepted, FieldsAccepted, KeysAccepted, MemorySchema;
    r := CheckBody(MemorySchema(ft), ft, payload);
  }

  // ---------- Commerce ----------

  method ValidateAmount(v: Value) returns (ok: bool)
    ensures ok == ItemAccepted(AMOUNT, v)
  {
    hide Lookup, KeysAccepted;
    if !v.Map? { return false; }
    assert ItemAccepted(AMOUNT, v) ==>
        FieldAccepted(v.entries, AMOUNT[0]) && FieldAccepted(v.entries, AMOUNT[1]) && FieldAccepted(v.entries, AMOUNT[2]);
    var units := Get(v.entries, 0);
    if units.None? || !(units.value.Uint? || units.value.Int?) { return false; }
    var scale := Get(v.entries, 1);
    if scale.None? || !scale.value.Uint? { return false; }
    var currency := Get(v.entries, 2);
    if currency.None? || !currency.value.Text? { return false; }
    ok := ForwardCompatKeys(v.entries);
  }

  method ValidateLeg(v: Value, parties: set<bytes>) returns (ok: bool)
    ensures ok == LegAccepted(v, parties)
  {
    hide Lookup, KeysAccepted, ItemAccepted;
    if !v.Map? { return false; }
    var from := Get(v.entries, 0);
    if from.None? || !from.value.Text? { return false; }
    var to := Get(v.entries, 1);
    if to.None? || !to.value.Text? { return false; }
    var amount := Get(v.entries, 2);
    if amount.None? { return false; }
    ok := ValidateAmount(amount.value);
    if !ok { return false; }
    if from.value.ts !in parties { return false; }
    if to.value.ts !in parties { return false; }
    ok := ForwardCompatKeys(v.entries);
  }

  /** The named parties, or nothing when some element is not text. */
  method CommerceParties(es: seq<Entry>) returns (r: Option<set<bytes>>)
    ensures r == var vs := ElemsAt(es, 2); if AllText(vs) then Some(Names(vs)) else None
  {
    hide Lookup;
    var p := Get(es, 2);
    var vs := if p.Some? && p.value.Arr? then p.value.elems else [];
    var names: set<bytes> := {};
    for i := 0 to |vs|
      invariant AllText(vs[..i]) && names == Names(vs[..i])
    {
      if !vs[i].Text? { return None; }
      assert vs[..i + 1] == vs[..i] + [vs[i]];
      NamesGrow(vs[..i], vs[i]);
      names := names + {vs[i].ts};
    }
    assert vs[..|vs|] == vs;
    return Some(names);
  }

  lemma NamesGrow(vs: seq<Value>, v: Value)
    requires AllText(vs) && v.Text?
    ensures AllText(vs + [v]) && Names(vs + [v]) == Names(vs) + {v.ts}
  {
    assert forall x <- vs + [v] :: x in vs || x == v;
    assert forall x <- vs :: x in vs + [v];
    assert v in vs + [v];
  }

  method ValidateLegs(legs: seq<Value>, parties: set<bytes>) returns (ok: bool)
    ensures ok == LegsAccepted(legs, parties)
  {
    hide LegAccepted;
    for i := 0 to |legs|
      invariant forall j :: 0 <= j < i ==> LegAccepted(legs[j], parties)
    {
      ok := ValidateLeg(legs[i], parties);
      if !ok { return false; }
    }
    return true;
  }

  method ValidateCommerceNested(ft: u16, es: seq<Entry>) returns (ok: bool)
    ensures ok == CommerceNested(ft, es)
  {
    hide Lookup, ItemAccepted, AllText, Names, LegsAccepted;
    if ft == MANDATE_CREATE {
      var amount := Get(es, 4);
      if amount.Some? {
        ok := ValidateAmount(amount.value);
        return;
      }
    } else if ft == INTENT_PROPOSE {
      var parties := CommerceParties(es);
      if parties.None? { return false; }
      var legs := Get(es, 3);
      ok := ValidateLegs(if legs.Some? && legs.value.Arr? then legs.value.elems else [], parties.value);
      return;
    }
    return true;
  }

  method ValidateCommercePayload(ft: u16, payload: bytes) returns (r: Option<seq<Entry>>)
    ensures r == Validate(Commerce, ft, payload)
  {
    hide DecodeTop, EnvelopeAccepted, FieldsAccepted, KeysAccepted, CommerceSchema, CommerceNested;
    r := CheckBody(CommerceSchema(ft), ft, payload);
    if r.Some? {
      var ok := ValidateCommerceNested(ft, r.value);
      if !ok { return None; }
    }
  }

  // ---------- Telemetry ----------

  /** Every element of an array must be a map that passes its own field check. */
  method CheckItems(vs: seq<Value>, schema: seq<Field>) returns (ok: bool)
    ensures ok == ItemsAccepted(schema, vs)
  {
    hide FieldsAccepted, KeysAccepted;
    for i := 0 to |vs|
      invariant forall j :: 0 <= j < i ==> ItemAccepted(schema, vs[j])
    {
      assert vs[i] in vs;
      if !vs[i].Map? { return false; }
      ok := CheckFields(vs[i].entries, schema);
      if !ok { return false; }
    }
    return true;
  }

  /** The loop over the three content arrays, counting the non-empty ones. */
  method CheckContent(es: seq<Entry>) returns (ok: bool, nonEmpty: nat)
    ensures ok == (ContentAccepted(es, 4) && ContentAccepted(es, 5) && ContentAccepted(es, 6))
    ensures ok ==> (nonEmpty > 0 <==> ElemsAt(es, 4) != [] || ElemsAt(es, 5) != [] || ElemsAt(es, 6) != [])
  {
    hide Lookup, ItemsAccepted, ContentSchema;
    nonEmpty := 0;
    for key := 4 to 7
      invariant forall k :: 4 <= k < key ==> ContentAccepted(es, k)
      invariant nonEmpty > 0 <==> exists k :: 4 <= k < key && ElemsAt(es, k) != []
    {
      var val := Get(es, key);
      if val.Some? {
        if !val.value.Arr? { return false, nonEmpty; }
        var vs := val.value.elems;
        if |vs| > 0 { nonEmpty := nonEmpty + 1; }
        ok := CheckItems(vs, ContentSchema(key));
        if !ok { return false, nonEmpty; }
      }
      assert ElemsAt(es, key) == if val.Some? then val.value.elems else [];
    }
    assert nonEmpty > 0 ==> exists k :: (k == 4 || k == 5 || k == 6) && ElemsAt(es, k) != [];
    return true, nonEmpty;
  }

  method ValidateTelemetryReport(es: seq<Entry>) returns (ok: bool)
    ensures ok == ReportAccepted(es)
  {
    hide Lookup, KeysAccepted, ContentAccepted, ElemsAt;
    var corr := Get(es, 1);
    var sub := Get(es, 2);
    if corr.Some? {
      if !(corr.value.ByteStr? && 1 <= |corr.value.bs| <= 64) { return false; }
      if sub.None? || !sub.value.ByteStr? { return false; }
    } else if sub.Some? {
      return false;
    }
    var batch := Get(es, 3);
    if batch.None? || !batch.value.Uint? { return false; }
    var content, nonEmpty := CheckContent(es);
    if !content || nonEmpty == 0 { return false; }
    ok := ForwardCompatKeys(es);
  }

  method ValidateTelemetryPayload(ft: u16, payload: bytes) returns (r: Option<seq<Entry>>)
    ensures r == Validate(Telemetry, ft, payload)
  {
    hide DecodeTop, Lookup, FieldsAccepted, KeysAccepted, TelemetrySchema, ReportAccepted, CorrAccepted;
    TelemetryFrames(ft);
    if !(0x0100 <= ft <= 0x0105) { return None; }
    var body := DecodeBody(payload);
    if body.None? { return None; }
    var es := body.value;
    var ok := CheckKind(ft, es);
    if !ok { return None; }
    if ft == REPORT {
      ok := ValidateTelemetryReport(es);
    } else {
      ok := CheckCorr(es);
      if !ok { return None; }
      ok := CheckFields(es, TelemetrySchema(ft).value);
    }
    return if ok then Some(es) else None;
  }

  lemma TelemetryFrames(ft: u16)
    ensures TelemetrySchema(ft).Some? <==> 0x0100 <= ft <= 0x0105
  {}

  // ---------- Immune ----------

  method ValidateGossipArray(es: seq<Entry>, nested: seq<Field>) returns (ok: bool)
    ensures ok == (Lookup(es, 2).Some? && Lookup(es, 2).value.Arr? && ItemsAccepted(nested, ElemsAt(es, 2)))
  {
    hide Lookup, ItemsAccepted;
    var items := Get(es, 2);
    if items.None? || !items.value.Arr? { return false; }
    ok := CheckItems(items.value.elems, nested);
  }

  lemma GossipItemsPresent(ft: u16, es: seq<Entry>)
    requires ft == GOSSIP_ADVERTISE || ft == GOSSIP_PULL_RESULT
    requires FieldsAccepted(es, ImmuneSchema(ft).value)
    ensures Lookup(es, 2).Some? && Lookup(es, 2).value.Arr?
  {
    hide Lookup;
    assert ImmuneSchema(ft).value[0] == Req(2, KArray);
    assert FieldAccepted(es, ImmuneSchema(ft).value[0]);
  }

  method ValidateImmunePayload(ft: u16, payload: bytes) returns (r: Option<seq<Entry>>)
    ensures r == Validate(Immune, ft, payload)
  {
    hide DecodeTop, EnvelopeAccepted, FieldsAccepted, KeysAccepted, ImmuneSchema, Lookup, ItemsAccepted, ElemsAt;
    r := CheckBody(ImmuneSchema(ft), ft, payload);
    if r.Some? && (ft == GOSSIP_ADVERTISE || ft == GOSSIP_PULL_RESULT) {
      GossipItemsPresent(ft, r.value);
      var ok := ValidateGossipArray(r.value, if ft == GOSSIP_ADVERTISE then DESCRIPTOR else ITEM);
      if !ok { return None; }
    }
  }
}
