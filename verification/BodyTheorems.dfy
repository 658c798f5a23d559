/** The validators accept exactly the canonical encodings of bodies that meet the rules, and tolerate new keys. */
module BodyTheorems {
  import opened Bytes
  import opened Cbor
  import opened CborTheorems
  import opened CborOrder
  import opened BodyRules

  // ---------- scanning for a key against what the map binds ----------

  lemma {:induction false} EntryParts(es: seq<Entry>, prev: Option<bytes>)
    requires WellFormedEntries(Go, es, prev)
    ensures forall e <- es :: e.keyEnc == Encode(e.key) && WellFormed(Go, e.key) && WellFormed(Go, e.val)
    decreases es, 0
  {
    hide Encode, WellFormed, KeyLess;
    if es != [] { EntryParts(es[1..], Some(es[0].keyEnc)); }
  }

  lemma {:induction false} ItemParts(vs: seq<Value>)
    requires WellFormedItems(Go, vs)
    ensures forall v <- vs :: WellFormed(Go, v)
    decreases vs, 0
  {
    hide WellFormed;
    if vs != [] { ItemParts(vs[1..]); }
  }

  /** A scan finds exactly what the map binds. */
  lemma BindsLookup(es: seq<Entry>, key: nat)
    requires WellFormedEntries(Go, es, None) && key < U64_LIMIT
    ensures forall v :: Binds(es, key, v) <==> Lookup(es, key) == Some(v)
    ensures Present(es, key) <==> Lookup(es, key).Some?
  {
    hide Lookup, Encode, WellFormed, WellFormedEntries;
    LookupFinds(es, None, key);
    EntryParts(es, None);
    forall v
      ensures Binds(es, key, v) <==> Lookup(es, key) == Some(v)
    {
      if Lookup(es, key) == Some(v) {
        var e :| e in es && e.key == Uint(key);
        assert e == Entry(Encode(Uint(key)), Uint(key), v);
      }
    }
    if Lookup(es, key).Some? { assert Binds(es, key, Lookup(es, key).value); }
  }

  lemma KeysExactly(es: seq<Entry>)
    requires WellFormedEntries(Go, es, None)
    ensures KeysAccepted(es) <==> forall e <- es :: e.key.Uint?
  {
    hide WellFormedEntries, Encode;
    EntryParts(es, None);
  }

  lemma MeetsExactly(es: seq<Entry>, schema: seq<Field>)
    requires WellFormedEntries(Go, es, None)
    ensures Meets(es, schema) <==> FieldsAccepted(es, schema) && KeysAccepted(es)
  {
    hide Lookup, Binds, WellFormedEntries, KeysAccepted, MatchesKind;
    KeysExactly(es);
    forall f <- schema
      ensures FieldAccepted(es, f) <==>
              (f.required ==> Present(es, f.key)) && (forall v :: Binds(es, f.key, v) ==> MatchesKind(v, f.kind))
    {
      BindsLookup(es, f.key);
    }
  }

  lemma ItemExactly(schema: seq<Field>, v: Value)
    requires WellFormed(Go, v)
    ensures ItemAccepted(schema, v) <==> v.Map? && Meets(v.entries, schema)
  {
    hide Meets, FieldsAccepted, KeysAccepted, WellFormedEntries;
    if v.Map? { MeetsExactly(v.entries, schema); }
  }

  lemma ItemsExactly(schema: seq<Field>, vs: seq<Value>)
    requires WellFormedItems(Go, vs)
    ensures ItemsAccepted(schema, vs) <==> AllMeet(vs, schema)
  {
    hide Meets, ItemAccepted, WellFormed, WellFormedItems;
    ItemParts(vs);
    forall v <- vs
      ensures ItemAccepted(schema, v) <==> v.Map? && Meets(v.entries, schema)
    {
      ItemExactly(schema, v);
    }
  }

  /** What a well-formed map binds is well formed. */
  lemma BoundWellFormed(es: seq<Entry>, key: nat)
    requires WellFormedEntries(Go, es, None) && key < U64_LIMIT
    ensures Lookup(es, key).Some? ==> WellFormed(Go, Lookup(es, key).value)
    ensures WellFormedItems(Go, ElemsAt(es, key))
  {
    hide Lookup, Encode, WellFormedEntries;
    BindsLookup(es, key);
    EntryParts(es, None);
    if Lookup(es, key).Some? { assert Binds(es, key, Lookup(es, key).value); }
  }

  lemma ArrayAt(es: seq<Entry>, key: nat)
    requires WellFormedEntries(Go, es, None) && key < U64_LIMIT
    ensures forall vs: seq<Value> :: Binds(es, key, Arr(vs)) <==> Lookup(es, key) == Some(Arr(vs))
    ensures forall vs: seq<Value> :: Binds(es, key, Arr(vs)) ==> vs == ElemsAt(es, key)
    ensures Lookup(es, key).Some? && Lookup(es, key).value.Arr? ==> Binds(es, key, Arr(ElemsAt(es, key)))
    ensures WellFormedItems(Go, ElemsAt(es, key))
  {
    hide Lookup, Binds, WellFormedEntries, WellFormed, WellFormedItems;
    BindsLookup(es, key);
    BoundWellFormed(es, key);
  }

  // ---------- the nested rules ----------

  lemma NamesContain(ps: seq<Value>, v: Value)
    requires AllText(ps)
    ensures v in ps <==> v.Text? && v.ts in Names(ps)
  {
    if v.Text? && v.ts in Names(ps) {
      var p :| p in ps && p.Text? && p.ts == v.ts;
      assert p == v;
    }
  }

  lemma LegExactly(leg: Value, ps: seq<Value>)
    requires WellFormed(Go, leg) && AllText(ps)
    ensures LegAccepted(leg, Names(ps)) <==> LegMeets(leg, ps)
  {
    hide Lookup, Binds, WellFormedEntries, KeysAccepted, Names, AllText, Meets, FieldsAccepted, ItemAccepted;
    if leg.Map? {
      var es, schema := leg.entries, [Req(0, KText), Req(1, KText), Req(2, KMap)];
      BindsLookup(es, 0);
      BindsLookup(es, 1);
      BindsLookup(es, 2);
      BoundWellFormed(es, 2);
      MeetsExactly(es, schema);
      LegFields(es);
      if Lookup(es, 0).Some? { NamesContain(ps, Lookup(es, 0).value); }
      if Lookup(es, 1).Some? { NamesContain(ps, Lookup(es, 1).value); }
      if Lookup(es, 2).Some? {
        ItemExactly(AMOUNT, Lookup(es, 2).value);
        AmountIsMap(Lookup(es, 2).value);
      }
    }
  }

  lemma AmountIsMap(v: Value)
    ensures ItemAccepted(AMOUNT, v) ==> v.Map?
  {}

  lemma LegFields(es: seq<Entry>)
    ensures FieldsAccepted(es, [Req(0, KText), Req(1, KText), Req(2, KMap)]) <==>
            && Lookup(es, 0).Some? && Lookup(es, 0).value.Text?
            && Lookup(es, 1).Some? && Lookup(es, 1).value.Text?
            && Lookup(es, 2).Some? && Lookup(es, 2).value.Map?
  {
    hide Lookup;
    var schema := [Req(0, KText), Req(1, KText), Req(2, KMap)];
    assert schema[0] in schema && schema[1] in schema && schema[2] in schema;
    if FieldsAccepted(es, schema) {
      assert FieldAccepted(es, schema[0]) && FieldAccepted(es, schema[1]) && FieldAccepted(es, schema[2]);
    }
  }

  lemma ProposalExactly(es: seq<Entry>)
    requires WellFormedEntries(Go, es, None)
    requires Lookup(es, 2).Some? && Lookup(es, 2).value.Arr? && Lookup(es, 3).Some? && Lookup(es, 3).value.Arr?
    ensures CommerceNested(INTENT_PROPOSE, es) <==> ProposalMeets(es)
  {
    hide Lookup, Binds, WellFormedEntries, WellFormedItems, WellFormed, LegAccepted, LegMeets, ElemsAt, Names, AllText;
    var ps, legs := ElemsAt(es, 2), ElemsAt(es, 3);
    ArrayAt(es, 2);
    ArrayAt(es, 3);
    ItemParts(legs);
    if AllText(ps) {
      forall leg <- legs
        ensures LegAccepted(leg, Names(ps)) <==> LegMeets(leg, ps)
      {
        LegExactly(leg, ps);
      }
    }
  }

  lemma ContentExactly(es: seq<Entry>, key: nat)
    requires WellFormedEntries(Go, es, None) && 4 <= key <= 6
    requires Lookup(es, key).Some? ==> Lookup(es, key).value.Arr?
    ensures ContentAccepted(es, key) <==>
            forall vs: seq<Value> :: Binds(es, key, Arr(vs)) ==> AllMeet(vs, ContentSchema(key))
    ensures ElemsAt(es, key) != [] <==> exists vs: seq<Value> :: Binds(es, key, Arr(vs)) && vs != []
  {
    hide Lookup, Binds, WellFormedEntries, WellFormedItems, AllMeet, ItemsAccepted;
    ArrayAt(es, key);
    ItemsExactly(ContentSchema(key), ElemsAt(es, key));
  }

  lemma ReportFields(es: seq<Entry>)
    ensures FieldsAccepted(es, REPORT_FIELDS) <==>
            && FieldAccepted(es, Opt(2, KBytes)) && FieldAccepted(es, Req(3, KUint)) && FieldAccepted(es, Opt(4, KArray))
            && FieldAccepted(es, Opt(5, KArray)) && FieldAccepted(es, Opt(6, KArray))
  {
    hide FieldAccepted;
    var schema := REPORT_FIELDS;
    assert schema[0] in schema && schema[1] in schema && schema[2] in schema && schema[3] in schema && schema[4] in schema;
  }

  lemma ReportExactly(es: seq<Entry>)
    requires WellFormedEntries(Go, es, None)
    ensures ReportAccepted(es) <==> ReportMeets(es)
  {
    hide Lookup, Binds, WellFormedEntries, KeysAccepted, Meets, AllMeet, ElemsAt, ItemsAccepted, FieldsAccepted, ContentSchema;
    MeetsExactly(es, REPORT_FIELDS);
    ReportFields(es);
    BindsLookup(es, 1);
    BindsLookup(es, 2);
    if FieldAccepted(es, Opt(4, KArray)) && FieldAccepted(es, Opt(5, KArray)) && FieldAccepted(es, Opt(6, KArray)) {
      ContentExactly(es, 4);
      ContentExactly(es, 5);
      ContentExactly(es, 6);
      ContentTogether(es);
    }
  }

  /** Keys 4 to 6 taken one by one or together. */
  lemma ContentTogether(es: seq<Entry>)
    ensures (forall key, vs: seq<Value> :: 4 <= key <= 6 && Binds(es, key, Arr(vs)) ==> AllMeet(vs, ContentSchema(key))) <==>
            && (forall vs: seq<Value> :: Binds(es, 4, Arr(vs)) ==> AllMeet(vs, ContentSchema(4)))
            && (forall vs: seq<Value> :: Binds(es, 5, Arr(vs)) ==> AllMeet(vs, ContentSchema(5)))
            && (forall vs: seq<Value> :: Binds(es, 6, Arr(vs)) ==> AllMeet(vs, ContentSchema(6)))
    ensures (exists key, vs: seq<Value> :: 4 <= key <= 6 && Binds(es, key, Arr(vs)) && vs != []) <==>
            || (exists vs: seq<Value> :: Binds(es, 4, Arr(vs)) && vs != [])
            || (exists vs: seq<Value> :: Binds(es, 5, Arr(vs)) && vs != [])
            || (exists vs: seq<Value> :: Binds(es, 6, Arr(vs)) && vs != [])
  {
    hide Binds, AllMeet, ContentSchema;
  }

  lemma ProposalFields(es: seq<Entry>)
    requires FieldsAccepted(es, CommerceSchema(INTENT_PROPOSE).value)
    ensures Lookup(es, 2).Some? && Lookup(es, 2).value.Arr? && Lookup(es, 3).Some? && Lookup(es, 3).value.Arr?
  {
    hide Lookup;
    var schema := CommerceSchema(INTENT_PROPOSE).value;
    assert schema[0] == Req(2, KArray) && schema[1] == Req(3, KArray);
    assert FieldAccepted(es, schema[0]) && FieldAccepted(es, schema[1]);
  }

  // ---------- whole bodies ----------

  lemma EnvelopeExactly(ft: u16, es: seq<Entry>)
    requires WellFormedEntries(Go, es, None)
    ensures EnvelopeAccepted(ft, es) <==>
            Binds(es, 0, Uint(ft)) && Present(es, 1) && (forall v :: Binds(es, 1, v) ==> IsCorr(v))
  {
    hide Lookup, Binds, WellFormedEntries, Present;
    BindsLookup(es, 0);
    BindsLookup(es, 1);
  }

  lemma CommerceExactly(ft: u16, es: seq<Entry>)
    requires WellFormedEntries(Go, es, None)
    requires CommerceSchema(ft).Some? && FieldsAccepted(es, CommerceSchema(ft).value)
    ensures CommerceNested(ft, es) <==>
            && (ft == MANDATE_CREATE ==> forall v :: Binds(es, 4, v) ==> v.Map? && Meets(v.entries, AMOUNT))
            && (ft == INTENT_PROPOSE ==> ProposalMeets(es))
  {
    hide Lookup, Binds, WellFormedEntries, WellFormed, Meets, ItemAccepted, FieldsAccepted, CommerceSchema, ProposalMeets;
    if ft == MANDATE_CREATE {
      BindsLookup(es, 4);
      BoundWellFormed(es, 4);
      if Lookup(es, 4).Some? { ItemExactly(AMOUNT, Lookup(es, 4).value); }
    } else if ft == INTENT_PROPOSE {
      ProposalFields(es);
      ProposalExactly(es);
    }
  }

  lemma GossipExactly(ft: u16, es: seq<Entry>)
    requires WellFormedEntries(Go, es, None)
    ensures GossipNested(ft, es) <==>
            && (ft == GOSSIP_ADVERTISE ==> forall vs: seq<Value> :: Binds(es, 2, Arr(vs)) ==> AllMeet(vs, DESCRIPTOR))
            && (ft == GOSSIP_PULL_RESULT ==> forall vs: seq<Value> :: Binds(es, 2, Arr(vs)) ==> AllMeet(vs, ITEM))
  {
    hide Lookup, Binds, WellFormedEntries, WellFormedItems, Meets, ItemAccepted;
    ArrayAt(es, 2);
    ItemsExactly(DESCRIPTOR, ElemsAt(es, 2));
    ItemsExactly(ITEM, ElemsAt(es, 2));
  }

  /** On a decoded map, the validators' scans and the documented rules agree. */
  lemma BodyExactly(ch: Channel, ft: u16, es: seq<Entry>)
    requires WellFormedEntries(Go, es, None)
    ensures BodyAccepted(ch, ft, es) <==> BodyMeets(ch, ft, es)
  {
    hide Lookup, Binds, WellFormedEntries, Meets, FieldsAccepted, KeysAccepted, ReportAccepted, ReportMeets,
      CommerceNested, GossipNested, ProposalMeets, EnvelopeAccepted, AllMeet, CommerceSchema, MemorySchema,
      TelemetrySchema, ImmuneSchema, Present, IsCorr;
    if SchemaOf(ch, ft).Some? {
      if ch == Telemetry && ft == REPORT {
        BindsLookup(es, 0);
        ReportExactly(es);
      } else {
        EnvelopeExactly(ft, es);
        MeetsExactly(es, SchemaOf(ch, ft).value);
        if ch == Commerce && FieldsAccepted(es, SchemaOf(ch, ft).value) { CommerceExactly(ft, es); }
        if ch == Immune { GossipExactly(ft, es); }
      }
    }
  }

  /** A payload is accepted exactly when it is the canonical encoding of a map of depth at most 8 that meets the rules. */
  lemma BodyCanonical(ch: Channel, ft: u16, payload: bytes, es: seq<Entry>)
    ensures Validate(ch, ft, payload) == Some(es) <==>
            && WellFormed(Go, Map(es)) && Depth(Map(es)) <= 8 && payload == Encode(Map(es))
            && BodyMeets(ch, ft, es)
  {
    hide DecodeTop, Encode, Depth, BodyAccepted, BodyMeets, WellFormedEntries;
    Canonical(Go, payload, Map(es));
    if DecodeTop(Go, payload).Ok? { Canonical(Go, payload, DecodeTop(Go, payload).value); }
    if WellFormed(Go, Map(es)) { BodyExactly(ch, ft, es); }
  }

  /** The frame kind inside the body ties a payload to one frame type of its channel. */
  lemma OneFrameType(ch: Channel, ft: u16, gt: u16, payload: bytes)
    requires Validate(ch, ft, payload).Some? && Validate(ch, gt, payload).Some?
    ensures ft == gt
  {
    hide DecodeTop, Lookup, SchemaOf, FieldsAccepted, KeysAccepted, ReportAccepted, CommerceNested, GossipNested;
  }

  // ---------- new keys ----------

  /** The entries with one more unsigned key, in its place. */
  function Insert(es: seq<Entry>, key: nat, v: Value): seq<Entry>
    decreases |es|
  {
    var enc := Encode(Uint(key));
    if es == [] || LexLess(enc, es[0].keyEnc) then [Entry(enc, Uint(key), v)] + es
    else [es[0]] + Insert(es[1..], key, v)
  }

  lemma {:induction false} InsertLookup(es: seq<Entry>, key: nat, v: Value, other: nat)
    requires key < U64_LIMIT && other < U64_LIMIT
    ensures other != key ==> Lookup(Insert(es, key, v), other) == Lookup(es, other)
    ensures Lookup(es, key).None? ==> Lookup(Insert(es, key, v), key) == Some(v)
    decreases |es|
  {
    hide Encode, LexLess;
    EncodesUint(Uint(key), other);
    var enc := Encode(Uint(key));
    if es == [] || LexLess(enc, es[0].keyEnc) {
      assert Insert(es, key, v)[1..] == es;
    } else {
      InsertLookup(es[1..], key, v, other);
      assert Insert(es, key, v)[1..] == Insert(es[1..], key, v);
    }
  }

  lemma {:induction false} InsertShape(es: seq<Entry>, key: nat, v: Value)
    ensures |Insert(es, key, v)| == |es| + 1
    ensures DepthEntries(Insert(es, key, v)) == Max(DepthEntries(es), Depth(v))
    decreases |es|
  {
    hide Encode, LexLess, Depth;
    DepthPositive(v);
    assert Depth(Uint(key)) == 1 by { DepthOfUint(key); }
    var r := Insert(es, key, v);
    if es == [] || LexLess(Encode(Uint(key)), es[0].keyEnc) {
      assert r[1..] == es;
    } else {
      InsertShape(es[1..], key, v);
      assert r[1..] == Insert(es[1..], key, v);
    }
  }

  lemma {:induction false} InsertKeys(es: seq<Entry>, key: nat, v: Value)
    ensures KeysAccepted(Insert(es, key, v)) <==> KeysAccepted(es)
    decreases |es|
  {
    hide Encode, LexLess;
    if es == [] || LexLess(Encode(Uint(key)), es[0].keyEnc) {
      assert forall e <- es :: e in Insert(es, key, v);
    } else {
      InsertKeys(es[1..], key, v);
      var later := Insert(es[1..], key, v);
      assert Insert(es, key, v) == [es[0]] + later && es == [es[0]] + es[1..];
      KeysSplit(es[0], later);
      KeysSplit(es[0], es[1..]);
    }
  }

  lemma KeysSplit(e: Entry, es: seq<Entry>)
    ensures KeysAccepted([e] + es) <==> KeyAccepted(e.key) && KeysAccepted(es)
  {
    if KeysAccepted([e] + es) {
      assert e in [e] + es;
      assert forall x <- es :: x in [e] + es;
    }
  }

  lemma DepthPositive(v: Value)
    ensures Depth(v) >= 1
  {}

  lemma DepthOfUint(key: nat)
    ensures Depth(Uint(key)) == 1
  {}

  lemma {:induction false} InsertWellFormed(es: seq<Entry>, prev: Option<bytes>, key: nat, v: Value)
    requires WellFormedEntries(Go, es, prev) && Lookup(es, key).None?
    requires key < U64_LIMIT && WellFormed(Go, v) && (prev.Some? ==> LexLess(prev.value, Encode(Uint(key))))
    ensures WellFormedEntries(Go, Insert(es, key, v), prev)
    decreases |es|
  {
    hide Encode, LexLess, WellFormed;
    var enc := Encode(Uint(key));
    var r := Insert(es, key, v);
    assert WellFormed(Go, Uint(key)) by { UintWellFormed(key); }
    if es == [] || LexLess(enc, es[0].keyEnc) {
      assert r[1..] == es;
    } else {
      LexTotal(enc, es[0].keyEnc);
      InsertWellFormed(es[1..], Some(es[0].keyEnc), key, v);
      assert r[1..] == Insert(es[1..], key, v);
    }
  }

  lemma UintWellFormed(key: nat)
    requires key < U64_LIMIT
    ensures WellFormed(Go, Uint(key))
  {}

  /** The keys a frame type's table names, with the two envelope keys. */
  predicate Known(ch: Channel, ft: u16, key: nat) {
    key == 0 || key == 1 || (SchemaOf(ch, ft).Some? && exists f <- SchemaOf(ch, ft).value :: f.key == key)
  }

  lemma FieldsUnmoved(es: seq<Entry>, schema: seq<Field>, key: nat, v: Value)
    requires key < U64_LIMIT && forall f <- schema :: f.key != key
    ensures FieldsAccepted(Insert(es, key, v), schema) <==> FieldsAccepted(es, schema)
  {
    hide Lookup, Insert;
    forall f <- schema
      ensures FieldAccepted(Insert(es, key, v), f) <==> FieldAccepted(es, f)
    {
      InsertLookup(es, key, v, f.key);
    }
  }

  lemma KnownKeys(ch: Channel, ft: u16)
    requires SchemaOf(ch, ft).Some?
    ensures ch == Commerce && ft == MANDATE_CREATE ==> Known(ch, ft, 4)
    ensures ch == Commerce && ft == INTENT_PROPOSE ==> Known(ch, ft, 2) && Known(ch, ft, 3)
    ensures ch == Telemetry && ft == REPORT ==>
              Known(ch, ft, 2) && Known(ch, ft, 3) && Known(ch, ft, 4) && Known(ch, ft, 5) && Known(ch, ft, 6)
    ensures ch == Immune && (ft == GOSSIP_ADVERTISE || ft == GOSSIP_PULL_RESULT) ==> Known(ch, ft, 2)
  {
    var s := SchemaOf(ch, ft).value;
    if ch == Commerce && ft == MANDATE_CREATE { assert s[2].key == 4; }
    if ch == Commerce && ft == INTENT_PROPOSE { assert s[0].key == 2 && s[1].key == 3; }
    if ch == Telemetry && ft == REPORT {
      assert s[0].key == 2 && s[1].key == 3 && s[2].key == 4 && s[3].key == 5 && s[4].key == 6;
    }
    if ch == Immune && (ft == GOSSIP_ADVERTISE || ft == GOSSIP_PULL_RESULT) { assert s[0].key == 2; }
  }

  lemma ReportUnmoved(es: seq<Entry>, key: nat, v: Value)
    requires 6 < key < U64_LIMIT
    ensures ReportAccepted(Insert(es, key, v)) <==> ReportAccepted(es)
  {
    hide Lookup, Insert, KeysAccepted, ItemsAccepted, MatchesKind, ContentSchema;
    InsertKeys(es, key, v);
    InsertLookup(es, key, v, 1);
    InsertLookup(es, key, v, 2);
    InsertLookup(es, key, v, 3);
    InsertLookup(es, key, v, 4);
    InsertLookup(es, key, v, 5);
    InsertLookup(es, key, v, 6);
  }

  lemma NestedUnmoved(ch: Channel, ft: u16, es: seq<Entry>, key: nat, v: Value)
    requires key < U64_LIMIT && !Known(ch, ft, key) && SchemaOf(ch, ft).Some?
    ensures ch == Commerce ==> (CommerceNested(ft, Insert(es, key, v)) <==> CommerceNested(ft, es))
    ensures ch == Immune ==> (GossipNested(ft, Insert(es, key, v)) <==> GossipNested(ft, es))
  {
    hide Lookup, Insert, SchemaOf, ItemAccepted, ItemsAccepted, LegsAccepted, Names, AllText, Known;
    KnownKeys(ch, ft);
    if key != 2 { InsertLookup(es, key, v, 2); }
    if key != 3 { InsertLookup(es, key, v, 3); }
    if key != 4 { InsertLookup(es, key, v, 4); }
  }

  /** Every rule looks only at known keys. */
  lemma UnknownKeyIgnored(ch: Channel, ft: u16, es: seq<Entry>, key: nat, v: Value)
    requires key < U64_LIMIT && !Known(ch, ft, key)
    ensures BodyAccepted(ch, ft, Insert(es, key, v)) <==> BodyAccepted(ch, ft, es)
    ensures Lookup(Insert(es, key, v), 0) == Lookup(es, 0) && Lookup(Insert(es, key, v), 1) == Lookup(es, 1)
  {
    hide Lookup, Insert, SchemaOf, FieldsAccepted, KeysAccepted, ReportAccepted, CommerceNested, GossipNested, CorrAccepted;
    InsertLookup(es, key, v, 0);
    InsertLookup(es, key, v, 1);
    if SchemaOf(ch, ft).Some? {
      KnownKeys(ch, ft);
      InsertKeys(es, key, v);
      FieldsUnmoved(es, SchemaOf(ch, ft).value, key, v);
      NestedUnmoved(ch, ft, es, key, v);
      if ch == Telemetry && ft == REPORT { ReportUnmoved(es, key, v); }
    }
  }

  /**
   * Adding an unused key the frame's table does not name keeps an accepted body accepted, with the
   * same frame kind and correlation identifier, exactly when the new value nests at most 7 deep.
   */
  lemma ForwardCompatible(ch: Channel, ft: u16, payload: bytes, key: nat, v: Value)
    requires Validate(ch, ft, payload).Some? && key < U64_LIMIT && !Known(ch, ft, key) && WellFormed(Go, v)
    requires var es := Validate(ch, ft, payload).value; Lookup(es, key).None? && |es| + 1 < U64_LIMIT
    ensures var es := Validate(ch, ft, payload).value;
            var more := Insert(es, key, v);
            && Validate(ch, ft, Encode(Map(more))) == (if Depth(v) <= 7 then Some(more) else None)
            && Lookup(more, 0) == Lookup(es, 0) && Lookup(more, 1) == Lookup(es, 1) && Lookup(more, key) == Some(v)
  {
    hide DecodeTop, Encode, BodyAccepted, BodyMeets, WellFormedEntries, DepthEntries, Lookup, Insert, Known;
    var es := Validate(ch, ft, payload).value;
    var more := Insert(es, key, v);
    Canonical(Go, payload, Map(es));
    UnknownKeyIgnored(ch, ft, es, key, v);
    InsertLookup(es, key, v, key);
    InsertShape(es, key, v);
    InsertWellFormed(es, None, key, v);
    RoundTrip(Go, Map(more));
  }
}
