/**
 * Operation bodies of the Memory, Commerce, Telemetry and Immune channels: the field tables, what
 * the validators accept, and the rules the channel documents state.
 */
module BodyRules {
  import opened Bytes
  import opened Cbor
  import opened CborOrder

  datatype Channel = Memory | Commerce | Telemetry | Immune
  datatype Kind = KUint | KText | KBytes | KArray | KMap | KBool | KNumber
  datatype Field = Field(key: u64, kind: Kind, required: bool)

  function Req(key: u64, kind: Kind): Field { Field(key, kind, true) }
  function Opt(key: u64, kind: Kind): Field { Field(key, kind, false) }

  predicate MatchesKind(v: Value, k: Kind) {
    match k
    case KUint => v.Uint?
    case KText => v.Text?
    case KBytes => v.ByteStr?
    case KArray => v.Arr?
    case KMap => v.Map?
    case KBool => v.Bool?
    case KNumber => v.Uint? || v.Int?
  }

  // ---------- field tables ----------

  const MANDATE_CREATE: u16 := 0x0100
  const INTENT_PROPOSE: u16 := 0x0108
  const REPORT: u16 := 0x0100
  const GOSSIP_ADVERTISE: u16 := 0x00C0
  const GOSSIP_PULL_RESULT: u16 := 0x00C3

  function MemorySchema(ft: u16): Option<seq<Field>> {
    match ft
    case 0x0100 => Some([Req(2, KText), Opt(3, KText), Opt(4, KText), Opt(5, KText), Opt(6, KText), Opt(7, KText),
                         Opt(8, KText), Opt(9, KText), Opt(10, KMap), Req(11, KUint)])
    case 0x0101 => Some([Req(2, KText), Req(3, KText)])
    case 0x0102 => Some([Req(2, KText), Req(3, KUint)])
    case 0x0103 => Some([Req(2, KMap)])
    case 0x0104 => Some([Req(2, KText), Opt(3, KText), Opt(4, KText), Opt(5, KText), Opt(6, KText), Opt(7, KText),
                         Opt(8, KText), Opt(9, KMap), Req(10, KUint)])
    case 0x0105 => Some([Req(2, KText), Req(3, KText)])
    case 0x0106 => Some([Req(2, KText), Req(3, KUint)])
    case 0x0107 => Some([Req(2, KText), Req(3, KText)])
    case 0x0108 => Some([Opt(2, KText), Opt(3, KText), Opt(4, KText), Opt(5, KText), Opt(6, KText), Opt(7, KUint),
                         Opt(8, KText), Opt(9, KBytes), Req(10, KUint)])
    case 0x0109 => Some([Req(2, KArray), Req(3, KBool), Opt(4, KBytes), Opt(5, KUint), Opt(6, KBool)])
    case 0x010A => Some([Req(2, KArray)])
    case 0x010B => Some([Opt(2, KArray), Req(3, KBool)])
    case 0x010C => Some([])
    case 0x010D => Some([Req(2, KText), Opt(3, KText), Opt(4, KUint), Opt(5, KMap)])
    case 0x010E => Some([Req(2, KUint), Req(3, KText), Opt(4, KUint), Opt(5, KText)])
    case 0x0035 => Some([Req(2, KText), Opt(3, KText), Req(4, KUint)])
    case 0x0036 => Some([Req(2, KText), Req(3, KUint)])
    case _ => None
  }

  function CommerceSchema(ft: u16): Option<seq<Field>> {
    match ft
    case 0x0100 => Some([Req(2, KText), Req(3, KText), Req(4, KMap), Opt(5, KText), Opt(6, KText), Opt(7, KText),
                         Opt(8, KMap), Opt(9, KText), Opt(10, KBytes), Opt(11, KText), Opt(12, KText), Req(13, KUint)])
    case 0x0101 => Some([Req(2, KText), Req(3, KText)])
    case 0x0102 => Some([Req(2, KText), Req(3, KUint)])
    case 0x0103 => Some([Req(2, KMap)])
    case 0x0104 => Some([Req(2, KText), Opt(3, KText), Req(4, KUint)])
    case 0x0105 => Some([Req(2, KText), Req(3, KText)])
    case 0x0106 => Some([Req(2, KText), Req(3, KUint)])
    case 0x0107 => Some([Req(2, KText), Req(3, KText), Opt(4, KText)])
    case 0x0108 => Some([Req(2, KArray), Req(3, KArray), Opt(4, KText), Opt(5, KMap), Opt(6, KText), Req(7, KUint)])
    case 0x0109 => Some([Req(2, KText), Req(3, KText)])
    case 0x010A => Some([Req(2, KText), Req(3, KUint), Opt(4, KArray), Opt(5, KText), Req(6, KUint)])
    case 0x010B => Some([Req(2, KText), Req(3, KText)])
    case 0x010C => Some([Req(2, KText), Req(3, KUint)])
    case 0x010D => Some([Req(2, KText), Req(3, KText), Opt(4, KArray), Opt(5, KArray)])
    case 0x010E => Some([Req(2, KUint), Req(3, KText), Opt(4, KUint), Opt(5, KText)])
    case _ => None
  }

  function TelemetrySchema(ft: u16): Option<seq<Field>> {
    match ft
    case 0x0100 => Some(REPORT_FIELDS)
    case 0x0101 => Some([Opt(2, KArray), Opt(3, KArray), Opt(4, KArray), Opt(5, KUint), Opt(6, KUint), Req(7, KUint)])
    case 0x0102 => Some([Req(2, KBytes), Req(3, KUint), Opt(4, KArray)])
    case 0x0103 => Some([Req(2, KBytes)])
    case 0x0104 => Some([Req(2, KBytes), Req(3, KUint), Opt(4, KUint)])
    case 0x0105 => Some([Req(2, KUint), Opt(3, KText), Opt(4, KBytes)])
    case _ => None
  }

  function ImmuneSchema(ft: u16): Option<seq<Field>> {
    match ft
    case 0x0100 => Some([Req(2, KText), Req(3, KUint), Req(4, KUint), Opt(5, KText), Opt(6, KText), Opt(7, KText),
                         Opt(8, KBytes), Opt(9, KUint), Opt(10, KText)])
    case 0x0101 => Some([Req(2, KUint), Opt(3, KText)])
    case 0x0102 => Some([Req(2, KUint), Req(3, KText), Opt(4, KUint)])
    case 0x00C0 => Some([Req(2, KArray), Opt(3, KBool)])
    case 0x00C1 => Some([Opt(2, KArray), Opt(3, KArray), Opt(4, KUint)])
    case 0x00C2 => Some([Req(2, KArray)])
    case 0x00C3 => Some([Req(2, KArray)])
    case 0x00C4 => Some([Req(2, KBytes), Req(3, KUint), Opt(4, KUint)])
    case _ => None
  }

  function SchemaOf(ch: Channel, ft: u16): Option<seq<Field>> {
    match ch
    case Memory => MemorySchema(ft)
    case Commerce => CommerceSchema(ft)
    case Telemetry => TelemetrySchema(ft)
    case Immune => ImmuneSchema(ft)
  }

  const REPORT_FIELDS: seq<Field> := [Opt(2, KBytes), Req(3, KUint), Opt(4, KArray), Opt(5, KArray), Opt(6, KArray)]
  const METRIC: seq<Field> := [Req(0, KText), Req(1, KUint), Req(2, KUint), Req(3, KNumber), Opt(4, KText), Opt(5, KMap),
                               Opt(6, KUint)]
  const EVENT: seq<Field> := [Req(0, KText), Req(1, KUint), Opt(2, KUint), Opt(3, KMap), Opt(4, KText), Opt(5, KUint)]
  const HEALTH: seq<Field> := [Req(0, KText), Req(1, KUint), Req(2, KUint), Opt(3, KText), Opt(4, KMap)]
  const DESCRIPTOR: seq<Field> := [Req(0, KBytes), Req(1, KUint), Opt(2, KUint), Opt(3, KUint), Opt(4, KBytes),
                                   Opt(5, KText), Opt(6, KText), Opt(7, KUint), Opt(8, KBytes), Opt(9, KBytes)]
  const ITEM: seq<Field> := [Req(0, KBytes), Req(1, KUint), Opt(2, KUint), Opt(3, KUint), Opt(4, KBytes), Opt(5, KText),
                             Opt(6, KText), Opt(7, KUint), Req(8, KBytes)]
  const AMOUNT: seq<Field> := [Req(0, KNumber), Req(1, KUint), Req(2, KText)]

  /** The content arrays of a telemetry report. */
  function ContentSchema(key: nat): seq<Field>
    requires 4 <= key <= 6
  {
    if key == 4 then METRIC else if key == 5 then EVENT else HEALTH
  }

  // ---------- what the validators accept, by scanning the entries ----------

  /** An unknown key must be a non-negative integer. */
  predicate KeyAccepted(k: Value) { k.Uint? || (k.Int? && k.i >= 0) }
  predicate KeysAccepted(es: seq<Entry>) { forall e <- es :: KeyAccepted(e.key) }

  predicate FieldAccepted(es: seq<Entry>, f: Field) {
    match Lookup(es, f.key)
    case None => !f.required
    case Some(v) => MatchesKind(v, f.kind)
  }

  predicate FieldsAccepted(es: seq<Entry>, schema: seq<Field>) { forall f <- schema :: FieldAccepted(es, f) }

  predicate ItemAccepted(schema: seq<Field>, v: Value) {
    v.Map? && FieldsAccepted(v.entries, schema) && KeysAccepted(v.entries)
  }

  predicate ItemsAccepted(schema: seq<Field>, vs: seq<Value>) { forall v <- vs :: ItemAccepted(schema, v) }

  predicate CorrAccepted(v: Option<Value>) { v.Some? && v.value.ByteStr? && 1 <= |v.value.bs| <= 64 }

  predicate EnvelopeAccepted(ft: u16, es: seq<Entry>) {
    Lookup(es, 0) == Some(Uint(ft)) && CorrAccepted(Lookup(es, 1))
  }

  predicate PartyAccepted(v: Option<Value>, parties: set<bytes>) { v.Some? && v.value.Text? && v.value.ts in parties }

  predicate LegAccepted(v: Value, parties: set<bytes>) {
    && v.Map? && PartyAccepted(Lookup(v.entries, 0), parties) && PartyAccepted(Lookup(v.entries, 1), parties)
    && Lookup(v.entries, 2).Some? && ItemAccepted(AMOUNT, Lookup(v.entries, 2).value) && KeysAccepted(v.entries)
  }

  predicate AllText(vs: seq<Value>) { forall v <- vs :: v.Text? }

  function Names(vs: seq<Value>): set<bytes> { set v <- vs | v.Text? :: v.ts }

  predicate LegsAccepted(vs: seq<Value>, parties: set<bytes>) { forall v <- vs :: LegAccepted(v, parties) }

  predicate CommerceNested(ft: u16, es: seq<Entry>) {
    if ft == MANDATE_CREATE then
      Lookup(es, 4).Some? ==> ItemAccepted(AMOUNT, Lookup(es, 4).value)
    else if ft == INTENT_PROPOSE then
      var parties, legs := ElemsAt(es, 2), ElemsAt(es, 3);
      AllText(parties) && LegsAccepted(legs, Names(parties))
    else true
  }

  /** The array under a key; empty when there is none. */
  function ElemsAt(es: seq<Entry>, key: nat): seq<Value> {
    var v := Lookup(es, key);
    if v.Some? && v.value.Arr? then v.value.elems else []
  }

  predicate ContentAccepted(es: seq<Entry>, key: nat)
    requires 4 <= key <= 6
  {
    Lookup(es, key).Some? ==>
      Lookup(es, key).value.Arr? && ItemsAccepted(ContentSchema(key), Lookup(es, key).value.elems)
  }

  predicate ReportAccepted(es: seq<Entry>) {
    && (Lookup(es, 1).Some? <==> Lookup(es, 2).Some?)
    && (Lookup(es, 1).Some? ==> CorrAccepted(Lookup(es, 1)) && Lookup(es, 2).value.ByteStr?)
    && FieldAccepted(es, Req(3, KUint))
    && ContentAccepted(es, 4) && ContentAccepted(es, 5) && ContentAccepted(es, 6)
    && (ElemsAt(es, 4) != [] || ElemsAt(es, 5) != [] || ElemsAt(es, 6) != [])
    && KeysAccepted(es)
  }

  predicate GossipNested(ft: u16, es: seq<Entry>) {
    if ft == GOSSIP_ADVERTISE then ItemsAccepted(DESCRIPTOR, ElemsAt(es, 2))
    else if ft == GOSSIP_PULL_RESULT then ItemsAccepted(ITEM, ElemsAt(es, 2))
    else true
  }

  predicate BodyAccepted(ch: Channel, ft: u16, es: seq<Entry>) {
    SchemaOf(ch, ft).Some? &&
    if ch == Telemetry && ft == REPORT then Lookup(es, 0) == Some(Uint(ft)) && ReportAccepted(es)
    else
      && EnvelopeAccepted(ft, es) && FieldsAccepted(es, SchemaOf(ch, ft).value) && KeysAccepted(es)
      && (ch == Commerce ==> CommerceNested(ft, es))
      && (ch == Immune ==> GossipNested(ft, es))
  }

  function Validate(ch: Channel, ft: u16, payload: bytes): Option<seq<Entry>> {
    var r := DecodeTop(Go, payload);
    if r.Ok? && r.value.Map? && BodyAccepted(ch, ft, r.value.entries) then Some(r.value.entries) else None
  }

  // ---------- what the channel documents ask for, by what the map binds ----------

  /** The map binds the unsigned key to the value. */
  predicate Binds(es: seq<Entry>, key: nat, v: Value) { Entry(Encode(Uint(key)), Uint(key), v) in es }

  ghost predicate Present(es: seq<Entry>, key: nat) { exists v :: Binds(es, key, v) }

  ghost predicate Meets(es: seq<Entry>, schema: seq<Field>) {
    && (forall e <- es :: e.key.Uint?)
    && (forall f <- schema :: f.required ==> Present(es, f.key))
    && (forall f <- schema, v :: Binds(es, f.key, v) ==> MatchesKind(v, f.kind))
  }

  ghost predicate AllMeet(vs: seq<Value>, schema: seq<Field>) {
    forall v <- vs :: v.Map? && Meets(v.entries, schema)
  }

  predicate IsCorr(v: Value) { v.ByteStr? && 1 <= |v.bs| <= 64 }

  /** A leg moves a well-formed amount between two of the named parties. */
  ghost predicate LegMeets(leg: Value, parties: seq<Value>) {
    && leg.Map? && Meets(leg.entries, [Req(0, KText), Req(1, KText), Req(2, KMap)])
    && (forall v :: Binds(leg.entries, 0, v) || Binds(leg.entries, 1, v) ==> v in parties)
    && (forall v :: Binds(leg.entries, 2, v) ==> v.Map? && Meets(v.entries, AMOUNT))
  }

  ghost predicate ProposalMeets(es: seq<Entry>) {
    && (forall ps: seq<Value> :: Binds(es, 2, Arr(ps)) ==> AllText(ps))
    && (forall ps: seq<Value>, legs: seq<Value>, leg ::
          Binds(es, 2, Arr(ps)) && Binds(es, 3, Arr(legs)) && leg in legs ==> LegMeets(leg, ps))
  }

  /** A report answers a subscription with both identifiers or stands alone with neither, and is not empty. */
  ghost predicate ReportMeets(es: seq<Entry>) {
    && Meets(es, REPORT_FIELDS)
    && (Present(es, 1) <==> Present(es, 2))
    && (forall v :: Binds(es, 1, v) ==> IsCorr(v))
    && (forall key, vs: seq<Value> :: 4 <= key <= 6 && Binds(es, key, Arr(vs)) ==> AllMeet(vs, ContentSchema(key)))
    && (exists key, vs: seq<Value> :: 4 <= key <= 6 && Binds(es, key, Arr(vs)) && vs != [])
  }

  ghost predicate BodyMeets(ch: Channel, ft: u16, es: seq<Entry>) {
    && SchemaOf(ch, ft).Some? && Binds(es, 0, Uint(ft))
    && if ch == Telemetry && ft == 0x0100 then ReportMeets(es)
       else
         && Meets(es, SchemaOf(ch, ft).value)
         && Present(es, 1) && (forall v :: Binds(es, 1, v) ==> IsCorr(v))
         && (ch == Commerce && ft == 0x0100 ==>
               forall v :: Binds(es, 4, v) ==> v.Map? && Meets(v.entries, AMOUNT))
         && (ch == Commerce && ft == 0x0108 ==> ProposalMeets(es))
         && (ch == Immune && ft == 0x00C0 ==>
               forall vs: seq<Value> :: Binds(es, 2, Arr(vs)) ==> AllMeet(vs, DESCRIPTOR))
         && (ch == Immune && ft == 0x00C3 ==>
               forall vs: seq<Value> :: Binds(es, 2, Arr(vs)) ==> AllMeet(vs, ITEM))
  }
}
