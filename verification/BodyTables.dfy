/**
 * The field tables as the channel documents print them, one letter per field in key order: T text, U unsigned
 * integer, B octets, A array, M map, F boolean, N any integer; a capital for a REQUIRED field.
 */
module BodyTables {
  import opened Bytes
  import opened Cbor
  import opened CborTheorems
  import opened BodyRules

  /** The letter of a kind, small and capital. */
  function Letters(k: Kind): string {
    match k
    case KText => "tT"
    case KUint => "uU"
    case KBytes => "bB"
    case KArray => "aA"
    case KMap => "mM"
    case KBool => "fF"
    case KNumber => "nN"
  }

  predicate Reads(letter: char, f: Field) { letter == Letters(f.kind)[if f.required then 1 else 0] }

  /** The fields are those of the row, under consecutive keys. */
  predicate Tabled(fields: seq<Field>, first: nat, row: string) {
    && |fields| == |row|
    && forall i :: 0 <= i < |row| ==> fields[i].key == first + i && Reads(row[i], fields[i])
  }

  predicate Body(ch: Channel, ft: u16, row: string) { SchemaOf(ch, ft).Some? && Tabled(SchemaOf(ch, ft).value, 2, row) }

  // ---------- Memory ----------

  lemma MemoryCreate()
    ensures Body(Memory, 0x0100, "TtttttttmU")
    ensures Body(Memory, 0x0101, "TT")
  {}

  lemma MemoryRead()
    ensures Body(Memory, 0x0102, "TU")
    ensures Body(Memory, 0x0103, "M")
  {}

  lemma MemoryUpdate()
    ensures Body(Memory, 0x0104, "TttttttmU")
    ensures Body(Memory, 0x0105, "TT")
  {}

  lemma MemoryDelete()
    ensures Body(Memory, 0x0106, "TU")
    ensures Body(Memory, 0x0107, "TT")
  {}

  lemma MemoryRetrieve()
    ensures Body(Memory, 0x0108, "tttttutbU")
    ensures Body(Memory, 0x0109, "AFbuf")
    ensures Body(Memory, 0x010A, "A")
    ensures Body(Memory, 0x010B, "aF")
  {}

  lemma MemoryStatus()
    ensures Body(Memory, 0x010C, "")
    ensures Body(Memory, 0x010D, "Ttum")
    ensures Body(Memory, 0x010E, "UTut")
  {}

  lemma MemoryEvict()
    ensures Body(Memory, 0x0035, "TtU")
    ensures Body(Memory, 0x0036, "TU")
  {}

  // ---------- Commerce ----------

  lemma CommerceMandateCreate()
    ensures Body(Commerce, 0x0100, "TTMtttmtbttU")
    ensures Body(Commerce, 0x0101, "TT")
  {}

  lemma CommerceMandates()
    ensures Body(Commerce, 0x0102, "TU")
    ensures Body(Commerce, 0x0103, "M")
    ensures Body(Commerce, 0x0104, "TtU")
    ensures Body(Commerce, 0x0105, "TT")
    ensures Body(Commerce, 0x0106, "TU")
    ensures Body(Commerce, 0x0107, "TTt")
  {}

  lemma CommerceProposals()
    ensures Body(Commerce, 0x0108, "AAtmtU")
    ensures Body(Commerce, 0x0109, "TT")
  {}

  lemma CommerceIntents()
    ensures Body(Commerce, 0x010A, "TUatU")
    ensures Body(Commerce, 0x010B, "TT")
    ensures Body(Commerce, 0x010C, "TU")
    ensures Body(Commerce, 0x010D, "TTaa")
    ensures Body(Commerce, 0x010E, "UTut")
  {}

  // ---------- Telemetry ----------

  lemma TelemetryReports()
    ensures Body(Telemetry, 0x0100, "bUaaa")
    ensures Body(Telemetry, 0x0101, "aaauuU")
  {}

  lemma TelemetrySubscriptions()
    ensures Body(Telemetry, 0x0102, "BUa")
    ensures Body(Telemetry, 0x0103, "B")
    ensures Body(Telemetry, 0x0104, "BUu")
    ensures Body(Telemetry, 0x0105, "Utb")
  {}

  // ---------- Immune ----------

  lemma ImmuneReports()
    ensures Body(Immune, 0x0100, "TUUtttbut")
    ensures Body(Immune, 0x0101, "Ut")
    ensures Body(Immune, 0x0102, "UTu")
  {}

  lemma ImmuneGossip()
    ensures Body(Immune, 0x00C0, "Af")
    ensures Body(Immune, 0x00C1, "aau")
    ensures Body(Immune, 0x00C2, "A")
    ensures Body(Immune, 0x00C3, "A")
    ensures Body(Immune, 0x00C4, "BUu")
  {}

  // ---------- nested maps ----------

  lemma ReportContents()
    ensures Tabled(ContentSchema(4), 0, "TUUNtmu") && Tabled(ContentSchema(5), 0, "TUumtu")
    ensures Tabled(ContentSchema(6), 0, "TUUtm")
  {}

  lemma Amounts()
    ensures Tabled(AMOUNT, 0, "NUT")
  {}

  lemma GossipDescriptors()
    ensures Tabled(DESCRIPTOR, 0, "BUuubttubb")
  {}

  lemma GossipItems()
    ensures Tabled(ITEM, 0, "BUuubttuB")
  {}

  // ---------- no others ----------

  /** The operations each channel has, and no others. */
  lemma Operations(ft: u16)
    ensures SchemaOf(Memory, ft).Some? <==> 0x0100 <= ft <= 0x010E || ft == 0x0035 || ft == 0x0036
    ensures SchemaOf(Commerce, ft).Some? <==> 0x0100 <= ft <= 0x010E
    ensures SchemaOf(Telemetry, ft).Some? <==> 0x0100 <= ft <= 0x0105
    ensures SchemaOf(Immune, ft).Some? <==> 0x0100 <= ft <= 0x0102 || 0x00C0 <= ft <= 0x00C4
  {}

  /** What a field's kind means on the wire: the major type of the value's first octet. */
  lemma KindOctets(v: Value, k: Kind)
    requires WellFormed(Go, v)
    ensures MatchesKind(v, k) <==>
              var e := Encode(v);
              match k
              case KUint => e[0] / 32 == 0
              case KNumber => e[0] / 32 == 0 || e[0] / 32 == 1
              case KBytes => e[0] / 32 == 2
              case KText => e[0] / 32 == 3
              case KArray => e[0] / 32 == 4
              case KMap => e[0] / 32 == 5
              case KBool => e[0] == 0xf4 || e[0] == 0xf5
  {
    hide EncodeHead, EncodeItems, EncodeEntries;
    ValueOctets(Go, v);
    if v.Uint? { HeadOctets(0, v.u); }
    if v.Int? { HeadOctets(1, -(v.i + 1)); }
    if v.ByteStr? { HeadOctets(2, |v.bs|); }
    if v.Text? { HeadOctets(3, |v.ts|); }
    if v.Arr? { HeadOctets(4, |v.elems|); }
    if v.Map? { HeadOctets(5, |v.entries|); }
  }
}
