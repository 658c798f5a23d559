# N-PAMP, modelled and verified in Dafny

N-PAMP is a binary agent protocol. This project models the parts of its Go, C# and Python code where
correctness is not obvious from one function, and proves what they promise of each other.

- **Deterministic CBOR** (`Cbor`, `CborTheorems`, `CborRefusals`, `CborOrder`, `GoCbor`, `CsCbor`, `GoMaps`,
  `GoEncode`, `ErrorBody`).
  One specification of the strict decoder, parameterised by the two rules in which the Go decoder and its
  C# port differ. Canonicity is an if-and-only-if; the loops of both decoders, the ERROR-body decoder and
  the projection to plain Go values are proved against it.
- **The model checker of the learning harness** (`Mealy`, `DiffModel`, `ExpandReference`, `RunRole`). The worklist
  comparison of a learned Mealy machine with the reference table means isomorphism of the reachable parts.
- **CRC32C, HKDF-Expand and frames** (`Bits`, `Crc`, `Bursts`, `Residue`, `Hkdf`, `Frames`, `FrameIO`).
  Bitwise and table forms agree, bursts of up to 32 bits are always caught, a string followed by its own
  checksum has one fixed checksum, streams of frames are self-delimiting.
- **Handshake, transcript, key schedule** (`Tlvs`, `Handshake`, `Transcripts`, `KeySchedule`, `Agreement`).
  Encodings are injective, transcripts determine their cut point and messages, and an honest run agrees on
  every secret.
- **The harness drivers** (`SealCounters`, `DriverRuns`, `DriverAnswers`, `DriverNonces`, `HonestDriver`, `Driver`).
  Over every run against an arbitrary peer the scenario flags mean what they say, and it is settled exactly when two
  sealed frames share secret, context and nonce: never between undamaged frames once established, but
  before that every sealed frame uses sequence number 0.
- **Payloads** (`Bridge`, `BodyRules`, `BodyTables`, `BodyTheorems`, `BodyValidators`). Verbatim carriage of foreign
  messages with its one exact ambiguity, and four channel validators against their documented rules.

Code that works by updating variables is modelled by methods with loops, or classes with fields, each
proved equal to a specification function; the properties are then lemmas about those functions.
`dafny verify dfyconfig.toml` checks everything.

## Assumptions

Hash, HMAC, HKDF, AEAD, KEM and signatures are function-valued parameters (`KeySchedule.Crypto`). Where a
theorem needs something of them, the need is a named hypothesis: output lengths (`ExpandLengths`, which
`HkdfLengths` derives for HKDF), extraction being HMAC keyed by the salt (`ExtractIsHmac`, section 2.2 of RFC
5869), opening inverts sealing (`AeadCorrect`), and for the honest run also that
decapsulation returns the encapsulated secret and a signature verifies under its own key
(`PrimitivesCorrect`). UTF-8 decoding in C# is a function parameter. Peers, clocks and I/O are parameters: a
driver step takes everything it observes as a value.

## Where code, documents and expectations part

- The comments on the C# decoder announce the bytewise order of section 4.2.1 of RFC 8949; the code compares
  lengths first. The model follows the code: `CborOrder.CSharpAcceptsGo` and `CborOrder.GoAcceptsCSharp` say
  exactly when that shows.
- The bridge documents say decode then encode and encode then decode are both exact. The first holds; the
  second fails for an unlabelled frame whose foreign message opens like a label (`Bridge.BridgeRoundTrip`).
- A deliberately damaged frame reuses the counter of the next sealed Control frame
  (`SealCounters.DistinctExactly`), and frames sealed before establishment all use sequence number 0
  (`DriverNonces.SilentPeerReuses`); `DriverNonces.EpisodeDistinctExactly` is the exact condition.
- The responder driver trusts that a successful accept returns a connection
  (`DriverRuns.ResponderUnconnected`, with the exact condition in `DriverRuns.ConnectedExactly`); the initiator
  driver checks.
- The C# HKDF loop has no limit at 255 blocks, where its counter octet wraps (`Hkdf.CountersDistinct`); the
  Python oracle refuses.
- The Telemetry document lets a metric value be a float; the codec has no floats, and the validator's table asks for
  an integer (`BodyTables.ReportContents`).
- `checkFields` fills a set of known keys that nothing reads; the model leaves it out.

## Model

| member | source | states |
|---|---|---|
| `CborTheorems.HeadCanonical` | impl/go/memory_cbor.go:327-375 | an argument read from a type header is below 2^64 and the octets read are its shortest encoding |
| `CborTheorems.HeadRoundTrip` | impl/go/memory_cbor.go:181-197 | a shortest-form header reads back as its major type and argument, whatever follows |
| `CborTheorems.OpeningSound` | impl/go/memory_cbor.go:218-262 | everything read before recursion re-encodes to the octets consumed |
| `CborTheorems.OpeningComplete` | impl/go/memory_cbor.go:218-262 | the opening of every well-formed value is read back from its encoding |
| `CborTheorems.DecodeSound` | impl/go/memory_cbor.go:218-322 | a decoded item is well formed, within the depth left, and its encoding is exactly what was consumed |
| `CborTheorems.DecodeComplete` | impl/go/memory_cbor.go:218-322 | a well-formed value within the depth left is decoded from its encoding, leaving the rest |
| `CborTheorems.DecodeTooDeep` | impl/go/memory_cbor.go:218-225 | a value nested beyond the bound is refused with the depth error and nothing else |
| `CborTheorems.Canonical` | impl/go/memory_cbor.go:203-322 | decoding yields `v` if and only if `v` is well formed, at most 8 deep, and the input is its encoding |
| `CborTheorems.RoundTrip` | impl/go/memory_cbor.go:123-168 | a well-formed value decodes back from its encoding when at most 8 deep, and gives the depth error otherwise |
| `CborTheorems.HeadOctets` | impl/go/memory_cbor.go:181-197 | the octets of a type header: major type in the top three bits, the argument in as few octets as it fits |
| `CborTheorems.ValueOctets` | impl/go/memory_cbor.go:123-168 | the integer ranges, the major type of each kind of value, what follows its header, and the three simple values |
| `CborRefusals.PrefixesAndExtensions` | impl/go/memory_cbor.go:203-322 | every strict prefix of an encoding is refused as truncated and every strict extension as trailing |
| `CborRefusals.ForbiddenForms` | impl/go/memory_cbor.go:218-262 | indefinite lengths, reserved header values, tags and other simple values are refused as such, whatever follows |
| `CborRefusals.LongForms` | impl/go/memory_cbor.go:327-375 | an argument in more octets than it needs is refused as not shortest |
| `CborRefusals.OutOfOrder` | impl/go/memory_cbor.go:288-322 | a second map key that does not sort strictly after the first is refused for its order, whatever follows |
| `CborOrder.KeyLessStrict` | impl/go/memory_cbor.go:105-116 | both key orders are strict total orders on octet strings |
| `CborOrder.UintKeyOrder` | impl/csharp/NpampCbor.cs:104-118 | lexicographic or length first, encoded unsigned keys sort by value |
| `CborOrder.LookupFinds` | impl/go/memory_cbor.go:67-75 | the scan for an unsigned key finds the one entry with that key, and misses only when there is none |
| `CborOrder.CSharpAcceptsGo` | impl/csharp/NpampCbor.cs:152-268 | of an input Go accepts, C# accepts it if and only if every map lists keys in non-decreasing encoded length, and then reads the same tree |
| `CborOrder.DialectsAgree` | impl/csharp/NpampCbor.cs:138-150 | for trees keyed by unsigned integers, Go reads `v` if and only if C# does and no integer is below int64 |
| `CborOrder.DialectsDiffer` | impl/go/memory_cbor.go:98-116 | a concrete canonical Go body, keyed by 256 and a text, that C# refuses |
| `CborOrder.GoAcceptsCSharp` | impl/go/memory_cbor.go:218-322 | of an input C# accepts, Go accepts it if and only if no integer is below int64 and every map lists its keys in ascending lexicographic order, and then reads the same tree |
| `CborOrder.DialectsDifferBack` | impl/csharp/NpampCbor.cs:104-118 | a concrete canonical C# body, keyed by a text and 256, that Go refuses |
| `GoCbor.ByteLess` | impl/go/memory_cbor.go:105-116 | the loop computes the lexicographic order |
| `GoCbor.CborEncode` | impl/go/memory_cbor.go:123-168 | the encoder with its append loops computes the canonical encoding |
| `GoCbor.AppendItems` | impl/go/memory_cbor.go:143-148 | the array loop appends every element encoding in order |
| `GoCbor.AppendEntries` | impl/go/memory_cbor.go:149-155 | the map loop appends every key encoding and value encoding in order |
| `GoCbor.DecodeArgument` | impl/go/memory_cbor.go:327-375 | the header reader refuses every longer-than-needed form and reports the octets used |
| `GoCbor.CborDecodeTop` | impl/go/memory_cbor.go:203-212 | refuses trailing octets, otherwise the specified decoding |
| `GoCbor.CborDecode` | impl/go/memory_cbor.go:218-322 | the cursor-based decoder agrees with the specified one on value, error and octets consumed |
| `GoCbor.DecodeArray` | impl/go/memory_cbor.go:268-285 | the array loop, advancing a cursor, reads the specified items |
| `GoCbor.DecodeEntry` | impl/go/memory_cbor.go:297-317 | one map entry: its key must sort after the previous one, then its value |
| `GoCbor.DecodeMap` | impl/go/memory_cbor.go:286-318 | the map loop, remembering the previous key encoding, reads the specified entries and enforces ascending order |
| `GoCbor.Get` | impl/go/memory_cbor.go:67-75 | the scan over entries is the specified lookup |
| `CsCbor.ByteLess` | impl/csharp/NpampCbor.cs:104-118 | the length-first comparison loop |
| `CsCbor.ReadArg` | impl/csharp/NpampCbor.cs:270-348 | the argument reader moves the cursor past the header on success and leaves it where it was on every error |
| `CsCbor.DecodeTop` | impl/csharp/NpampCbor.cs:138-150 | the C# decoder returns the projection of the specified tree, or the same error |
| `CsCbor.DecodeAt` | impl/csharp/NpampCbor.cs:152-268 | recursion over a shared cursor reads one item and leaves the cursor after it |
| `CsCbor.ReadList` | impl/csharp/NpampCbor.cs:215-231 | the list loop reads the specified items in order |
| `CsCbor.ReadMap` | impl/csharp/NpampCbor.cs:232-262 | the map loop reads the specified entries and refuses keys out of length-first order |
| `GoMaps.CborToGo` | impl/go/memory_api.go:63-82 | the projection to plain Go values, dropping map entries whose key is not unsigned |
| `GoMaps.CopyItems` | impl/go/memory_api.go:73-78 | the array copy loop projects every element in order |
| `GoMaps.CopyEntries` | impl/go/memory_api.go:65-72 | the map copy loop binds every unsigned key to its projected value |
| `GoMaps.SortedListIsUnique` | impl/go/memory_cbor.go:171-178 | a map has only one ascending list of bindings, so iteration order cannot show |
| `GoMaps.ToValueToGo` | impl/go/codecbind_export.go:34-52 | projecting and rebuilding a decoded value removes exactly the entries with other keys |
| `GoMaps.PortableRoundTrip` | impl/go/codecbind_export.go:34-52 | the tree a projected body stands for encodes to the same octets if and only if every map is keyed by unsigned integers |
| `GoEncode.SortByKey` | impl/go/memory_cbor.go:176-177 | sorting raw entries by encoded key gives an ascending permutation |
| `GoEncode.NewCborMapU` | impl/go/memory_cbor.go:171-178 | whatever order the Go map yields its keys in, the raw entries end up as the one ascending list of its bindings |
| `GoEncode.EncodeSlice` | impl/go/memory_cbor.go:143-148 | slice elements are encoded recursively and appended in order |
| `GoEncode.EncodeRaw` | impl/go/memory_cbor.go:149-155 | map values are encoded recursively after sorting |
| `GoEncode.EncodeGo` | impl/go/memory_cbor.go:123-168 | the encoder of plain Go values, choosing an arbitrary iteration order at every map of every level, has one result |
| `GoEncode.Reencode` | impl/go/codecbind_export.go:34-52 | decoding, projecting and re-encoding in any iteration order gives the same octets if and only if every map is keyed by unsigned integers |
| `ErrorBody.AcceptedLayout` | impl/go/errorframe.go:122-203 | the hand-written decoder accepts (code, context) if and only if the body is the one layout for them, code at most 255 and context under 65536 octets |
| `ErrorBody.RefinesGeneralDecoder` | impl/go/errorframe.go:122-152 | it accepts exactly what the general decoder reads as that two-entry map |
| `ErrorBody.ErrorBodyRoundTrip` | impl/go/errorframe.go:111-152 | it inverts the encoder if and only if the context is under 65536 octets, and refuses longer ones |
| `Mealy.MinimalEquivalence` | harness/statelearn/diff_model.py:149-231 | between minimal machines, equal answers to all words if and only if the reachable parts are isomorphic |
| `Mealy.ConfluenceFollows` | harness/statelearn/diff_model.py:203-223 | with equal answers, words that meet in one machine meet in a minimal other |
| `DiffModel.BuildCells` | harness/statelearn/diff_model.py:158-160 | a cell exists if and only if some learned transition names its state and input, and it has the output and next state of the last one that does |
| `DiffModel.MachineCells` | harness/statelearn/diff_model.py:155-163 | the learned machine starts in its initial state with exactly those cells; the reference machine has the nested table as its cells |
| `DiffModel.StepInput` | harness/statelearn/diff_model.py:176-225 | one input at one pair either extends the pairing consistently or reports a mismatch that refutes isomorphism |
| `DiffModel.VisitPair` | harness/statelearn/diff_model.py:176-225 | all inputs at a pair: agreement on every one, or genuine mismatches |
| `DiffModel.ReportUnreached` | harness/statelearn/diff_model.py:227-229 | a state is reported if and only if it is a table state, not paired and not excused |
| `DiffModel.ClosedIsIsomorphism` | harness/statelearn/diff_model.py:164-225 | two mutually inverse closed pairings are an isomorphism of the reachable parts |
| `DiffModel.IsomorphicExactly` | harness/statelearn/diff_model.py:164-225 | the reachable parts are isomorphic if and only if two mutually inverse maps pair states and carry every cell across |
| `DiffModel.Compare` | harness/statelearn/diff_model.py:149-231 | no mismatch if and only if the reachable parts are isomorphic and every unexcused table state is reached; for minimal machines if and only if all words are answered alike under the same coverage; every mismatch is genuine; every unexcused unreachable table state is reported; the worklist terminates |
| `ExpandReference.BuildListed` | harness/statelearn/diff_model.py:87-91 | a cell is listed if and only if some row for the role or for both speaks for it, and the last such row wins |
| `ExpandReference.FillRow` | harness/statelearn/diff_model.py:111-145 | a cell for every input of the alphabet and INIT_CLOSE, each following the table: the last row wins; CLOSED, dropped, INIT_CLOSE and too early APP cells are silent with their stated next state; every other cell goes to CLOSED with the post-key output if and only if the state is key-established, else the pre-key output |
| `ExpandReference.Expand` | harness/statelearn/diff_model.py:78-146 | exactly the states of the role and the inputs of the alphabet and INIT_CLOSE, each cell following the table rule by rule |
| `ExpandReference.ExpandedCells` | harness/statelearn/diff_model.py:110-146 | the same of the machine that is compared |
| `ExpandReference.Total` | harness/statelearn/diff_model.py:110-146 | every input word has a run inside the table states |
| `ExpandReference.ClosedAbsorbs` | harness/statelearn/diff_model.py:118-121 | CLOSED absorbs every word in silence if and only if no listed row makes it do otherwise |
| `ExpandReference.AbortsOnce` | harness/statelearn/diff_model.py:143-145 | if so, a run takes the default abort cell at most once |
| `ExpandReference.ClosingWasEstablished` | harness/statelearn/diff_model.py:127-136 | if no listed row enters CLOSING from elsewhere, a run that ends in CLOSING visited ESTABLISHED |
| `RunRole.EquivalentIsSilent` | harness/statelearn/diff_model.py:118-121 | a machine that answers as the expanded one does is silent after every word that closes it, if no listed row leaves CLOSED |
| `RunRole.CompareRole` | harness/statelearn/diff_model.py:234-240 | expanding and comparing for a role, from WAIT_SH or LISTEN, START excused for the initiator: a clean verdict if and only if isomorphic and covered; then every word is answered alike and the learned machine is silent once closed; every mismatch is genuine |
| `Crc.BitwiseCrc32c` | impl/csharp/Npamp.cs:48-60 | the bit loop computes the specified register sequence |
| `Crc.MakeTable` | harness/adapters/python/adapter.py:21-29 | entry i is the octet i shifted out eight times |
| `Crc.LookupStep` | harness/adapters/python/adapter.py:35-39 | absorbing an octet is one lookup and one move down, by linearity |
| `Crc.TableCrc32c` | harness/adapters/python/adapter.py:35-39 | the table loop gives the same checksum as the bit loop on every string |
| `Crc.CrcBound` | impl/csharp/Npamp.cs:48-60 | the checksum is a 32-bit number |
| `Bursts.RegisterIsWord` | impl/csharp/Npamp.cs:48-60 | absorbing a string is absorbing it as one number, first octet lowest, and shifting that out |
| `Bursts.SameChecksum` | impl/csharp/Npamp.cs:48-60 | strings of one length share their checksum if and only if the difference of their numbers is shifted out to nothing |
| `Bursts.BitBurstDetected` | impl/csharp/Npamp.cs:48-60 | two strings of one length that differ only inside 32 consecutive bits, at any bit offset, have different checksums |
| `Bursts.BurstDetected` | impl/csharp/Npamp.cs:48-60 | in particular when they differ only inside four consecutive octets |
| `Bursts.BurstLimit` | impl/csharp/Npamp.cs:48-60 | 32 is the limit: two strings that differ only inside 33 consecutive bits and share their checksum |
| `Residue.EmptyChecksum` | impl/csharp/Npamp.cs:48-60 | the empty string has checksum zero |
| `Residue.OnesOut` | impl/csharp/Npamp.cs:48-60 | a register of ones, shifted out 32 times, is 0xB798B438 |
| `Residue.ResidueExactly` | harness/adapters/python/adapter.py:35-39 | for every string, four more octets give checksum 0x48674BC7 if and only if they are the checksum of the string, lowest octet first |
| `Frames.MarshalRoundTrip` | impl/go/frame.go:75-147 | for every frame, exactly what its own marshalling is parsed as, or how it is refused, by either parser |
| `Frames.UnmarshalCanonical` | impl/csharp/Npamp.cs:162-206 | an accepted buffer re-marshals to itself |
| `Frames.PrefixInjective` | impl/go/frame.go:75-86 | the 21-octet prefix is equal if and only if version and flags, type, channel, sequence and length are |
| `Frames.BitCorruptionRejected` | impl/csharp/Npamp.cs:162-172 | a burst inside 32 consecutive bits of an accepted header prefix, at any bit offset, is refused as a bad checksum |
| `Frames.CorruptionRejected` | impl/csharp/Npamp.cs:162-172 | a burst inside four consecutive octets of an accepted header prefix is refused as a bad checksum |
| `Frames.ParsersAgree` | impl/go/frame.go:112-147 | the Go parser accepts exactly what the C# parser accepts without a reserved flag, with the same frame |
| `Frames.AcceptedExactly` | impl/go/frame.go:112-147 | a buffer is accepted if and only if it has 36 octets, a right checksum, the magic, version 2, for Go one of the four legal flag octets, zero reserved octets and a right length |
| `Frames.RefusedExactly` | impl/go/frame.go:112-147 | short header, bad checksum, bad magic and length mismatch are each reported exactly when everything checked before them is right |
| `Frames.TooLargeExactly` | impl/go/frame.go:160-170 | a frame is too large if and only if a whole header declares more than 16 MiB in all |
| `Frames.ReadMarshalled` | impl/go/frame.go:160-179 | a frame at the front of any buffer is read with its own length |
| `Frames.ReadPrefix` | impl/go/frame.go:160-179 | a strict prefix of a frame is answered with "need more octets" only |
| `Frames.ReadStable` | impl/go/frame.go:160-179 | appending octets never changes a successful read, and what was consumed is the frame marshalled |
| `Frames.StreamRoundTrip` | impl/go/frame.go:149-179 | concatenated frames and a strict prefix of another are read as exactly those frames, then only a wait |
| `Frames.StreamCanonical` | impl/go/frame.go:149-179 | from any buffer, the octets consumed are the frames returned, marshalled |
| `FrameIO.PutBe` | impl/go/frame.go:75-86 | writes big-endian octets in place and leaves the rest of the array |
| `FrameIO.WireFrame.WritePrefix` | impl/go/frame.go:75-86 | writes the specified 21 octets and nothing else; a zero version is written as the protocol version |
| `FrameIO.WireFrame.WriteHeader` | impl/go/frame.go:88-95 | writes prefix, checksum and zero octets, leaving the payload area |
| `FrameIO.WireFrame.MarshalBinary` | impl/go/frame.go:99-107 | returns a fresh marshalled frame and fills in a zero version in the receiver |
| `FrameIO.WireFrame.UnmarshalBinary` | impl/go/frame.go:112-147 | fills the receiver on success and leaves it untouched on any error |
| `FrameIO.ReadStream` | impl/go/frame.go:149-179 | the reading loop returns the specified frames and the reason it stopped |
| `Hkdf.HkdfExpand` | impl/csharp/Npamp.cs:297-319 | the in-place block fill equals T(1) T(2) ... of section 2.3 of RFC 5869, truncated |
| `Hkdf.OracleExpand` | test-vectors/gen/keyschedule_label_oracle.py:35-44 | the same output, refused beyond 255 blocks |
| `Hkdf.OkmBlock` | impl/csharp/Npamp.cs:297-319 | each whole block of an output is the MAC of the block before it, the info and its own number |
| `Hkdf.CountersDistinct` | impl/csharp/Npamp.cs:305-316 | every block has its own number in its counter octet if and only if at most 255 blocks are asked for |
| `Hkdf.OkmPrefix` | impl/csharp/Npamp.cs:297-319 | outputs for one key and info are prefixes of one another |
| `Tlvs.ParseTlvs` | impl/go/tlv.go:89-107 | the consuming loop is the specified decoder, errors included |
| `Tlvs.TlvPrefixFree` | impl/go/tlv.go:80-86 | no TLV encoding is a prefix of another |
| `Tlvs.TlvsCanonical` | impl/go/tlv.go:80-107 | a buffer decodes to a list if and only if it is its encoding, at most 64 TLVs, each fitting its length field |
| `Handshake.AppendU16List` | impl/go/handshake.go:103-109 | the loop writes the identifiers as big-endian pairs |
| `Handshake.ReadU16List` | impl/go/handshake.go:113-122 | the loop reads them back, refusing an odd or empty list |
| `Handshake.CheckTlvs` | impl/go/handshake.go:126-151 | the loops report an unknown critical TLV first, then a wrong number of TLVs or a wrong type at some position |
| `Handshake.RequiredExactly` | impl/go/handshake.go:126-151 | a list passes if and only if its types are the wanted ones in order; the critical error if and only if a type from 0x8000 up is not wanted |
| `Handshake.MessageLayouts` | impl/go/tlv.go:13-25 | the TLV code points of the three messages and what each TLV carries |
| `Handshake.ClientHelloCanonical` | impl/go/handshake.go:154-217 | CLIENT_HELLO decodes to `m` if and only if `m` is valid and the payload is its encoding |
| `Handshake.ServerHelloCanonical` | impl/go/handshake.go:220-272 | the same for SERVER_HELLO |
| `Handshake.AuthCanonical` | impl/go/handshake.go:275-314 | the same for both AUTH messages |
| `Transcripts.Transcript.constructor` | impl/go/transcript.go:24-30 | an empty transcript |
| `Transcripts.Transcript.AddFrameType` | impl/go/transcript.go:34-36 | appends the frame type |
| `Transcripts.Transcript.AddTlv` | impl/go/transcript.go:41-43 | appends one TLV |
| `Transcripts.Transcript.AddFrame` | impl/go/transcript.go:47-52 | appends the type and then every TLV in order |
| `Transcripts.Transcript.Sum` | impl/go/transcript.go:57-61 | hashes what was absorbed and changes nothing |
| `Transcripts.ChunkOctets` | impl/go/transcript.go:34-43 | a frame type is absorbed as two octets, high first, a TLV as type, length and value |
| `Transcripts.TranscriptInjective` | impl/go/transcript.go:34-61 | equal absorbed octets if and only if the same cut point and the same messages up to it |
| `Transcripts.BuildSigningInput` | impl/go/handshake.go:323-335 | 64 spaces, the role context, a zero octet, the hash |
| `Transcripts.SigningInputLayout` | impl/go/handshake.go:58-67 | the octets of the signing input for each role, position by position |
| `Transcripts.SigningInputInjective` | impl/go/handshake.go:323-335 | the signing input is equal if and only if role and hash are |
| `KeySchedule.HkdfLabelInjective` | impl/go/keyschedule.go:46-55 | the label encoding is injective in length, label and context |
| `KeySchedule.LabelLayout` | impl/go/keyschedule.go:46-55 | the octets of an HkdfLabel, position by position, the text n-pamp included |
| `KeySchedule.HandshakeLabels` | impl/go/keyschedule.go:102-131 | the octets of the labels of the handshake and master secrets |
| `KeySchedule.FinishedLabel` | impl/go/keyschedule.go:139-145 | the octets of the Finished label |
| `KeySchedule.TrafficLabels` | impl/go/keyschedule.go:71-71 | the octets of the traffic, key and IV labels |
| `KeySchedule.RatchetLabels` | impl/go/keyschedule.go:158-165 | the octets of the ratchet label |
| `KeySchedule.RekemLabel` | impl/go/keyschedule.go:184-200 | the octets of the re-KEM label |
| `KeySchedule.ContextParts` | impl/go/keyschedule.go:60-65 | direction, epoch, suite and channel in the traffic context, position by position |
| `KeySchedule.TrafficContextInjective` | impl/go/keyschedule.go:60-71 | the 13-octet context is injective in direction, epoch, suite and channel |
| `KeySchedule.LadderInputs` | impl/go/keyschedule.go:86-220 | each secret, both ratchet steps included, is expanded from its parent under the input of its purpose; where extraction is HMAC, the handshake secret is the HMAC of the shared secret keyed by 32 zero octets and the re-KEM step is keyed by the old master |
| `KeySchedule.DerivationsSeparate` | impl/go/keyschedule.go:46-200 | two derivations, ratchet steps included, have the same HKDF input if and only if purpose, transcript hash, direction, epoch, channel and generation agree |
| `KeySchedule.DeriveNonce` | impl/go/aead.go:15-22 | the loop XORs the sequence number into a fresh copy of the IV |
| `KeySchedule.NonceLayout` | impl/go/aead.go:15-22 | the first four octets are those of the IV; the sequence number, high octet first, is XORed into the other eight |
| `KeySchedule.NonceInjective` | impl/go/aead.go:15-22 | under one IV, nonces are equal if and only if the sequence numbers are |
| `KeySchedule.HkdfLengths` | impl/go/keyschedule.go:46-55 | the length hypothesis on expansion holds of HKDF-Expand as modelled, up to 255 blocks |
| `KeySchedule.SealedWire` | harness/statelearn/sul/wire.go:143-157 | a sealed frame on the wire: its fields in place, the payload sealed under key and nonce of the schedule, and its own first 21 octets as associated data |
| `KeySchedule.SealOpenRoundTrip` | harness/statelearn/sul/wire.go:135-171 | sealing, marshalling, parsing and opening under the same base, direction and epoch returns the plaintext |
| `KeySchedule.OnlySealedFramesOpen` | harness/statelearn/sul/wire.go:145-171 | with an AEAD that opens only what was sealed, whatever set of frames that is, octets parse and open to a plaintext if and only if they are one of the sealed frames, carrying it, under the key and nonce the receiver expects |
| `Agreement.TranscriptThroughHellos` | harness/statelearn/sul/initiator.go:214-219 | the transcript object through both hellos |
| `Agreement.TranscriptThroughServerAuth` | harness/statelearn/sul/initiator.go:224-246 | the server signs and MACs at the right cut points and absorbs its whole flight |
| `Agreement.EstablishServer` | harness/statelearn/sul/initiator.go:421-441 | the server half derives its master secret from the client AUTH frame it opens; where extraction is HMAC, by one expansion of the HMAC, under 32 zero octets, of the secret it encapsulated, over its view of the handshake |
| `Agreement.EstablishClient` | harness/statelearn/sul/responder.go:400-465 | the client half derives secrets, AUTH message and master from the server frames; where extraction is HMAC, likewise from the secret it decapsulated |
| `Agreement.HonestRunAgrees` | harness/statelearn/sul/responder.go:400-465 | every honest run over the wire completes with equal handshake secrets and master, one view of all flights, the stated signatures, and both sides accepting CertVerify and Finished; where extraction is HMAC, every secret and both Finished values are spelled out from the encapsulated secret and the view |
| `Agreement.MasterBindsView` | impl/go/keyschedule.go:125-131 | equal master secrets force equal handshake secrets and equal messages through the client CertVerify, or exhibit a hash or expansion collision |
| `Agreement.EqualMastersEqualViews` | harness/statelearn/sul/initiator.go:421-441 | whatever frames travel, a client half and a server half with one master secret have one view through the client CertVerify, or a collision |
| `SealCounters.CountersMean` | harness/statelearn/sul/common.go:23-33 | the epoch counts key updates, the Control sequence the undamaged frames since the last one, the application sequence the APP frames |
| `SealCounters.SealedSymbols` | harness/statelearn/sul/initiator.go:252-284 | which symbols seal a frame, on which channel and at which counter, and which of those are damaged |
| `SealCounters.StrictlyForward` | harness/statelearn/sul/common.go:23-33 | on one channel, (epoch, sequence) grows strictly after every undamaged frame |
| `SealCounters.AtOrigin` | harness/statelearn/sul/common.go:23-33 | the Control counter is at its origin if and only if no undamaged Control frame was sealed |
| `SealCounters.SameNonceSamePlace` | impl/go/keyschedule.go:60-71 | two sealed frames share secret, context and nonce if and only if secret, channel, epoch and sequence agree |
| `SealCounters.NoNonceReuse` | harness/statelearn/sul/initiator.go:448-491 | over every established-phase run shorter than 2^64, no two undamaged frames share secret, context and nonce |
| `SealCounters.DistinctExactly` | harness/statelearn/sul/initiator.go:460-475 | counting damaged frames too, all are distinct if and only if no Control symbol comes after a damaged one in the run |
| `SealCounters.DamageThenClose` | harness/statelearn/sul/responder.go:467-496 | a two-step run that repeats secret, context and nonce, and that no shorter run does |
| `DriverRuns.EstablishedIsReal` | harness/statelearn/sul/responder.go:305-332 | after any reset/step run: established implies master set and dial or accept resolved without error (and a connection, if success hands one over); completion channel received from and CloseGraceful started at most once per episode |
| `DriverRuns.InitiatorConnected` | harness/statelearn/sul/initiator.go:393-410 | the initiator driver is never established without a connection, whatever the peer reports |
| `DriverRuns.CompletedExactly` | harness/statelearn/sul/responder.go:305-332 | connection and error are those of the one completion received in the episode |
| `DriverRuns.ConnectedExactly` | harness/statelearn/sul/responder.go:328-331 | an established driver has a connection if and only if the completion received in the episode carried one |
| `DriverRuns.ResponderUnconnected` | harness/statelearn/sul/responder.go:328-331 | a two-step run in which a success without a connection leaves the responder driver established without one |
| `DriverRuns.EpisodeOnward` | harness/statelearn/sul/responder.go:242-344 | until reset, established, its master, closing and the dial result never revert |
| `DriverRuns.ClosedAbsorbs` | harness/statelearn/sul/initiator.go:288-291 | a closed scenario is silent and unchanged for every further run |
| `DriverRuns.FinalOnce` | harness/statelearn/sul/initiator.go:372-415 | in one episode everything after the first error, abort or CLOSE_ACK output is silence |
| `DriverRuns.FinalCloses` | harness/statelearn/sul/initiator.go:372-415 | those outputs close the scenario in the same step, and the CLIENT_AUTH output appears exactly in the initiator step that establishes |
| `DriverAnswers.AnswersExactly` | harness/statelearn/sul/initiator.go:347-563 | over every reset/step run, each output appears if and only if the state before the step and what the step saw call for it; the scenario closes, is established, begins closing, learns its secrets and takes the completion exactly when they do |
| `DriverAnswers.InjectReacts` | harness/statelearn/sul/initiator.go:505-563 | ACCEPT exactly for a delivery without a wire frame, each acknowledgement exactly for its frame, an error code exactly for an ERROR that decodes, and closed exactly after a failed write, an ERROR, a CLOSE_ACK or a peer close |
| `DriverAnswers.FreshStart` | harness/statelearn/sul/responder.go:131-143 | a reset clears every flag, secret and counter; the responder driver starts from 32 zero octets |
| `HonestDriver.HonestEpisode` | harness/statelearn/sul/responder.go:400-465 | against an honest peer each driver is established and open after its two handshake inputs, with the handshake secret and the master secret the peer holds |
| `DriverNonces.EpisodeCounters` | harness/statelearn/sul/initiator.go:448-491 | an episode leaves its counters where what it injected once established puts them |
| `DriverNonces.SealedIn` | harness/statelearn/sul/responder.go:263-273 | a step before establishment seals at epoch 0 and sequence 0 under the handshake or placeholder secret, a later one at the counters under the master |
| `DriverNonces.EpisodeDistinctExactly` | harness/statelearn/sul/initiator.go:305-341 | over any episode, whatever the peer does, all sealed frames (undamaged, or damaged too) differ in secret, context or nonce if and only if no two steps clash: two Control frames before establishment under one secret, one of those under the master before its first Control frame, or a Control frame after a damaged one |
| `DriverNonces.EpisodeNonces` | harness/statelearn/sul/responder.go:467-507 | once established, no two undamaged frames share secret, context and nonce |
| `DriverNonces.SilentPeerReuses` | harness/statelearn/sul/initiator.go:316-319 | two sealed inputs before establishment, to a silent peer, share secret, context and nonce |
| `Driver.Scenario.constructor` | harness/statelearn/sul/responder.go:131-143 | a scenario just reset |
| `Driver.Scenario.ResetEpisode` | harness/statelearn/sul/responder.go:131-143 | reset returns every modelled field to its initial value, the sealing secret by role |
| `Driver.Scenario.Take` | harness/statelearn/sul/initiator.go:358-369 | receives the completion once, and not again |
| `Driver.Scenario.PollForAccept` | harness/statelearn/sul/responder.go:305-332 | the accept poll, promoting the pending master when accept succeeded |
| `Driver.Scenario.ConcludeHandshake` | harness/statelearn/sul/initiator.go:404-410 | established with a successful dial and a connection, closed otherwise |
| `Driver.Scenario.Adopt` | harness/statelearn/sul/initiator.go:389-410 | a real CLIENT_AUTH sets the master, then requires a resolved dial |
| `Driver.Scenario.ReactAsInitiator` | harness/statelearn/sul/initiator.go:347-370 | frame, tear-down or time-out, in the initiator driver |
| `Driver.Scenario.ReactAsResponder` | harness/statelearn/sul/responder.go:334-395 | the same in the responder driver, with its two polls |
| `Driver.Scenario.HandshakeStep` | harness/statelearn/sul/responder.go:255-296 | a handshake-phase step: its new state, output and the frame it sealed |
| `Driver.Scenario.Advance` | harness/statelearn/sul/initiator.go:448-491 | seals at the current counter under the master and moves it as the counter model says |
| `Driver.Scenario.ClassifyEstablished` | harness/statelearn/sul/initiator.go:537-563 | classifies a wire frame of the established peer, changing nothing but whether the scenario is closed |
| `Driver.Scenario.Observe` | harness/statelearn/sul/initiator.go:505-535 | ACCEPT exactly for a delivery without a wire frame, each acknowledgement exactly for its frame, an error code exactly for an ERROR that decodes; closed exactly after a failed write, an ERROR, a CLOSE_ACK or a peer close; nothing else changes |
| `Driver.Scenario.EstablishedStep` | harness/statelearn/sul/responder.go:467-507 | an established-phase step: its new state, output and the frame it sealed |
| `Driver.Scenario.InitCloseStep` | harness/statelearn/sul/initiator.go:572-600 | CloseGraceful is started at most once |
| `Driver.Scenario.StepInput` | harness/statelearn/sul/initiator.go:288-299 | a whole step keeps the scenario invariant and returns output and sealed frame; closed means silent and unchanged |
| `Driver.Scenario.Play` | harness/statelearn/sul/main.go:47-68 | a whole session of resets and steps has exactly the states, step outputs and sealed frames of the run model |
| `Bridge.EnvelopeCanonical` | impl/go/bridge_bodies.go:81-157 | an envelope value decodes to `e` if and only if it is its encoding |
| `Bridge.LabelCanonical` | impl/go/bridge_bodies.go:99-174 | the same for a safety label |
| `Bridge.BridgeCanonical` | impl/go/bridge_bodies.go:114-263 | a payload is accepted as `f` if and only if it is its encoding, kind and correlation rules hold, and `f` is not ambiguous |
| `Bridge.BridgeRoundTrip` | impl/go/bridge_bodies.go:114-263 | decode inverts encode if and only if a label is present, or the foreign message is under 4 octets, or it does not begin 0x0013 |
| `Bridge.AmbiguousPayload` | impl/go/bridge_bodies.go:239-256 | two frames with one payload and different effects |
| `Bridge.OneFrameType` | impl/go/bridge.go:170-185 | a payload is valid for at most one frame type |
| `Bridge.CorrelationOfAccepted` | impl/go/bridge_bodies.go:269-274 | among accepted payloads, correlation is equality of identifiers, and notifications never correlate |
| `Bridge.KindTable` | impl/go/bridge.go:170-185 | the six frame types and the kind each must carry, by number |
| `Bridge.FrameLayout` | impl/go/bridge_bodies.go:81-135 | the octets of an encoded frame, position by position, and the effect in force without a label |
| `BodyTheorems.BindsLookup` | impl/go/memory_cbor.go:67-75 | a scan finds exactly what the decoded map binds |
| `BodyTheorems.MeetsExactly` | impl/go/memory_bodies.go:205-238 | the field loop accepts if and only if required keys are bound, bound keys have their kinds, and all keys are unsigned |
| `BodyTheorems.ProposalExactly` | impl/go/commerce_bodies.go:151-224 | the leg loop accepts if and only if every leg moves a well-formed amount between named parties |
| `BodyTheorems.ReportExactly` | impl/go/telemetry_bodies.go:147-216 | the report check accepts if and only if corr and sub_id come together, arrays hold well-formed items, and one is not empty |
| `BodyTheorems.BodyExactly` | impl/go/memory_bodies.go:151-192 | on every decoded map, each validator and the documented rules agree |
| `BodyTheorems.BodyCanonical` | impl/go/immune_bodies.go:137-196 | a payload is accepted if and only if it is the canonical encoding of a map at most 8 deep that meets the rules |
| `BodyTheorems.OneFrameType` | impl/go/memory_bodies.go:165-179 | a payload is valid for at most one frame type of a channel |
| `BodyTheorems.UnknownKeyIgnored` | impl/go/telemetry_bodies.go:256-270 | no rule depends on a key outside the table of its frame type |
| `BodyTheorems.ForwardCompatible` | impl/go/memory_bodies.go:222-236 | adding an unused key outside the table keeps a body accepted, with the same frame kind and corr, if and only if the value is at most 7 deep |
| `BodyTables.MemoryCreate` | spec/companion/81_memory_channel.md:304-323 | the tables of these operations are the printed ones: keys in order, kinds and requirements |
| `BodyTables.MemoryRead` | spec/companion/81_memory_channel.md:336-347 | the tables of these operations are the printed ones: keys in order, kinds and requirements |
| `BodyTables.MemoryUpdate` | spec/companion/81_memory_channel.md:353-370 | the tables of these operations are the printed ones: keys in order, kinds and requirements |
| `BodyTables.MemoryDelete` | spec/companion/81_memory_channel.md:372-378 | the tables of these operations are the printed ones: keys in order, kinds and requirements |
| `BodyTables.MemoryRetrieve` | spec/companion/81_memory_channel.md:380-500 | the tables of these operations are the printed ones: keys in order, kinds and requirements |
| `BodyTables.MemoryStatus` | spec/companion/81_memory_channel.md:444-520 | the tables of these operations are the printed ones: keys in order, kinds and requirements |
| `BodyTables.MemoryEvict` | spec/companion/81_memory_channel.md:465-478 | the tables of these operations are the printed ones: keys in order, kinds and requirements |
| `BodyTables.CommerceMandateCreate` | spec/companion/88_commerce_channel.md:372-393 | the tables of these operations are the printed ones: keys in order, kinds and requirements |
| `BodyTables.CommerceMandates` | spec/companion/88_commerce_channel.md:405-454 | the tables of these operations are the printed ones: keys in order, kinds and requirements |
| `BodyTables.CommerceProposals` | spec/companion/88_commerce_channel.md:491-508 | the tables of these operations are the printed ones: keys in order, kinds and requirements |
| `BodyTables.CommerceIntents` | spec/companion/88_commerce_channel.md:516-597 | the tables of these operations are the printed ones: keys in order, kinds and requirements |
| `BodyTables.TelemetryReports` | spec/companion/87_telemetry_channel.md:279-366 | the tables of these operations are the printed ones: keys in order, kinds and requirements |
| `BodyTables.TelemetrySubscriptions` | spec/companion/87_telemetry_channel.md:378-446 | the tables of these operations are the printed ones: keys in order, kinds and requirements |
| `BodyTables.ImmuneReports` | spec/companion/85_immune_channel.md:357-548 | the tables of these operations are the printed ones: keys in order, kinds and requirements |
| `BodyTables.ImmuneGossip` | spec/companion/85_immune_channel.md:404-482 | the tables of these operations are the printed ones: keys in order, kinds and requirements |
| `BodyTables.ReportContents` | spec/companion/87_telemetry_channel.md:300-336 | the printed table of metric, event and health items |
| `BodyTables.Amounts` | spec/companion/88_commerce_channel.md:286-291 | the printed table of an amount |
| `BodyTables.GossipDescriptors` | spec/companion/85_immune_channel.md:411-422 | the printed table of a gossip descriptor |
| `BodyTables.GossipItems` | spec/companion/85_immune_channel.md:455-466 | the printed table of a gossip item |
| `BodyTables.Operations` | spec/companion/81_memory_channel.md:127-160 | which frame types each channel has a table for, and no others |
| `BodyTables.KindOctets` | impl/go/memory_bodies.go:205-238 | what each field kind means on the wire: the major type of the first octet |
| `BodyValidators.ForwardCompatKeys` | impl/go/commerce_bodies.go:262-276 | the key scan refuses exactly negative and non-integer keys |
| `BodyValidators.CheckFields` | impl/go/memory_bodies.go:205-238 | the field loop and the key scan |
| `BodyValidators.ValidateMemoryPayload` | impl/go/memory_bodies.go:151-192 | the Memory validator is the specified one |
| `BodyValidators.ValidateAmount` | impl/go/commerce_bodies.go:229-258 | the amount check is its three-field table |
| `BodyValidators.ValidateLeg` | impl/go/commerce_bodies.go:189-224 | the leg check, party membership included |
| `BodyValidators.CommerceParties` | impl/go/commerce_bodies.go:172-184 | the party set, or a refusal when an element is not text |
| `BodyValidators.ValidateCommerceNested` | impl/go/commerce_bodies.go:143-168 | the nested rules per frame type |
| `BodyValidators.ValidateCommercePayload` | impl/go/commerce_bodies.go:89-138 | the Commerce validator is the specified one |
| `BodyValidators.CheckContent` | impl/go/telemetry_bodies.go:176-206 | the loop over the content arrays counts the non-empty ones |
| `BodyValidators.ValidateTelemetryReport` | impl/go/telemetry_bodies.go:147-216 | the report check |
| `BodyValidators.ValidateTelemetryPayload` | impl/go/telemetry_bodies.go:101-140 | the Telemetry validator is the specified one |
| `BodyValidators.ValidateGossipArray` | impl/go/immune_bodies.go:203-224 | every element of the items array passes its table |
| `BodyValidators.ValidateImmunePayload` | impl/go/immune_bodies.go:137-196 | the Immune validator is the specified one |

## Left out

- The internals of AES-GCM, SHA-256, HMAC, Ed25519, X25519 and ML-KEM: abstract functions with named hypotheses.
- The SDK under test and the shipped state table: the peer is arbitrary and the table a parameter.
- Timeouts, pipes, goroutine scheduling and teardown in the drivers: only the values that reads and polls may take are modelled.
- The drivers' handshake material inside `Driver`: the scenario state keeps the secret frames are sealed under and the master secret; how they are computed is modelled in `Agreement`, and their values reach the driver as observations.
- `Driver.Scenario.Play`: the OK and ERR lines answered to RESET are not among the outputs; of a reset that fails half way the field resets are modelled, its error is not.
- `DriverRuns`: the initiator and responder scenarios are one state type with a role, since only the handshake reaction differs.
- The key-update marker inside KEY_UPDATE payloads, and the wiping of intermediate secrets by the re-KEM ratchet step.
- Frame payloads of 2^32 octets or more and TLV values of 65536 octets or more: the length fields truncate them, and the theorems exclude them by precondition.
- `GoEncode.SortByKey`: sort.Slice is modelled by an insertion sort; only its result is promised.
- `GoEncode.NewCborMapU`: Go map iteration order is an arbitrary choice of the next key.
- `KeySchedule.OnlySealedFramesOpen`: assumes an AEAD that opens nothing but what was sealed, not a probabilistic security notion.
- The error texts: validators that wrap every fault in one error are modelled as accepting or refusing.
- The C# frame writer's own array filling: its octets are the specification functions the Go writer is proved against.
- Profiles other than Standard, the other AEAD suites, and the capability, settlement, interaction, workflow, knowledge and stream validators: the same shapes again.
- Registry tables, language adapters, vector generators and process plumbing.
