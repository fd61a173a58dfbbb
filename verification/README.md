# Ironbind in Dafny

A model of the core of Ironbind, a DNS server: what it reads and writes on the wire, what it
keeps in a zone, what it answers and proves, how it transfers, signs, limits and resolves, and
proofs about that model. The model follows the code; where a comment or a document of the
repository says something else, the differences are listed below.

One module per file. From the bottom up:

- `Bytes`, `Names`, `Sorting`, `Base32hex`: octets and text, dotted names and label lists, stable
  sorting, base 32. A Rust `String` is modelled as its UTF-8 octets, so names outside ASCII are
  covered.
- `Wire`, `RoundTrip`, `RecordData`, `PacketRoundTrip`, `Codec`: reading and writing packets. The
  functions of `Wire` say what a buffer means; the classes `Codec.Parser` and `Codec.Builder` move a
  position and append octets as the source does and are proved against those functions.
- `Tsig`, `TsigRoundTrip`: transaction signatures, with the in-place patches of ID and ARCOUNT.
- `Canonical`, `Bitmap`, `Zones`, `Denial`, `Answers`, `Nsec3`: canonical order, the NSEC chain, the
  binary search, closest enclosers, the answering branch of the server, and hashed denial.
- `History`, `Transfer`, `Replay`: zone versions, the bounded queue of differences, AXFR and IXFR
  streams, up to what a secondary ends with. Loads, publications and snapshots are steps of a state
  machine. `Replay` gives the exact condition for a delta answer when zones are signed again under
  one serial.
- `RateLimit`: the bounded, pruned, sharded table against one that never forgets, and the global cap.
- `Resolver`: the walk from the root servers, with everything the network delivers as a parameter.
- `SignedData`, `Dnssec`, `ZoneSigning`, `SecureAnswers`: the octets a signature covers, signing,
  validating, signing a whole zone, and what a server that keeps loading zones hands out: signatures
  that are fresh, and negative answers whose proofs validate with what the same answer carries.
- `ZoneFile`: comments, parentheses, buffering and splitting of zone file lines.
- `Limits`: concrete inputs at which promises fail, one for each exact condition that has no witness
  beside it.

Random identifiers, clocks, files, SHA-1, HMAC, RSA and the curves are parameters. What is assumed of
them is written where they are used: `Dnssec.Lawful` (a check accepts what the matching key signed, and
a signature is as long as the modulus), 32 octets for HMAC-SHA256, 20 for SHA-1, and nothing else.
Integer arithmetic is that of a release build, in which it wraps.

## What turned out not to hold

Each of these is proved: the exact condition under which the code does what it is for and, after the
semicolon, a lemma with an input at which it does not.

- A name missing from a signed zone is denied exactly when it is not an owner's once its empty pieces
  are dropped (`Answers.NxDomainProven`, `Answers.NegativeAnswerProven`). A label with a dot at its end
  hides such a piece: `a..z`, readable from the wire, is not denied by a zone that owns `a.z`
  (`Limits.HiddenDotReads`, `Limits.HiddenDotUnproven`).
- The wildcard's absence is proved exactly when the wildcard is not itself an owner: the code never
  answers from a wildcard (`Answers.NxDomainProven`; `Limits.WildcardUnproven`).
- After eight CNAMEs the chase stops at a name it never looked up and says NODATA even when the data
  is there (`Answers.ChaseMeaning`; `Answers.LongChainDeniesExistingData`).
- A delta answer is exact when the served zone and the copy agree off the records touched by the
  changes of serial in the chain, and the served zone shows each touched record as the last version
  that changed it (`Replay.TransferExactly`, `Replay.DeltaAnswerExactly`). Signing a zone again under
  one serial, as the daily reload does, breaks it whether the load comes before the change of serial
  (`History.ResignedTransfer`) or after it (`History.ResignedAfterChange`; `Replay.ResignedZoneIsMissed`).
- A served zone whose serial does not decode counts as serial 0, and a requester whose chain ends at 0
  ends with the version that really has it (`Transfer.IncrementalExactly`;
  `Replay.UnreadableHasNoSerial`, `Replay.UnreadableSerialIsMissed`).
- A signed message with 65535 additional records wraps ARCOUNT to 0 and never verifies
  (`TsigRoundTrip.SignThenVerify`; `Limits.FullPacketNeverVerifies`).
- With an upper-case letter in a TSIG key's name or algorithm the octets rebuilt for verification are
  not those signed, so that verification rests on a collision of the authentication code
  (`TsigRoundTrip.CaseChangesPreimage`, `TsigRoundTrip.SignThenVerify`).
- A name survives writing and reading exactly when its labels are lower-case text of 1 to 191 octets;
  the reader takes length octets 64 to 191, which RFC 1035 reserves (`RoundTrip.NameRoundTripExact`).
- Storing record data keeps its meaning exactly when no embedded name has a dot inside a label that
  leaves an empty piece (`RecordData.DecompressKeepsMeaning`; `Limits.HiddenDotChangesData`).
- An accepted reply answers the name that was asked for exactly when that name has no empty piece; for
  others the question sent is the name without its empty pieces (`Resolver.AcceptedReplyMatches`).
- A referral need not gain a label: `com` may be delegated to a zone spelled `com.`, one label of four
  octets (`Resolver.DeeperExactly`; `Resolver.RespelledZoneAccepted`).
- A field that ends in an escaped blank loses it when nothing but blanks follows
  (`ZoneFile.TrimKeepsFieldsExactly`; `ZoneFile.EscapedBlankIsLost`).
- Signing under an algorithm number other than 8 or 10 makes signatures the validator passes over
  (`Dnssec.SignThenValidate`; `Limits.UnknownAlgorithmIsBogus`).
- Signatures made within thirty days of the end of the 32-bit clock have expired when they are made
  (`SecureAnswers.ServedIsFreshExactly`).

Where the repository's words and its code differ, the code is modelled: the comment on
`validate_rrset` promises Secure for any valid signature, but one mismatch ahead of it gives Bogus
(`Dnssec.SecureExactly`); the comment on `sign_message` asks for an ARCOUNT that already counts the
TSIG record, but the code counts it; the comment above `Builder` promises name compression, which the
code does not do; the header of `src/axfr.rs` says no history is kept, the repository's README says
it is kept on disk, and the code keeps it in memory; the comment in `src/server.rs` speaks of zone
files that carry NSEC3 records, which the zone file reader cannot load.

## Model

| member | source | states |
|---|---|---|
| Names.SplitJoin | src/proto.rs:426-437 | dotted text cut at its dots gives back the labels it was joined from, provided no label hides a dot |
| Codec.ReadLabelsExact | src/proto.rs:280-322 | the name reader succeeds exactly when the octets denote labels in the sense of section 4.1.4 of RFC 1035 through at most 20 pointers, gives those labels, and stops just past the terminator or first pointer |
| Codec.Parser.U8 | src/proto.rs:252-253 | takes one octet and moves on, or fails at the end of the buffer |
| Codec.Parser.U16 | src/proto.rs:255-256 | takes two octets, high one first, or fails |
| Codec.Parser.U32 | src/proto.rs:258-259 | takes four octets, high ones first, or fails |
| Codec.Parser.Bytes | src/proto.rs:261-267 | takes exactly the octets asked for, or fails when fewer remain |
| Codec.Parser.Name | src/proto.rs:280-322 | the loop over position, jumps and parts ends, stays inside the buffer, and reads what the reading function says, for every buffer and position |
| Codec.Parser.Record | src/proto.rs:324-335 | reads a record and expands the names in its data against the whole packet |
| Codec.Parser.Records | src/proto.rs:354-356 | reads a section of as many records as the header counts |
| Codec.Parser.Questions | src/proto.rs:345-352 | reads the question section |
| Codec.Parser.Parse | src/proto.rs:337-372 | reads a whole packet; the OPT record is taken out of the additional section and sets payload size and DO bit |
| Codec.Builder.Name | src/proto.rs:426-437 | appends the labels of the name, skipping empty ones, and a zero octet |
| Codec.Builder.Question | src/proto.rs:439-443 | appends a question |
| Codec.Builder.Record | src/proto.rs:445-453 | appends a record with the length of its data modulo 65536 |
| Codec.Builder.Opt | src/proto.rs:455-463 | appends the OPT record of a payload size and DO bit |
| Codec.SerializePacket | src/proto.rs:468-489 | header counts, sections and the optional OPT record stand in the order of the wire format |
| Codec.EncodeCanonicalName | src/proto.rs:492-506 | lower-cases, drops trailing dots and writes every piece, also empty ones |
| Codec.DecompressRdata | src/proto.rs:512-590 | expands the names in NS, CNAME, PTR, MX, SRV and SOA data and leaves all other data, and data that does not decode, alone |
| Codec.DecompressSoa | src/proto.rs:541-566 | expands both names of an SOA and keeps its five numbers |
| RoundTrip.NameRoundTripExact | src/proto.rs:280-322 | a written name is read back as itself exactly when it is the root or made of lower-case text labels of 1 to 191 octets |
| RoundTrip.CanonicalIsPlain | src/proto.rs:492-506 | on proper names the canonical encoder and the builder write the same octets |
| RecordData.CanonicalExact | src/proto.rs:492-506 | a name read from a packet and written by the canonical encoder is read back as itself exactly when no piece of it is empty |
| RecordData.DecompressKeepsMeaning | src/proto.rs:512-590 | for data whose names decode, reading the stored data alone gives the same names and integers as reading it inside the packet, exactly when the names have no empty piece |
| RecordData.StoredIsPointerFree | src/proto.rs:512-590 | for all six types the names in the stored data are read without following any pointer, whatever pointers the packet used |
| Limits.HiddenDotChangesData | src/proto.rs:512-590 | NS data with a label that ends in a dot is stored as data that says another name |
| PacketRoundTrip.DecompressIdentity | src/proto.rs:512-590 | data with plain uncompressed names is left alone wherever it stands |
| PacketRoundTrip.ExtraSplits | src/proto.rs:358-369 | an OPT record put in by the builder comes out as payload size and DO bit and leaves no other trace |
| PacketRoundTrip.SectionsAt | src/proto.rs:468-489 | where each section of a serialized packet stands |
| PacketRoundTrip.ParseSerialize | src/proto.rs:468-489 | parsing a serialized well-formed packet gives the packet back and consumes every octet |
| Tsig.TsigKeyring.Insert | src/tsig.rs:35-37 | stores a key under its lower-cased name with a trailing dot and changes no other key |
| Tsig.SignMessage | src/tsig.rs:60-82 | appends the TSIG record over message and variables and adds one to ARCOUNT modulo 65536 |
| Tsig.ExtendTsigVariables | src/tsig.rs:169-191 | appends the variables of section 4.3.3 of RFC 8945 |
| Tsig.BuildTsigRecord | src/tsig.rs:193-222 | writes the TSIG record |
| Tsig.SkipRr | src/tsig.rs:158-166 | steps over one record without looking at its data; the position may pass the end |
| Tsig.ParseTsigData | src/tsig.rs:139-150 | reads the fields of a TSIG record |
| Tsig.ExtractTsig | src/tsig.rs:115-156 | walks to the last record and reads it, with every error of the source told apart from success |
| Tsig.ExtractBounds | src/tsig.rs:99-107 | the record found starts inside the message and after its header, so the patches are in bounds |
| Tsig.VerifyMessage | src/tsig.rs:86-113 | looks up the key, checks algorithm, time and the MAC over the rebuilt octets |
| TsigRoundTrip.PreimageRestored | src/tsig.rs:99-107 | undoing the signer's patches gives the signed message back octet for octet |
| TsigRoundTrip.WalkLandsAtEnd | src/tsig.rs:120-130 | the walk over questions and records of a signed message lands exactly at the end of the message that was signed |
| TsigRoundTrip.SignThenVerify | src/tsig.rs:60-113 | a serialized message signed with a key of the keyring, in any case, verifies exactly when it has fewer than 65535 additional records, the algorithm is supported, the clock is within 300 seconds, and the octets rebuilt with lower-case names have the authentication code of those signed |
| TsigRoundTrip.LowerCaseKeyVerifies | src/tsig.rs:60-113 | with a lower-case key the last condition always holds |
| TsigRoundTrip.CaseChangesPreimage | src/tsig.rs:86-113 | the rebuilt octets are those signed exactly when key name and algorithm have no upper-case letter |
| Limits.FullPacketNeverVerifies | src/tsig.rs:60-82 | a packet with 65535 additional records, signed with a plain key, never verifies |
| Canonical.CanonicalOrderTotal | src/zone.rs:123-132 | the canonical order is total, antisymmetric and transitive on zone names |
| Canonical.KeyInjective | src/zone.rs:123-132 | names that compare equal are equal |
| Canonical.SubtreeContiguous | src/zone.rs:123-132 | whatever sorts between a name and a descendant of it is a descendant too |
| Canonical.SuffixIsDescent | src/zone.rs:45-55 | ending in `.x` as a string is being a proper descendant of `x` |
| Bitmap.EncodeNsecBitmap | src/zone.rs:135-153 | the octets written depend on the set of types alone, not on order or duplicates |
| Bitmap.WriteWindows | src/zone.rs:144-152 | the loop over windows writes each used window once, in ascending order |
| Bitmap.DecodeEncode | src/zone.rs:135-153 | a reader of section 4.1.2 of RFC 4034, which refuses empty windows, trailing zero octets and windows out of order, reads back exactly the set of types |
| Zones.Zone.constructor | src/zone.rs:22-29 | a new zone is empty and its origin is lower-case without trailing dots |
| Zones.Zone.Add | src/zone.rs:31-35 | a record joins the end of the set of its name and type, and its name becomes known |
| Zones.AddKeepsKeyed | src/zone.rs:31-35 | every record stays in the set of its own name and type |
| Zones.Zone.TypesOf | src/zone.rs:75-78 | collects the types present at an owner, whatever the order of the hash map |
| Zones.Zone.MakeNsec | src/zone.rs:79-89 | writes the NSEC of one owner: the next name, then the bitmap of its types, RRSIG and NSEC |
| Zones.InsertSorted | src/zone.rs:71-73 | a name goes to its place in canonical order |
| Zones.SortOwners | src/zone.rs:71-73 | the owners are listed once each, in canonical order |
| Zones.Zone.BuildNsecChain | src/zone.rs:70-93 | every owner gets one NSEC to its successor, the last one to the first |
| Zones.ChainIsSigned | src/zone.rs:70-93 | after the chain is built over well-formed names each owner has exactly one NSEC, naming its successor in one cycle through all owners in ascending order and the types present at the owner |
| Zones.SignatureKeepsChain | src/zone_manager.rs:169-233 | adding signatures after the chain was built keeps it |
| Denial.PartitionPoint | src/zone.rs:101-105 | the binary search finds how many owners sort before the name |
| Denial.NsecCoveringOwner | src/zone.rs:101-105 | gives the owner just before the name, wrapping to the last one |
| Denial.UniqueCover | src/zone.rs:101-105 | an owner's circular interval contains a key exactly when the key is no owner's and the owner is the one the search gives |
| Denial.NextIsFirstAfter | src/zone.rs:101-105 | the next name of the covering owner is the least owner after the name, when there is one |
| Denial.ExistsInTree | src/zone.rs:45-50 | a name exists exactly when some owner is the name or below it |
| Denial.ExistingIsZoneName | src/zone.rs:45-50 | whatever exists in a zone of proper names is a proper name, up to case |
| Denial.AuthoritativeInTree | src/zone.rs:52-55 | the string test for authority is being at or below the origin |
| Denial.NextBelowExactlyForEmptyNonTerminal | src/zone.rs:70-105 | for a name that owns nothing, the next name of its covering NSEC lies below it exactly when the name is an empty non-terminal |
| Denial.FindClosestEncloser | src/zone.rs:108-118 | the loop strips labels until a name exists or the origin is reached |
| Denial.ClosestEncloserIsLongest | src/zone.rs:108-118 | it gives the longest existing proper ancestor, or the origin |
| Denial.ClosestEncloserIsZoneName | src/zone.rs:108-118 | the closest encloser of any text is a proper name |
| Answers.FollowCnames | src/server.rs:389-414 | the loop collects answers along at most eight CNAMEs inside the zone |
| Answers.ChaseMeaning | src/server.rs:389-414 | the chase answers exactly when fewer than its turns lead to a name with the type or a CNAME out of the zone; when it does not and had turns left, the name it stopped at lacks the type |
| Answers.LongChainDeniesExistingData | src/server.rs:389-447 | a chain of eight CNAMEs is answered NODATA although the name at its end has the data |
| Answers.CollectNoDataProof | src/server.rs:431-443 | pushes the name's own NSEC, or the covering one for an empty non-terminal, with its signatures |
| Answers.CollectNxDomainProof | src/server.rs:454-468 | pushes the NSEC3, or the NSECs covering the name and the wildcard, the second only when it is another record |
| Answers.AnswerAuthoritative | src/server.rs:386-472 | the sections and code of the authoritative reply |
| Answers.SignedNsecProves | src/server.rs:625-630 | the records sent for one owner prove absence of exactly the names in its interval |
| Answers.NxDomainProven | src/server.rs:449-472 | for any name answered NXDOMAIN by a signed zone the proof holds a stored NSEC covering the name exactly when the name without its empty pieces is not an owner, and one covering the wildcard at its closest encloser exactly when that wildcard is not an owner |
| Answers.ProperNxDomainProven | src/server.rs:449-472 | in particular every proper name that does not exist is covered |
| Answers.EmptyNonTerminalProven | src/server.rs:431-443 | an empty non-terminal is answered with an NSEC that covers it and whose next name is below it |
| Answers.NoDataProven | src/server.rs:431-443 | a name with records is answered with its own NSEC, whose bitmap lists exactly its types, RRSIG and NSEC |
| Answers.NegativeAnswerProven | src/server.rs:386-472 | every negative answer of a signed zone with DO set, to any query name, says NXDOMAIN exactly when the name it ended at does not exist, and carries the matching proof, with the one exception stated for NXDOMAIN |
| Limits.HiddenDotReads | src/proto.rs:280-322 | a wire name whose first label ends in a dot reads as a name with an empty piece |
| Limits.HiddenDotUnproven | src/server.rs:449-472 | a signed zone that owns `a.z` answers that name NXDOMAIN and sends no NSEC that covers it |
| Limits.WildcardUnproven | src/server.rs:449-472 | a signed zone that owns `*.z` does not deny the wildcard when it denies `b.z` |
| Answers.ChooseZone | src/server.rs:381-385 | picks the last zone with the longest origin among those authoritative for the name, or none when there is none |
| Answers.LongestIsMostSpecific | src/server.rs:381-385 | the longest origin is the deepest one: every other zone that could answer lies above it |
| Nsec3.HashName | src/zone.rs:216-232 | the loop computes the iterated salted hash of section 5 of RFC 5155 |
| Base32hex.EncodeBytes | src/zone.rs:236-255 | the 32-bit shifting window writes the input's bits, padded with zeros to a multiple of five, in base 32 as section 7 of RFC 4648 says |
| Base32hex.EncodeKeepsOrder | src/zone.rs:236-255 | encodings of equally long inputs compare as the inputs do |
| Base32hex.EncodeInjective | src/zone.rs:236-255 | different inputs of any lengths have different encodings |
| Nsec3.Nsec3Covering | src/zone.rs:164-190 | nothing without NSEC3PARAM or NSEC3 records; otherwise a record with the greatest label not above the query's, or the greatest of all, whatever the order of the hash map |
| Nsec3.ChoiceIsByHash | src/zone.rs:164-190 | choosing by base32 label is choosing by hash when the owners encode hashes of one length |
| Nsec3.CoveringIsByHash | src/zone.rs:164-190 | the record returned carries the greatest hash not above the name's hash, or the greatest of all |
| Nsec3.PlainZoneAnswersWithNsec | src/server.rs:449-472 | a zone without NSEC3PARAM answers NXDOMAIN with its NSEC proofs, for every query name |
| History.AllRecords | src/zone_manager.rs:245-265 | every record of the zone is visited exactly once, in some order |
| History.BuildDelta | src/zone_manager.rs:238-268 | the delta is the exact difference of the two zones without SOAs, and there is none when a serial is missing |
| History.PushCapped | src/zone_manager.rs:77-79 | the newest deltas are kept, at most 32 |
| History.ZoneManager.LoadZone | src/zone_manager.rs:58-98 | a load that fails changes nothing; one that succeeds stores the zone and its path, counts the version, and queues the exact difference when the serial changed |
| History.ZoneManager.Chain | src/zone_manager.rs:103-117 | gives the deltas from the earliest one that starts at the serial to the newest, or nothing when they do not join |
| History.ZoneManager.ReloadAll | src/zone_manager.rs:122-143 | loads every zone whose file can be read exactly once, in some order, and counts them |
| History.LoadKeepsExact | src/zone_manager.rs:58-98 | after every load each queued delta is still the exact difference between two loaded versions with its serials |
| History.RunKeepsExact | src/server.rs:146-154 | so it is at every moment of every run of loads and publications, evictions included |
| History.ChainLeads | src/zone_manager.rs:103-117 | replaying a joined chain turns any version with its first serial into any version with its last, when versions with one serial agree |
| History.TransferIsExact | src/server.rs:727-745 | over every run, a zone taken at one moment and a chain taken at a later one: when the chain ends at the number the zone goes by, replaying it on the requester's version gives the newest version of that number, which is the zone served exactly when its serial decodes or it has the same records |
| History.DeltaExactFor | src/zone_manager.rs:238-268 | with no assumption on serials: applying one delta to a copy gives the newer zone exactly when the copy lies between what the versions share and what they hold together |
| History.ChainExactFor | src/zone_manager.rs:103-117 | with no assumption on serials: the exact condition under which replaying a chain on a copy gives a target |
| History.ResignedTransfer | src/zone_manager.rs:71-82 | loads with serials n, n, m leave a delta from the second version; applied to the first it gives the third exactly under the stated inclusions |
| History.ResignedAfterChange | src/zone_manager.rs:71-82 | loads with serials n, m, m leave a delta to the second version; applied to the first it gives the second, which is the third exactly when signing again changed nothing |
| Replay.RunTracks | src/zone_manager.rs:58-98 | over every run a zone's queue holds exactly the newest changes of serial among its loads, each the difference between two consecutive loads |
| Replay.ReplayExactly | src/zone_manager.rs:103-117 | an iff for any chain in terms of the versions before and after each delta, any copy and any target |
| Replay.JoinsSuffice | src/zone_manager.rs:103-117 | it is enough that each version is what the one before it in the chain left |
| Replay.OneDeltaExactly | src/zone_manager.rs:103-117 | the condition for a chain of one delta |
| Replay.TransferExactly | src/server.rs:727-745 | over every run, with any number of loads under one serial before, between and after: the chain given for a serial holds every change of serial from some load on, and replaying it on any copy gives any zone exactly under that condition |
| Replay.DeltaAnswerExactly | src/axfr.rs:53-87 | the same for the records of a delta answer, cut at their SOAs and applied |
| Replay.ResignedZoneIsMissed | src/server.rs:146-154 | a run that signs a zone again under its serial and then gives a requester a delta that leaves out the published version |
| Replay.UnreadableHasNoSerial | src/zone_manager.rs:238-268 | SOA data whose first label has 192 octets has no serial |
| Replay.UnreadableSerialIsMissed | src/axfr.rs:58 | a run that publishes such a zone and gives a requester a delta to the version with serial 0 instead |
| Transfer.ChunksFlatten | src/axfr.rs:77-81 | the messages hold 1 to 64 records each and together the whole stream |
| Transfer.BuildMessage | src/axfr.rs:89-95 | the message answers the request's identifier and questions with AA set |
| Transfer.SortedBody | src/axfr.rs:21-25 | a listing of every record that is not an SOA, each as often as it stands in the zone, sorted by name and type |
| Transfer.AxfrStream | src/axfr.rs:14-47 | SOA, a sorted listing of everything else, SOA, cut into messages of 1 to 64 records; nothing without an SOA |
| Transfer.ListDeltas | src/axfr.rs:67-75 | the stream of a delta answer: old SOA, deletions, new SOA, additions, for each delta, between the served SOAs |
| Transfer.Pack | src/axfr.rs:77-82 | one message per chunk |
| Transfer.IxfrStream | src/axfr.rs:53-87 | one SOA when the serials agree, the delta stream when the chain ends at the zone's serial, the full answer otherwise |
| Transfer.ReceivedBack | src/axfr.rs:89-95 | the messages, parsed, give back the records of the stream in order |
| Transfer.SplitChain | src/axfr.rs:65-75 | cutting the delta stream at its SOAs recovers exactly the list of deltas |
| Transfer.FullTransferItems | src/axfr.rs:21-25 | what lies between the SOAs of a full answer is the zone |
| Transfer.SecondaryCopiesZone | src/axfr.rs:14-47 | end to end from octets: a secondary that parses a full answer holds exactly the zone that was served |
| Transfer.IncrementalExactly | src/axfr.rs:53-87 | whenever the delta answer is given the secondary ends with the newest version of the number the served zone goes by, which is the served zone exactly when its serial decodes or it has the same records |
| Transfer.SecondaryEndsWithServedZone | src/server.rs:727-745 | end to end from octets, over every run and interleaving: a secondary that parses an incremental answer and applies it to its version holds exactly the zone that was served |
| RateLimit.Draw | src/ratelimit.rs:99-109 | refills a bucket up to its capacity and takes a token when there is one |
| RateLimit.RateLimiter.constructor | src/ratelimit.rs:47-59 | 64 empty shards and at least one source each |
| RateLimit.RateLimiter.CheckSource | src/ratelimit.rs:76-110 | decides from the source's shard, pruning at most once a second, and leaves the other shards alone |
| RateLimit.RateLimiter.CheckGlobal | src/ratelimit.rs:67-74 | counts the call in its second and admits it while the count is below the limit |
| RateLimit.RateLimiter.Check | src/ratelimit.rs:62-64 | a refused source is not counted against the global cap |
| RateLimit.IdleIsFresh | src/ratelimit.rs:90 | a pruned bucket, had it been kept, would decide as the new one does |
| RateLimit.CheckAgrees | src/ratelimit.rs:76-110 | one call keeps the bounded table in agreement with an unbounded one and decides alike unless the table-full rule lets the call through |
| RateLimit.DecidesAsUnbounded | src/ratelimit.rs:76-110 | over every run with a nondecreasing clock, every call not let through by the table-full rule is decided as a never-forgetting token bucket per source would |
| RateLimit.TableStaysBounded | src/ratelimit.rs:47-59 | tracked sources never exceed the configured number, or 64 when that is less |
| RateLimit.SourceGetsAtMost | src/ratelimit.rs:99-109 | from any reachable table on, metered calls of one source are admitted at most capacity plus rate times the time passed |
| RateLimit.AnyStretchIsLimited | src/ratelimit.rs:76-110 | the same for every stretch of every run of a new limiter |
| RateLimit.WindowGetsAtMost | src/ratelimit.rs:67-74 | at most the limit is admitted in any whole second |
| RateLimit.ShortStretchGetsTwice | src/ratelimit.rs:66-74 | at most twice the limit is admitted in any stretch shorter than a second |
| RateLimit.EverySecondIsCapped | src/ratelimit.rs:62-74 | over every run of a new limiter, with any calls refused for their source on the way, at most the limit is allowed in any whole second |
| RateLimit.ShortStretchIsCapped | src/ratelimit.rs:62-74 | and at most twice the limit in any stretch of the run shorter than a second |
| Resolver.BailiwickIsSuffix | src/resolver.rs:432-436 | the string test for bailiwick is having the zone's pieces as a suffix, for all texts |
| Resolver.DeeperExactly | src/resolver.rs:432-436 | a zone inside another has more pieces exactly when the two differ after trimming dots and lower-casing |
| Resolver.AcceptedReplyMatches | src/resolver.rs:363-430 | whatever arrives, an accepted reply is a response with the identifier that was sent and the question for the name without its empty pieces, which is the name asked for exactly when it has none |
| Resolver.ReadIsAskable | src/proto.rs:280-322 | that holds for every name read from a packet |
| Resolver.AskEach | src/resolver.rs:178-196 | asks each server not yet asked for this name until one replies |
| Resolver.CollectGlue | src/resolver.rs:263-280 | addresses of the delegation's servers found in the additional section, server by server |
| Resolver.CollectGlueFor | src/resolver.rs:266-279 | addresses of one server, in order |
| Resolver.CollectAddresses | src/resolver.rs:287-295 | the A records of an answer with four octets of data |
| Resolver.ReadReply | src/resolver.rs:210-280 | the branches a reply takes: result, alias, referral or failure |
| Resolver.ResolveServers | src/resolver.rs:282-301 | resolves server names one level down until one has addresses |
| Resolver.IterativeResolve | src/resolver.rs:151-319 | the loop and its recursion end for every network, by depth left and then referrals left, and give what the walk function gives |
| Resolver.DecisionDescends | src/resolver.rs:241-257 | a referral keeps the name and moves to a different zone inside the current one that still contains the name |
| Resolver.GlueIsInBailiwick | src/resolver.rs:206-280 | every glue address used comes from an A record of the reply inside the zone asked and owned by a server of the delegation |
| Resolver.WalkIsConfined | src/resolver.rs:169-319 | over every walk the zone asked contains the name, every step is a referral downwards or a restart at the root, at most 20 turns are taken, and every record handed back except OPT lies in the zone whose servers were asked |
| Resolver.LookupIsConfined | src/resolver.rs:151-319 | the same for every lookup from the root servers, at every nesting depth |
| Resolver.ReferralsAtMostPieces | src/resolver.rs:169-319 | between restarts there are at most as many referrals as pieces in the name, plus those that only respell the zone |
| Resolver.ProperReferralDeepens | src/resolver.rs:241-251 | a referral between proper zone names gains a label |
| Resolver.ReferralsAtMostLabels | src/resolver.rs:169-319 | with proper zone names there are at most as many referrals between restarts as labels in the name |
| Resolver.ReadIsProperName | src/proto.rs:280-322 | names read from the wire whose labels hold no dot are proper |
| Resolver.RespelledZoneAccepted | src/resolver.rs:244-251 | a delegation from `com` to `com.`, readable from the wire, is accepted although it gains nothing |
| SignedData.WriteHeader | src/dnssec.rs:237-247 | the RRSIG fields without the signature |
| SignedData.WriteCanonical | src/dnssec.rs:250-255 | each record with lower-case owner and the original TTL |
| SignedData.BuildSignedData | src/dnssec.rs:234-260 | header, then the encoded records in lexicographic order |
| SignedData.SameRrsetSameOctets | src/dnssec.rs:234-260 | permuting the RRset, changing TTLs or owner case leaves the signed octets alone |
| SignedData.RecordPrefixFree | src/proto.rs:593-602 | no encoded record is the beginning of another |
| SignedData.OctetsDetermineRrset | src/dnssec.rs:234-260 | nothing else does: the signed octets of two RRsets agree exactly when they are the same up to order, TTLs and owner case |
| Dnssec.RsaKeyRoundTripExact | src/dnssec.rs:353-364 | the key encoding of section 2 of RFC 3110 parses back exactly for exponents of 1 to 65535 octets |
| Dnssec.BuildDnskeyRdata | src/zone_signing.rs:87-105 | writes flags, protocol, algorithm and the encoded public key |
| Dnssec.DnskeyReadsBack | src/proto.rs:389-396 | DNSKEY data reads back as its fields |
| Dnssec.ComputeKeyTag | src/zone_signing.rs:283-290 | the loop with a 32-bit accumulator that wraps gives the key tag |
| Dnssec.TagNeverWraps | src/zone_signing.rs:283-290 | on record data nothing wraps and the tag is that of appendix B of RFC 4034 |
| Dnssec.SignRrsetWithKey | src/zone_signing.rs:172-229 | nothing for an empty RRset; otherwise an RRSIG with the fields of the first record, signed over the canonical octets |
| Dnssec.RrsigReadsBack | src/proto.rs:375-387 | a written RRSIG reads back with all its fields and a signer that is written the same again |
| Dnssec.ValidateRrset | src/dnssec.rs:50-116 | the loop over signatures, with every reason to pass one over |
| Dnssec.SecureExactly | src/dnssec.rs:59-116 | Secure exactly when some signature verifies and every one before it is passed over |
| Dnssec.JudgeOwnSignature | src/dnssec.rs:59-113 | what the validator makes of a signature made with the published key |
| Dnssec.SignThenValidate | src/zone_signing.rs:172-229 | a signature of the signer, for the RRset in any order, TTLs and owner case, gives Secure exactly within its validity and for algorithms 8 and 10, when the first key with its tag and algorithm is the signer's and the signatures before it are passed over; otherwise the ones after it decide |
| Limits.UnknownAlgorithmIsBogus | src/zone_signing.rs:172-229 | a signature made under algorithm number 5 is Bogus at any time |
| Dnssec.OnlyKeyFound | src/dnssec.rs:74-82 | whatever order the keys come in, the signer's is found when no other key shares its tag and algorithm |
| ZoneSigning.ApexKey | src/zone_signing.rs:108-121 | the published key record and its tag |
| ZoneSigning.AddKeys | src/zone_manager.rs:192-201 | the public keys join the apex, zone signing key first |
| ZoneSigning.SignSet | src/zone_manager.rs:214-223 | one signature by the zone signing key and, for the keys, one by the key signing key; stops only when the latter fails |
| ZoneSigning.SignSets | src/zone_manager.rs:209-224 | every set of the zone is signed once, in whatever order the hash map gives |
| ZoneSigning.AddAll | src/zone_manager.rs:226-229 | the signatures join the zone after all were made |
| ZoneSigning.SignZone | src/zone_manager.rs:169-233 | a zone with keys is left alone; otherwise keys, chain over all names, and signatures, or keys and chain alone when the key signing key fails |
| ZoneSigning.SignaturesFound | src/zone_manager.rs:209-229 | among all signatures of the zone, those covering a set are the set's own |
| ZoneSigning.SignaturesAdded | src/server.rs:633-643 | adding signatures changes no other set, and the server finds for a set those added that cover it |
| ZoneSigning.PreparedIsReady | src/zone_manager.rs:192-207 | keys and chain added to an unsigned zone leave its zone signing key first among the keys and no signature |
| ZoneSigning.SignedZoneValidates | src/zone_manager.rs:169-233 | every set of a signed zone, served in any order, TTLs and owner case with the signatures the server sends along, is Secure against the zone's keys exactly from the signer's inception to its expiry, whatever order the sets were signed in and even if key tags collide |
| ZoneSigning.SigningMakesSignedZone | src/zone_manager.rs:169-233 | signing well-formed data makes a signed zone as the denial proofs require it: one NSEC cycle over all owners with exact bitmaps |
| SecureAnswers.LoadIsSigned | src/zone_manager.rs:58-66 | a load of well-formed data with keys that sign publishes a signed zone as the denial proofs and the validation proof require it |
| SecureAnswers.PeriodExactly | src/zone_signing.rs:137-154 | from its load on a signature is in force for exactly thirty days, and never when that passes the end of the 32-bit clock |
| SecureAnswers.ServedIsFreshExactly | src/server.rs:137-153 | whatever a server loaded and when: every set it serves is Secure exactly while the last successful load is no more than thirty days old |
| SecureAnswers.DailyReloadsStayFresh | src/server.rs:137-153 | a server that loads daily never serves an expired signature, nor when loads fail 28 days in a row |
| SecureAnswers.SetsFound | src/server.rs:625-643 | sets sent with their signatures are found in a section whole, each with exactly its own signatures |
| SecureAnswers.AuthorityIsSets | src/server.rs:416-472 | the authority section of a negative answer is the SOA and the NSECs of its proof, each a whole set with its signatures |
| SecureAnswers.NegativeAnswerValidates | src/server.rs:416-472 | every record of that section other than signatures belongs to a set that stands whole in it and is Secure, with the signatures found in it, exactly while the load is no more than thirty days old |
| ZoneFile.StripComment | src/zone.rs:378-391 | cuts at the first `;` outside quotes and escapes |
| ZoneFile.ParenthesisBalance | src/zone.rs:394-409 | opening minus closing parentheses outside quotes and escapes |
| ZoneFile.TokenizeLine | src/zone.rs:413-438 | splits at blanks and parentheses outside quotes and escapes |
| ZoneFile.ReadRecords | src/zone.rs:270-284 | lines are buffered until parentheses close; blank lines between records are skipped, an unfinished record at the end is dropped |
| ZoneFile.ScannersAgree | src/zone.rs:378-438 | the tokenizer's quote and escape state is that of the other scanners at every place |
| ZoneFile.StripTakesComment | src/zone.rs:378-391 | stripping a laid-out line takes off its comment and nothing else, whatever the comment says |
| ZoneFile.TrimKeepsFieldsExactly | src/zone.rs:287 | trimming a text that closes its quotes keeps its fields exactly when it does not cut an escape |
| ZoneFile.FileReadsBackExactly | src/zone.rs:270-288 | a file of records laid out over lines, with blank and comment lines between them and an unfinished record at its end, becomes one text a record in order, and splitting each text gives its words back exactly when trimming does not cut an escape |
| ZoneFile.EveryFileIsBlocks | src/zone.rs:270-284 | every file of laid-out lines has that form |
| ZoneFile.RecordReadsBackExactly | src/zone.rs:270-288 | the same for the lines of one record |
| ZoneFile.RecordReadsBack | src/zone.rs:270-288 | a record whose words do not end in an escaped blank gives all its words back |
| ZoneFile.EscapedBlankIsLost | src/zone.rs:278-287 | a word that ends in an escaped blank comes back without it |
| ZoneFile.TokensAreWords | src/zone.rs:413-438 | what splitting yields are words, so the layouts miss nothing |

## Left out

- Sockets, TLS, HTTP, threads, signals, supervisors, key files and the metrics server: input and output.
- Configuration, cache, metrics and the legacy helpers of `src/advanced.rs`: they would add easy members only.
- The chain of trust (`chain_validate`, `validate_dnskey_with_ds`) and the pinned anchors: policy over fetched data that a statement would only repeat.
- Text of errors: a failed read is one value, and only errors that change what happens next are told apart.
- Codec.Parser.Name: where the position stands after a failed read is not stated, because every caller gives up.
- Codec.Parser.U8: where the position stands after a failed read is not stated, because every caller gives up.
- Codec.Parser.U16: where the position stands after a failed read is not stated, because every caller gives up.
- Codec.Parser.U32: where the position stands after a failed read is not stated, because every caller gives up.
- Codec.Parser.Bytes: where the position stands after a failed read is not stated, because every caller gives up.
- Codec.Parser.Record: where the position stands after a failed read is not stated, because every caller gives up.
- Codec.Parser.Records: where the position stands after a failed read is not stated, because every caller gives up.
- Codec.Parser.Questions: where the position stands after a failed read is not stated, because every caller gives up.
- Codec.Parser.Parse: where the position stands after a failed read is not stated, because every caller gives up.
- TsigRoundTrip.SignThenVerify: names in the message have labels shorter than 192 octets and record data is shorter than 65536, as in every packet that was read; the walk over other octets is Tsig.ExtractTsig.
- Record data from zone files (`build_rdata`), directives, TTL words and relative names: only the line scanners of the zone file reader are modelled.
- Zones.ChainIsSigned: owners are proper names other than the root, so a root zone, whose origin becomes empty text and matches no query, is not covered.
- ZoneSigning.SignZone: key files are given as parsed keys and the two TTLs taken from the SOA as numbers.
- SecureAnswers.NegativeAnswerValidates: answer sections are not covered.
- ZoneSigning.SignedZoneValidates: the keys are served in the order the zone holds them; for other orders Dnssec.OnlyKeyFound applies.
- History.BuildDelta: TTLs and classes are not compared, as in the source, so a version that differs only there counts as the same.
- History.TransferIsExact: the zone is the one the manager keeps under the queried name; nested zones, and zone files that move their origin, are not covered.
- History.ZoneManager.LoadZone: the version counter does not wrap at 32 bits; locks make each load, publication and snapshot one step.
- RateLimit.RateLimiter.CheckGlobal: calls come one at a time; the source's two atomics may interleave.
- RateLimit.Draw: tokens are real numbers, so rounding of floating point is not covered.
- Resolver.IterativeResolve: the forwarder path, whose replies the source takes unfiltered, is not modelled; addresses are the four octets of an A record.
- Dnssec.ValidateRrset: the clock is read once for all signatures, not once for each.
- Dnssec.SignThenValidate: for exponents longer than 65535 octets, which do not parse back, nothing is said of the verdict.
- Nsec3.Nsec3Covering: which of several records with the same label is returned is not stated; the hash map's order decides.
- SignedData.BuildSignedData: sorts whole encoded records, as the source does, which is not the order of section 6.3 of RFC 4034; only what follows from that order is claimed.
- Transfer.AxfrStream: records of one name and type keep the hash map's order, which is arbitrary.
