# A verified model of the VayuWeb client's wire formats, content tree, record chain and ledger

This Dafny 4.11 project models five pieces of the Rust client under `client/src` in which one wrong
byte forks the network, and proves what their documentation and tests promise, for all inputs.

1. **Deterministic CBOR** (RFC 8949, section 4.2.1): the sorting encoder and the strict decoder, and the
   replication and block-exchange message codecs built on them.
2. **The content tree**: varints, base32 (RFC 4648, section 6) and content identifiers; the importer that
   compiles files into dag-pb and UnixFS blocks; the store that verifies blocks on the way in and out; the
   walker that reads files back through links; the publish flow.
3. **The name record chain**: six builders as steps of a state machine with time arithmetic, with signature
   and proof-of-work preimages rebuilt from decoded bytes.
4. **The record verifier**: the structure of a record, its place in a chain, and evidence of equivocation,
   for every byte string, and against everything the builders can produce.
5. **The equivocation ledger**: two budgets, deduplication, and replay of a file that anybody may have
   written.

## How it is built

Every part has two layers. Functions say what is computed: a codec in terms of the octets that are left, a
directory in terms of the list of paths below it, a record in terms of its draft. Methods run it the way
the source does — cursors and growing vectors, path maps and textual prefixes, shared node budgets, a
32-bit accumulator that wraps, arrays incremented in place, a ledger object with its file — and each method
is proved to compute its function. The lemmas are about the functions, so they hold of the code's results.

Each format and each decision is then said once more from outside, in the numbers of the specifications and without
the functions that compute it, and proved to be exactly what they do: the wire form of a value (`CborWire`), the octets
of the tree and what its readers take (`TreeWire`, `TreeReaders`), a file as a tree of payloads (`Assembly`), the
preimages of signatures, hashes and salts (`Preimages`), the fields of every record a builder emits
(`BuiltRecords`), the conditions under which the verifier accepts a byte string (`VerifySound`), and a ledger file as a
run of reports (`EvidenceReaders`).

SHA-256, BLAKE2b-256, Argon2id, signing, signature checking, the name grammar and the authoring checks are
parameters: every statement holds for all of them. Freedom from collisions is asked for only where it is
needed, and only of the finitely many byte strings in play; that a signature is attributed to its own key, only
of the keys that a record is held against, and only for the one message it signs. Text is the octets of a Rust string, with UTF-8
well-formedness (RFC 3629, section 4) spelled out.

| files | subject |
|---|---|
| Base, Arith, Ordering, Utf8, Utf8Scalars | machine integers, arithmetic, bytewise order and sorting, UTF-8 |
| Cbor, CborCanonical, CborComplete, CborEquality, CborCodec, CborMembers, CborFits, CborWire | `cbor.rs` |
| Messages, Replicate, BlockExchange | `replicate.rs`, `blockx.rs` |
| Varint, Base32, Cid, TreeWire, TreeReaders | `cid.rs`, and the octets of the tree, written and read |
| DagPb, DagPbReader, Walker | the formats of `publish.rs` and `dagnode.rs` |
| Store | `store.rs` |
| Importer, ImporterRun, Prefixes, ImportSite | `publish.rs` |
| TreeShape, SiteRead, CompileRead, Binding, Importable, Sizes, Closure, Footprint, Assembly, ReadWitnesses | what importer, store and walker do together |
| PublishFlow | `publish_flow.rs` |
| Domain, Pow, SaltBinding, Preimages | `domain.rs`, `pow.rs` |
| Record, RecordRun, BuiltRecords, RecordFacts, ProofBinding, Chain, Encodable, Renewal, RecordLimits, RecordWitnesses | `record.rs` |
| Verify, VerifySound, VerifyRefusals, VerifyChain, VerifyWitnesses, PartingWitnesses, Equivocation | `verify.rs`, and what builders, verifier and ledger do together |
| EvidenceText, Evidence, EvidenceRuns, EvidenceReaders | `evidence.rs` |

## Where the code and its promises part

- **A ledger file that does not end in a newline loses a report.** The ledger appends a line without
  looking at what the file ends with (`client/src/evidence.rs:374-388`), while opening accepts a last line
  without a newline and does not rewrite the file. The next report recorded then shares that line, and
  reopening reads only the older one. `EvidenceRuns.ReopenIff` gives the exact condition and
  `EvidenceRuns.UnterminatedLosesReport` a witness.
- **The walker's default limits stop files at 31 chunks.** `depth_left` is shared and never given back, so
  `max_depth` counts nodes. `CompileRead.DefaultFileBound` gives the exact condition and
  `ReadWitnesses.ThirtyTwoPiecesByLength` a file; the 256 MiB resource bound of `client/src/dagnode.rs:231-241` could
  be any other from 32 MiB on, on every store (`Footprint.DefaultCeiling`).
- **The importer builds directories the walker refuses.** The number of links is checked by the reader only:
  `CompileRead.CompileThenRead` states the condition directory by directory, `ReadWitnesses.WideDirectoryByLength`
  is one of 175 names.
- **Senders emit what receivers must refuse.** `encode_block_message` promises not to
  (`client/src/blockx.rs:100-104`), but checks no counts or lengths, and `encode_message` does not check the
  length of a root. The `EmitsIff` lemmas say what is emitted, the `MessageRoundTrip` lemmas what then comes
  back, message or refusal; `BlockExchange.SixtyFiveIdentifiers` and `Replicate.EmptyRoot` are witnesses.
- **The difficulty cap of 20 bits is never reached**: 18 is the most the schedule asks (`Pow.RateTerm`).
- **Identifiers parse more liberally than they print.** Every identifier has a longer spelling that is
  accepted (`Cid.LongSpelling`), and leftover base32 bits are ignored (`Base32.SpareBits`);
  `Cid.PrintedIffShortest` and `Cid.PrintedTextIff` say when an accepted form is the printed one.
- **Not every record the builders emit is one the verifier takes**, though `client/src/record.rs:176-180`
  promises it. `VerifyChain.FirstVerdict` and `VerifyChain.NextVerdict` give the verdict on every record of
  every chain, `VerifyChain.AcceptedIff` the condition. What the builders do not look at, with a record each:
  the length (`VerifyWitnesses.TooLongRecord`; `RecordLimits` has it by name, domain and entries), unusable
  keys (`VerifyWitnesses.UnusableKey`), aliases that are malformed, too long or of the name itself
  (`VerifyWitnesses.SelfAlias`), the 32-bit ceiling of sequence numbers (`VerifyWitnesses.BeyondLastSeqRefused`),
  whether the signer is the owner (`VerifyWitnesses.Stranger`), and whether a transfer goes to someone else
  (`VerifyWitnesses.TransferToSelf`).
- **A successor's name is compared with its predecessor's by neither**: `RecordLimits.OneNameIff` says when a
  chain carries one name, `RecordWitnesses.TwoNames` is one of two.
- **On what a name answers, builder and verifier part for three families of successors**, all refused by the
  builder and taken by the verifier. When the end of grace does not fit 64 bits, every operation:
  `client/src/record.rs:611` adds where `client/src/verify.rs:1084` saturates
  (`PartingWitnesses.UpdateAtTheEnd`). A renewal of a revoked name, by a verifier that is not told of the
  revocation (`PartingWitnesses.RenewalOfRevoked`). And a TRANSFER while another settles
  (`PartingWitnesses.TransferWhileSettling`). `VerifyChain.LivenessParts` and `VerifyChain.SettlingParts` give
  the exact conditions.
- **RENEW may follow RELINQUISH within grace** (`client/src/record.rs:592-647`): `Chain.ChainInvariant` lets
  nothing else follow, and `Chain.RenewableIff` says that an instant for it exists.

## Model

| member | source | states |
|---|---|---|
| `CborCanonical.StrictDecodingIsCanonical` | client/src/cbor.rs:267-404 | for every byte string: what decodes re-encodes to exactly the same bytes, so no two inputs decode to one value |
| `CborCanonical.DeterministicIffDecodes` | client/src/cbor.rs:406-419 | the deterministic-form test holds exactly when strict decoding succeeds |
| `CborCanonical.ReadArgumentCanonical` | client/src/cbor.rs:267-306 | a head argument that is accepted was written in its shortest form, with no octet left to choose |
| `CborCanonical.DecodeEntriesCanonical` | client/src/cbor.rs:350-377 | accepted map entries arrive in strictly increasing encoded-key order and re-encode to the octets they came from |
| `CborComplete.EncodingIsComplete` | client/src/cbor.rs:174-236 | decoding an encoding followed by anything consumes exactly the encoding and yields the value with its maps sorted |
| `CborComplete.EncodingIsPrefixFree` | client/src/cbor.rs:174-236 | no encoding is a proper prefix of another |
| `CborComplete.SortCanon` | client/src/cbor.rs:199-226 | sorting entries by encoded key and sorting the maps inside them commute |
| `CborEquality.EncodeAlikeIffSame` | client/src/cbor.rs:125-129 | two encodable values have one encoding exactly when they differ in map entry order only, at any depth |
| `CborEquality.EncodesWellKeyed` | client/src/cbor.rs:213-220 | a value encodes only when no map in it, at any depth, carries a key twice |
| `CborFits.EncodesToLength` | client/src/cbor.rs:174-236 | an encoding is exactly as long as its heads, keys and values add up to, whatever the order of its maps |
| `CborWire.DecodesIff` | client/src/cbor.rs:267-404 | octets decode to a value exactly when they are its wire form of RFC 8949, major types, arguments and payloads written out in numbers: every map in increasing order of its encoded keys, lengths of machine size, no more than 32 levels; nothing else decodes |
| `CborWire.EncodesIff` | client/src/cbor.rs:155-236 | a value encodes exactly when no map in it carries a key twice, its lengths are of machine size and it nests no deeper than allowed, and then to the wire form, in those same numbers, of the one value that differs from it in map order only and is in order |
| `CborWire.RefusedInitials` | client/src/cbor.rs:267-389 | initial octets that no deterministic encoding has, each with its own refusal |
| `Ordering.NeighboursFindDuplicates` | client/src/cbor.rs:213-220 | after sorting, comparing neighbours finds every duplicate key: it fires exactly when two entries share one |
| `Ordering.LessTotal` | client/src/cbor.rs:145-153 | the bytewise order of encoded keys decides any two different keys |
| `Ordering.LessIffBefore` | client/src/cbor.rs:145-153 | the order is decided by the first octet in which two keys differ, or by which of them ends first |
| `CborCodec.HeadInto` | client/src/cbor.rs:155-172 | the in-place head writer appends the shortest head |
| `CborCodec.EncodeValue` | client/src/cbor.rs:174-229 | the recursive in-place encoder appends exactly the specified encoding, and refuses exactly when the specification does |
| `CborCodec.MapInto` | client/src/cbor.rs:199-226 | the map case, which sorts pairs of encoded key and value, writes what sorting the entries themselves would |
| `CborCodec.EncodeWhole` | client/src/cbor.rs:231-236 | encoding into a fresh vector |
| `CborCodec.ReadHeadArgument` | client/src/cbor.rs:262-306 | the cursor reader of head arguments moves exactly past the argument |
| `CborCodec.DecodeValue` | client/src/cbor.rs:308-389 | the cursor-driven decoder returns the specified value or refusal and stops where the specification says the rest begins |
| `CborCodec.ReadMap` | client/src/cbor.rs:350-377 | the map loop, which remembers the previous key's octets, reads what the specification reads |
| `CborCodec.DecodeAll` | client/src/cbor.rs:391-404 | decoding a whole input, trailing octets refused |
| `CborCodec.CheckDeterministic` | client/src/cbor.rs:406-419 | the test run as decode, encode, compare |
| `Utf8.CutAtAscii` | client/src/cbor.rs:331-337 | text can be cut at any ASCII character into two texts: no multi-octet character straddles one |
| `Utf8Scalars.TextIff` | client/src/cbor.rs:331-337 | octets are text exactly when they are the one to four octets of each of a list of Unicode scalar values, and they have as many characters as that list |
| `Messages.Seal` | client/src/replicate.rs:138-148 | both senders: encode the members, refuse what is too large |
| `Messages.Unseal` | client/src/replicate.rs:202-224 | both receivers: size before anything, strict decoding, the re-encoding check, a map |
| `Messages.SealedUnseals` | client/src/replicate.rs:94-224 | what a sealed message carries is what unsealing it finds, name by name |
| `Messages.SealsIffShort` | client/src/replicate.rs:138-148 | a message of numbers, strings and lists of strings is sealed exactly when its length, by names and values, is within the bound, and otherwise refused for its size |
| `Messages.ReencodeCheckUnreachable` | client/src/replicate.rs:210-219 | in both receivers the second, re-encoding, check refuses nothing: only undecodable input is called non-canonical |
| `Replicate.EncodeMembers` | client/src/replicate.rs:94-149 | the member loop sends the specified octets, the size bound included |
| `Replicate.Receive` | client/src/replicate.rs:202-294 | the receiver, re-encoding check and record loop included, computes the specified result |
| `Replicate.CollectRecords` | client/src/replicate.rs:266-274 | the record loop collects every byte string and refuses any other element |
| `Replicate.MessageRoundTrip` | client/src/replicate.rs:94-294 | what encodes decodes back to itself when it respects its field bounds, and otherwise to exactly one refusal: a limit for a batch, a shape for anything else; never to another message |
| `Replicate.EmitsIff` | client/src/replicate.rs:94-149 | each of the four messages is emitted exactly when its length, by what it holds, is at most 1,048,576 octets, and otherwise refused for its size; nothing else is checked |
| `Replicate.EmittedFields` | client/src/replicate.rs:94-149 | what is emitted is a map of exactly the members of that message, under their names |
| `Replicate.ReceivesIff` | client/src/replicate.rs:202-294 | for every byte string: a message is received exactly when the octets are within the bound and decode to a map that holds its members and the message is within its bounds |
| `Replicate.Refusals` | client/src/replicate.rs:202-294 | for every byte string: when it is refused for its size, its form, its type, or for a batch over the limit; everything else is malformed |
| `Replicate.EmittedAndRefused` | client/src/replicate.rs:101-148 | roots of every wrong length and batches of more than 256 records are emitted, while short, and refused by the receiver |
| `Replicate.EmptyRoot` | client/src/replicate.rs:101-148 | for example a HELLO with an empty root |
| `Replicate.DecodedIsBounded` | client/src/replicate.rs:196-294 | whatever decodes, from any input, respects the count and length bounds |
| `Replicate.ResendReproducesIffNoExtraMember` | client/src/replicate.rs:202-294 | encoding a received message again gives its octets exactly when it had no member beyond its own |
| `BlockExchange.AssertDistinct` | client/src/blockx.rs:83-98 | the growing-set loop passes exactly the lists without a repeated identifier |
| `BlockExchange.EncodeMembers` | client/src/blockx.rs:100-150 | the sender, its three refusals included, computes the specified result |
| `BlockExchange.ReadBstrArray` | client/src/blockx.rs:152-196 | count first, then shape and size of each element in turn |
| `BlockExchange.MessageRoundTrip` | client/src/blockx.rs:100-287 | what encodes decodes back to itself when it respects the receiver's bounds, and otherwise to LimitExceeded; never to another message |
| `BlockExchange.Receive` | client/src/blockx.rs:214-287 | the receiver, its array loops included, computes the specified result |
| `BlockExchange.EmitsIff` | client/src/blockx.rs:100-150 | constructor by constructor: a HELLO is emitted exactly when it promises at most 1,048,576 octets and is short, a WANT or a DONE exactly when it names no identifier twice and is short, BLOCKS exactly when they are short; each refusal has its kind, and counts and lengths of lists are none of the reasons |
| `BlockExchange.EmittedFields` | client/src/blockx.rs:105-150 | what is emitted is a map of exactly the members of that message, under their names |
| `BlockExchange.ReceivesIff` | client/src/blockx.rs:219-287 | for every byte string: a message is received exactly when the octets are within the bound and decode to a map that holds its members and the message is within its bounds |
| `BlockExchange.Refusals` | client/src/blockx.rs:219-287 | for every byte string: when it is refused for its size, its form, its type, or for a limit, which is a list with too many elements or one whose first fault is an element that is too long; everything else is malformed |
| `BlockExchange.EmittedAndRefused` | client/src/blockx.rs:100-150 | every list of more than 64 different short identifiers or blocks, and every identifier of more than 64 octets, is emitted, while the message is short, and refused by the receiver |
| `BlockExchange.SixtyFiveIdentifiers` | client/src/blockx.rs:100-104 | for example 65 identifiers of one octet |
| `BlockExchange.DecodedIsBounded` | client/src/blockx.rs:214-287 | whatever decodes, from any input, respects the count and length bounds |
| `Varint.WriteReadsBack` | client/src/cid.rs:56-91 | every 64-bit value reads back as itself with exactly its own octets consumed, whatever follows |
| `Varint.WriteInto` | client/src/cid.rs:56-69 | the writer loop appends the specified octets |
| `Varint.ReadAt` | client/src/cid.rs:71-91 | the reader of identifiers, shifting into a 64-bit accumulator, computes the specified value, position and refusal |
| `Varint.ReadField` | client/src/dagnode.rs:44-59 | the reader of protobuf messages computes the same values and refuses the same input |
| `TreeWire.VarintOctets` | client/src/cid.rs:56-69 | octet by octet: seven bits each, least significant first, the high bit on all but the last, and no more octets than the number needs |
| `TreeReaders.VarintIs` | client/src/cid.rs:71-91 | for every byte string: a varint ends at the first octet below 128, one of the first ten, with the value of those octets in 64 bits; octets that end before are truncated, ten that go on too long |
| `Base32.DecodeEncode` | client/src/cid.rs:187-231 | decoding undoes encoding on every byte string |
| `Base32.EncodeText` | client/src/cid.rs:193-211 | the loop over a wrapping 32-bit accumulator writes the five-bit groups of the bit string |
| `Base32.DecodeText` | client/src/cid.rs:214-231 | the loop over a wrapping 32-bit accumulator reads the eight-bit groups, dropping leftover bits |
| `Base32.EncodeInjective` | client/src/cid.rs:187-211 | different byte strings print differently |
| `Base32.PrintedIffNoLeftover` | client/src/cid.rs:213-231 | a decodable text is the printed one exactly when fewer than five bits are left over and all are zero: the decoder itself does not ask |
| `Base32.SpareBits` | client/src/cid.rs:204-231 | a text with bits to spare that are not zero is decoded, and is not how its octets are printed |
| `TreeReaders.Base32Is` | client/src/cid.rs:213-231 | for every text: it decodes exactly when every character is of the alphabet, to as many whole octets as five bits a character make up, bit for bit |
| `Cid.WriteBytes` | client/src/cid.rs:129-138 | the binary form |
| `Cid.ParseBytes` | client/src/cid.rs:140-171 | parsing with a moving position, every refusal included |
| `Cid.PrintText` | client/src/cid.rs:173-176 | the text form |
| `Cid.ParseText` | client/src/cid.rs:178-184 | parsing the text form |
| `Cid.BytesRoundTrip` | client/src/cid.rs:129-171 | the binary form parses back exactly when the identifier has the admitted shape |
| `Cid.TextRoundTrip` | client/src/cid.rs:173-184 | the text form parses back exactly when the identifier has the admitted shape |
| `Cid.ToBytesInjective` | client/src/cid.rs:129-138 | different identifiers have different binary forms |
| `Cid.ToTextInjective` | client/src/cid.rs:173-176 | different identifiers have different texts, so file names and seen-sets keyed by text are keyed by identifier |
| `Cid.PrintedIffShortest` | client/src/cid.rs:140-171 | an accepted binary form is the printed one exactly when it is 36 octets long: longer ones use varints longer than they need be |
| `Cid.PrintedTextIff` | client/src/cid.rs:178-184 | an accepted text is the printed one exactly when it has 59 characters and its two spare bits are zero |
| `Cid.LongSpelling` | client/src/cid.rs:56-91 | every admitted identifier is accepted in a second, longer spelling, binary and as text |
| `TreeWire.IdentifierOctets` | client/src/cid.rs:129-138 | the binary form of an admitted identifier: 01, its codec 55 or 70, 12, 20 and the digest |
| `TreeWire.TextOctets` | client/src/cid.rs:173-211 | its text, character by character: a `b`, then a letter or a digit for every five bits |
| `TreeReaders.IdentifierIff` | client/src/cid.rs:140-171 | for every byte string: it is an identifier exactly when it is the varints 1, 55 or 70, 12 and 20, and 32 octets to the end |
| `DagPb.LinkReadsBack` | client/src/publish.rs:129-137 | a written link parses to its identifier octets, its name and its size in 64 bits |
| `DagPb.NodeReadsBack` | client/src/publish.rs:139-154 | a written node, links before data, parses to its data and its links in order |
| `DagPb.DirectoryReadsBack` | client/src/publish.rs:102-110 | the directory message parses to an empty payload of directory type |
| `DagPb.FileReadsBack` | client/src/publish.rs:112-127 | the file message parses to an empty payload of file type, block sizes ignored |
| `DagPbReader.SkipField` | client/src/dagnode.rs:61-79 | stepping over an unknown field moves exactly past it or refuses |
| `DagPbReader.ParseLinkRegion` | client/src/dagnode.rs:119-144 | the link loop: last value of each field wins, names must be UTF-8 |
| `DagPbReader.ParseNodeBytes` | client/src/dagnode.rs:93-117 | the node loop: fields in any order, unknown ones skipped |
| `DagPbReader.ParseUnixfsBytes` | client/src/dagnode.rs:154-181 | the UnixFS loop: empty data is a directory, the type defaults to file |
| `TreeReaders.TokensIff` | client/src/dagnode.rs:61-79 | octets split into fields exactly when the fields stand there one after another, each by its wire type |
| `TreeReaders.LinkIff` | client/src/dagnode.rs:119-152 | for every byte string: the link read is the last of each of its three fields, every name there being UTF-8, and there is none exactly when there is no such list of fields |
| `TreeReaders.NodeIff` | client/src/dagnode.rs:93-117 | for every byte string: the node read is the last data field and a link for every link field, in order |
| `TreeReaders.UnixfsIff` | client/src/dagnode.rs:154-181 | for every byte string: the type is the last of its field, a file unless it says otherwise, the payload the last of its field; nothing at all is an empty directory |
| `Store.BlockStore.Verify` | client/src/store.rs:73-82 | comparing digests octet by octet without an early exit accepts exactly equal digests |
| `Store.BlockStore.Put` | client/src/store.rs:136-161 | a refused block changes nothing, a block already held is kept, any other is filed |
| `Store.BlockStore.Get` | client/src/store.rs:163-182 | absence, size and integrity are told apart on any directory |
| `Store.BlockStore.Remove` | client/src/store.rs:191-205 | removal takes exactly that block away |
| `Store.BlockStore.PutAll` | client/src/store.rs:207-221 | filing a list stops at the first refusal and counts what was new |
| `Store.GetIsGenuine` | client/src/store.rs:163-182 | exactly what reading an identifier gives on any directory, tampered or not: absence, a size above 1,048,576 octets, a digest that does not match, or the octets that hash to what was asked for |
| `Store.PutRefusesIff` | client/src/store.rs:136-161 | a block is refused exactly when it is too large or its digest is not its own |
| `Store.SoundIffNoReadRefused` | client/src/store.rs:163-182 | no read is ever refused exactly when every file is genuine and small enough |
| `Store.PutAllKeeps` | client/src/store.rs:207-221 | filing keeps the store sound and loses nothing; on success every block of the list is there and the count is the growth |
| `Store.FiledAreHeld` | client/src/store.rs:207-221 | without collisions, after a successful filing reading each identifier returns that block's own octets |
| `Walker.FetchNode` | client/src/dagnode.rs:243-289 | reading and classifying one node, the directory link bound included |
| `Walker.ReadLinks` | client/src/dagnode.rs:260-281 | all links decode or the first bad one refuses |
| `Walker.Assemble` | client/src/dagnode.rs:291-317 | assembly with one shared budget computes the specified result, and the identifiers it asks the store for are exactly the specified ones, in order |
| `Walker.AssembleEach` | client/src/dagnode.rs:302-312 | the loop over a file's children, which all spend from the same budget |
| `Walker.FetchPath` | client/src/dagnode.rs:319-353 | descending by names and assembling computes the specified result and asks the store for exactly the specified identifiers |
| `Walker.AssembleBounded` | client/src/dagnode.rs:291-317 | on any store, cyclic or not, a result is no longer than the larger of the two size bounds |
| `Walker.ReadPathBounded` | client/src/dagnode.rs:322-353 | the same bound for a whole path |
| `Footprint.ReadsPaidFor` | client/src/dagnode.rs:291-317 | an assembly asks the store once for every node of budget it spends |
| `Footprint.PathReadsBounded` | client/src/dagnode.rs:319-353 | reading a path asks for at most one block a step and max_depth more |
| `Footprint.AssemblyFootprint` | client/src/dagnode.rs:291-317 | an assembly depends on nothing but the blocks it asks for: stores that agree on them give the same result, the same remaining budget and the same requests |
| `Footprint.PathFootprint` | client/src/dagnode.rs:319-353 | the same for a whole path |
| `Footprint.AssembledByBudget` | client/src/dagnode.rs:291-317 | on any store a result is no longer than a block for every node of budget spent |
| `Footprint.ByteBoundIdle` | client/src/dagnode.rs:306-312 | a byte bound no less than the node budget can hold changes no result and no refusal |
| `Footprint.DefaultCeiling` | client/src/dagnode.rs:231-241 | under the default limits nothing read from any store exceeds 32 MiB, and the declared bound of 256 MiB decides nothing |
| `Walker.CollectBlocks` | client/src/dagnode.rs:381-415 | on any store the walk ends; on success the list starts with the root, has no repeats and is exactly what links reach; a refusal is that of some reached node |
| `Walker.CollectionIffReadable` | client/src/dagnode.rs:381-415 | a successful walk means every reached node reads, and fixes how many there are |
| `Walker.LinksToIff` | client/src/dagnode.rs:396-412 | a directory links to exactly the identifiers of its entries, a file to exactly its pieces, a raw leaf to nothing |
| `TreeReaders.ReadNodeIff` | client/src/dagnode.rs:243-289 | on any store: what an identifier reads as, its own octets under the raw codec, and under dag-pb a directory of exactly the links there or a file of its payload and its pieces, exactly when the octets are held, genuine and spell that |
| `TreeReaders.NodeRefusal` | client/src/dagnode.rs:243-289 | why held octets do not read: a link that is no identifier, or else a bound |
| `Assembly.NodeMeans` | client/src/dagnode.rs:243-289 | a node written by anybody, with a payload of its own, a size and the sizes of blocks, reads by its type, its links and its payload alone |
| `Assembly.AssembledIff` | client/src/dagnode.rs:291-317 | on any store: an assembly gives this content exactly when the graph unfolds into a tree of no more nodes than the budget, within the byte bound, whose payloads in order are the content |
| `Assembly.ReadsIff` | client/src/dagnode.rs:319-353 | on any store: a path reads as this content exactly when its names lead, each by the first entry of that name, to an identifier that assembles to it |
| `ImporterRun.PbLinkData` | client/src/publish.rs:129-137 | the link writer appends the specified octets |
| `ImporterRun.EncodePbNode` | client/src/publish.rs:139-154 | the node writer's loop appends every link and then the data |
| `ImporterRun.FileData` | client/src/publish.rs:112-127 | the file message writer: total first, then one size per chunk |
| `ImporterRun.MakeDirectory` | client/src/publish.rs:174-190 | the set-based duplicate test refuses exactly unnamed or repeated entries; otherwise the sorted node is built |
| `ImporterRun.BuildFile` | client/src/publish.rs:199-248 | one chunk is a raw leaf; more are raw leaves and one addressing node |
| `ImporterRun.ChunksJoin` | client/src/cid.rs:93-102 | chunks concatenate to the content, their sizes add up to its length, none is too long |
| `TreeWire.NodeIs` | client/src/publish.rs:129-154 | the octets of a node, links and data, written out with their tags and lengths |
| `TreeWire.MessagesAre` | client/src/publish.rs:102-127 | the octets of the two UnixFS messages, written out |
| `TreeWire.FileIs` | client/src/publish.rs:199-248 | a file of up to 262,144 octets is one raw block; a longer one a raw block for every piece of that length, in order, and one node with their links and sizes, octet for octet |
| `TreeWire.DirectoryIs` | client/src/publish.rs:170-190 | a directory is one node of its links in increasing order of their names, octet for octet |
| `ImporterRun.SmallFits` | client/src/publish.rs:129-137 | every link the importer makes fits its length fields |
| `Prefixes.SplitJoin` | client/src/publish.rs:272-278 | splitting a path can be done at any separator |
| `Prefixes.DescendUnder` | client/src/publish.rs:300-334 | lengthening the textual prefix by a name selects exactly the leaves that taking that first step selects |
| `Prefixes.CleanUnder` | client/src/publish.rs:269-278 | good paths have no empty, "." or ".." step below any prefix |
| `ImportSite.ReadLevel` | client/src/publish.rs:304-326 | one pass over the path map finds the files of a level and its subdirectory names in order of appearance |
| `ImportSite.BuildDirectory` | client/src/publish.rs:295-346 | the recursion over prefixes builds the specified tree and pushes exactly its blocks into the shared vector |
| `ImportSite.CheckPath` | client/src/publish.rs:269-278 | the path tests refuse exactly paths with an empty, "." or ".." part |
| `ImportSite.Run` | client/src/publish.rs:257-293 | the whole import: first bad path, last file of a path wins, blocks in order of emission, root |
| `Ordering.PlaceMembers` | client/src/publish.rs:281-288 | inserting into the ordered map replaces exactly the entry of the same key |
| `TreeShape.EntryOrigin` | client/src/publish.rs:301-340 | every link of a built directory leads to a file lying there or to the tree of a subdirectory |
| `TreeShape.EntryCount` | client/src/publish.rs:301-343 | a built directory has one link per different name |
| `TreeShape.SubtreeEntry` | client/src/publish.rs:328-340 | every subdirectory is linked to its own tree, whose blocks are among those emitted |
| `SiteRead.FindsLink` | client/src/dagnode.rs:334-338 | looking a name up in a sorted directory finds its link, whatever order the links were given in |
| `SiteRead.HeldFile` | client/src/dagnode.rs:291-317 | a file whose blocks are held assembles to its content exactly when it is within the node budget and the size bound |
| `SiteRead.HeldTree` | client/src/dagnode.rs:243-271 | a built directory that is held reads as its sorted links exactly when it has no more different names than a node may have links |
| `SiteRead.TreeReadsBack` | client/src/dagnode.rs:319-353 | reading a list of steps from a built tree returns a content exactly when the tree maps the steps to it, within the limits |
| `CompileRead.CompileThenRead` | client/src/publish.rs:257-346 | import, file in a sound store, read: for every list of steps, content and limits, the walker returns the content exactly when the site maps the steps to it and the limits allow |
| `CompileRead.SiteHolds` | client/src/publish.rs:264-289 | the ordered path map holds exactly the last content of each path |
| `CompileRead.ImportGenuine` | client/src/publish.rs:156-166 | every emitted block hashes to its own identifier |
| `CompileRead.FilingSucceedsIff` | client/src/store.rs:207-221 | filing emitted blocks fails only for size: it succeeds exactly when every block not yet held is small enough |
| `CompileRead.DefaultFileBound` | client/src/dagnode.rs:231-241 | after import and filing, a path of the site reads back under the default limits exactly when its directories are not too wide and its content is at most 31 pieces, and is refused otherwise |
| `CompileRead.BeyondLimits` | client/src/dagnode.rs:319-353 | a path of the site outside the limits does not read back at all |
| `ReadWitnesses.FlatRead` | client/src/publish.rs:264-346 | a site of one level is imported and, without collisions, filed in an empty store; its files read back exactly within the limits |
| `ReadWitnesses.ThirtyTwoPieces` | client/src/dagnode.rs:231-241 | a file of 32 pieces is imported and, without collisions, filed, refused under the default limits, and read with one more node |
| `ReadWitnesses.WideDirectory` | client/src/dagnode.rs:252-263 | a directory of 175 names is imported and, without collisions, filed, none of its files reads back under the default limits, and all do with one more link |
| `ReadWitnesses.ThirtyTwoPiecesByLength` | client/src/dagnode.rs:231-241 | the same file under a digest for which its blocks do not collide |
| `ReadWitnesses.WideDirectoryByLength` | client/src/dagnode.rs:252-263 | the same directory under a digest for which its blocks do not collide |
| `CompileRead.SplitInjective` | client/src/publish.rs:272-278 | different paths have different steps |
| `Binding.SameMapSameRoot` | client/src/publish.rs:257-293 | two lists of files with one path-to-content map are imported or refused alike, with one root |
| `Binding.OrderIndependent` | client/src/publish.rs:25-27 | files with distinct paths give the same root in any order |
| `Binding.SameRootIffSameMap` | client/src/publish.rs:174-346 | without collisions among the blocks of two imports, the roots are equal exactly when the maps are |
| `Binding.BadPathIff` | client/src/publish.rs:268-278 | a path refusal happens exactly when the map holds a bad path |
| `Importable.ImportSucceedsIff` | client/src/publish.rs:175-346 | an import succeeds exactly when every path of the map is good and no path is another path's directory |
| `Binding.FileBound` | client/src/publish.rs:206-248 | without collisions a file's identifier determines its content |
| `Binding.KindBound` | client/src/publish.rs:102-154 | without collisions a file and a directory never share an identifier |
| `Sizes.FileSize` | client/src/publish.rs:239-241 | a file's cumulative size is the size of its blocks, and no smaller than its content |
| `Sizes.TreeSize` | client/src/publish.rs:342-345 | a tree's cumulative size is the size of every block it is made of, counted as often as it is referred to |
| `Sizes.LinkSizes` | client/src/publish.rs:313-340 | every link carries the size of what it leads to |
| `Sizes.ImportSize` | client/src/publish.rs:264-293 | for distinct paths the emitted blocks add up to the root's cumulative size |
| `Sizes.StoredExceedsSource` | client/src/publish_flow.rs:175-181 | the tree takes strictly more than its contents |
| `Closure.ReachedIsHeld` | client/src/publish_flow.rs:183-190 | once the emitted blocks are held, everything the root reaches is one of them and held, under any limits |
| `Closure.EmittedIsReached` | client/src/dagnode.rs:381-415 | and conversely: when the paths of an import differ and all that its root reaches reads, the root reaches every block that was emitted |
| `Closure.CollectionIsImport` | client/src/dagnode.rs:381-415 | collecting from the root of an import gives exactly the identifiers of the blocks it emitted |
| `Closure.AllReadIff` | client/src/dagnode.rs:252-263 | all that the root reaches reads, which is when the collection succeeds, exactly when no directory of the site has more different names than a node may have links |
| `PublishFlow.PublishSite` | client/src/publish_flow.rs:132-221 | the flow computes the specified result and leaves the specified store: duplicates, checks, import, pin, sign, in that order |
| `PublishFlow.FindDuplicate` | client/src/publish_flow.rs:152-160 | the growing-set loop finds the first repeated path |
| `PublishFlow.SignedOnlyWhenHeld` | client/src/publish_flow.rs:137-221 | a record is returned only when every emitted block and everything the root reaches is in the store, which lost nothing |
| `PublishFlow.PublishedReadsBack` | client/src/publish_flow.rs:137-221 | after a publish each path reads back its own file, exactly within the reader's limits, and nothing else does |
| `PublishFlow.ReportedSizes` | client/src/publish_flow.rs:175-181 | the reported stored size is the root's cumulative size and exceeds the source size |
| `PublishFlow.StopsBefore` | client/src/publish_flow.rs:152-190 | a duplicate or a failing check stops the flow with the store untouched; only pinning and signing come after it may have changed |
| `PublishFlow.RecordPointsAtRoot` | client/src/publish_flow.rs:192-211 | the signed record carries exactly one entry, the content identifier that the walker reads the site back from |
| `PublishFlow.RecordSays` | client/src/publish_flow.rs:187-222 | the whole record, every field in the decoded octets: with no predecessor a REGISTER at position 0 with no predecessor and a term of 31,536,000 seconds, otherwise an UPDATE at the next position of the predecessor with its hash and its expiry; of the name, under the key and at the time of the request, and signed with that key over those octets |
| `Domain.StripSignatures` | client/src/domain.rs:72-89 | the loop drops exactly the two signature fields and refuses keys that are not text |
| `Domain.CoreSurvives` | client/src/domain.rs:72-94 | stripping the signatures off the decoded record and encoding gives the octets that were signed |
| `Domain.DomainsSeparate` | client/src/domain.rs:28-115 | a signing input determines its core, and is never a hashing input |
| `Preimages.SigningInputIs` | client/src/domain.rs:28-104 | for every decodable record: what is signed is the published prefix, a zero, the suite and the map of its entries without the two signatures, in literal octets |
| `Preimages.HashIs` | client/src/domain.rs:56-115 | what identifies a record: the digest of the published prefix, a zero and its octets |
| `Domain.BytesEqual` | client/src/domain.rs:117-127 | accumulating differences without an early exit decides equality |
| `Pow.RateTerm` | client/src/pow.rs:91-109 | the rate term is the number of doublings of the floor reached, up to eight; required bits stay within 4 to 18, so the cap of 20 never bites |
| `Pow.ScheduleIs` | client/src/pow.rs:61-109 | the schedule in numbers: the seven steps by label length, from ten bits to four, and one bit more each time the count of the window doubles from 1,024 on, eight at most |
| `Pow.RequiredBitsMonotone` | client/src/pow.rs:66-109 | difficulty never falls with the count and never rises with the label length |
| `Pow.WindowShared` | client/src/pow.rs:111-119 | all instants of an hour share one window of thirty days ending with the hour's start |
| `Pow.StripRecord` | client/src/pow.rs:126-153 | the preimage loop drops `sig`, cuts the nonce out of the proof, and refuses what it cannot read |
| `Pow.CheckTag` | client/src/pow.rs:189-206 | counting leading zeros without an early exit decides n <= 8*len and value < 2^(8*len-n) |
| `Pow.IncrementNonce` | client/src/pow.rs:208-217 | big-endian increment in place is plus one modulo 256^length |
| `Pow.SearchSmallest` | client/src/pow.rs:242-267 | the walk finds the smallest winning nonce and gives up only when there is none within the limit |
| `Pow.SolveNonce` | client/src/pow.rs:252-267 | the loop over an incremented array of octets performs that walk, the salt computed once |
| `SaltBinding.PreimageOfDecoded` | client/src/pow.rs:121-159 | the salt preimage recomputed from the decoded record is the builder's |
| `Preimages.SaltIs` | client/src/pow.rs:121-170 | for every decodable record: the salt is sixteen octets of the digest of the record without its signatures and without the nonce of its proof, in literal octets |
| `SaltBinding.SaltBinds` | client/src/pow.rs:121-159 | two decoded records with one salt preimage agree on every field but `sig`, and on every part of the proof but the nonce |
| `RecordRun.ReadPredecessor` | client/src/record.rs:288-347 | the field scan derives the specified facts or refusal from exact bytes |
| `RecordRun.CheckCarried` | client/src/record.rs:350-389 | the carried-entries loop applies the count, type and alias rules and repeats the entries |
| `RecordRun.MapEntries` | client/src/record.rs:391-417 | the typed-entries loops apply the count, alias, time-to-live and shape rules |
| `RecordRun.PutProof` | client/src/record.rs:479-488 | the in-place loop replaces the proof field and nothing else |
| `RecordRun.SignRecord` | client/src/record.rs:507-528 | encode, sign, attach: both signatures over one input |
| `RecordRun.FinishPowAndSign` | client/src/record.rs:462-505 | search on the skeleton, put the nonce in, then sign |
| `RecordFacts.ReadsBack` | client/src/record.rs:419-460 | an emitted record decodes to exactly the values it was drafted with, and no co-signature that was not made |
| `BuiltRecords.RegisterHolds` | client/src/record.rs:550-583 | every field of an emitted REGISTER, by name, in the octets that decode: exactly these and no other |
| `BuiltRecords.RenewHolds` | client/src/record.rs:626-665 | every field of an emitted RENEW: a year from the later of the old expiry and now, and the entries it found |
| `BuiltRecords.UpdateHolds` | client/src/record.rs:668-696 | every field of an emitted UPDATE: the entries asked for, the expiry it found |
| `BuiltRecords.TransferHolds` | client/src/record.rs:699-730 | every field of an emitted TRANSFER: the recipient's key, the entries and expiry it found, two signatures over one input, the owner's and the recipient's |
| `BuiltRecords.EndHolds` | client/src/record.rs:733-781 | every field of an emitted RELINQUISH, which ends at once, and of a REVOKE, which does not; both without entries |
| `BuiltRecords.EntriesFieldIff` | client/src/record.rs:174-246 | which typed entries are accepted, by their lengths, characters and times to live in numbers, what each becomes, and which refusal the others get |
| `BuiltRecords.RegisterIff` | client/src/record.rs:550-583 | exactly when a registration gets as far as being signed, and a true reason for every other |
| `BuiltRecords.SuccessorIff` | client/src/record.rs:537-781 | exactly when each of the five successors of decoded bytes gets as far as being signed, and a true reason for every other |
| `RecordFacts.FactsReadBack` | client/src/record.rs:287-348 | the facts a successor derives from an emitted record are the drafted ones |
| `VerifySound.PredecessorIff` | client/src/record.rs:287-348 | for every byte string: the facts a builder reads are those of any decoded map that has the fields, and it reads none exactly when there are no such |
| `RecordFacts.SignaturesCover` | client/src/record.rs:463-528 | strip, re-encode and prefix the decoded record: the result is what the signature, and the co-signature if any, was made over |
| `ProofBinding.ProofHolds` | client/src/record.rs:463-505 | the nonce found on the skeleton satisfies the tag test against the salt recomputed from the final decoded record |
| `Chain.ChainInvariant` | client/src/record.rs:544-781 | every record of every chain: seq is its position, prevHash hashes its predecessor, 300 seconds lie between, the term is at most 36,720,000 seconds, only RELINQUISH lowers the expiry, nothing follows REVOKE, a TRANSFER settles first, only a RENEW within grace follows RELINQUISH |
| `Chain.ExpiryGrows` | client/src/record.rs:626-781 | between any two records of a chain without a RELINQUISH in between the expiry does not fall, and time advances 300 seconds per record |
| `Chain.ChainSpacing` | client/src/record.rs:537-548 | records are 300 seconds apart, so positions are bounded by 64-bit time |
| `Chain.ChainCovered` | client/src/record.rs:463-528 | signature coverage along every chain, for all six operations |
| `Chain.ChainOwner` | client/src/record.rs:550-781 | every record of a chain names its step's owner, label and domain; only a TRANSFER names a key other than the signer's, and that key has co-signed |
| `Chain.FirstPaidFor` | client/src/record.rs:550-583 | every emitted REGISTER carries a proof of at least the required difficulty that holds against its own salt |
| `Chain.RenewalPaidFor` | client/src/record.rs:626-665 | and so does every emitted RENEW |
| `Chain.Frozen` | client/src/record.rs:585-620 | on any predecessor: nothing after REVOKE, nothing before a TRANSFER settles, only RENEW after expiry, nothing after grace |
| `Chain.RenewableIff` | client/src/record.rs:592-647 | no dead ends: from a reachable state some instant passes every time check of a renewal exactly when the name is not revoked and the new expiry fits 64 bits |
| `Chain.EntriesSurvive` | client/src/record.rs:648-663 | RENEW and TRANSFER repeat the predecessor's `records` field value for value and octet for octet, from arbitrary bytes; only an absent field becomes an empty one |
| `Chain.ChainEntries` | client/src/record.rs:626-781 | along every chain the entries change only at UPDATE, RELINQUISH and REVOKE, and are empty after the last two |
| `Chain.NextInTime` | client/src/record.rs:592-647 | what the time checks of a successful successor amount to |
| `Encodable.FirstEncodes` | client/src/record.rs:90-95 | a registration is never refused for its encoding or its salt |
| `Encodable.NextEncodes` | client/src/record.rs:90-95 | no successor built on decoded bytes is refused for its encoding or its salt: the errors kept for that are unreachable |
| `Renewal.TypedEntriesCarry` | client/src/record.rs:350-418 | every entry list a registration or an update accepts comes back from the wire as one the carried entries check accepts unchanged |
| `Renewal.ChainCarries` | client/src/record.rs:350-389 | the entries of every record of every chain pass the carried entries check |
| `Renewal.RenewalRefusals` | client/src/record.rs:626-665 | from every record of every chain, once the time checks pass, a renewal succeeds or is refused only for the name, an exhausted search or by the signer; never for its entries, the sequence number, an overflow or the encoding |
| `RecordLimits.EmittedLength` | client/src/record.rs:420-528 | every emitted record is exactly as long as its name, domain, numbers, entries and proof add up to |
| `RecordLimits.RegisterSize` | client/src/record.rs:550-590 | the length of a registration, by what was asked for |
| `RecordLimits.SuccessorSize` | client/src/record.rs:626-781 | the length of a successor, by what was asked for and its predecessor's facts |
| `RecordLimits.EndingFits` | client/src/record.rs:733-781 | records that end a name are within the framing ceiling |
| `RecordLimits.OneNameIff` | client/src/record.rs:592-620 | a chain carries one name and domain exactly when every step was asked for them: the builders do not compare |
| `RecordLimits.SeqAboveIff` | client/src/record.rs:58-60 | a successor is emitted above the largest sequence number exactly when its predecessor is at or above it |
| `RecordWitnesses.TwoNames` | client/src/record.rs:592-620 | a chain that registers one name and revokes another |
| `RecordWitnesses.BeyondLastSeq` | client/src/record.rs:58-60 | predecessor octets at the largest sequence number, and the successor emitted one above |
| `RecordWitnesses.TooManyNotes` | client/src/record.rs:178-220 | a registration of n longest notes is emitted for every n up to 32 and exceeds the framing ceiling exactly from 14 on |
| `Verify.CheckEntries` | client/src/verify.rs:339-479 | the loop over the entries, counting aliases, computes the specified refusal |
| `VerifySound.ParsesIff` | client/src/verify.rs:268-576 | for every value: parsing gives a record exactly when each field says that, and is a thing a record may say, written out field by field in numbers |
| `VerifySound.AcceptsIff` | client/src/verify.rs:808-1136 | for every byte string, whatever is known and whatever the time: accepted exactly when it is short, decodes and says what a record may say, and is a first record for a free name, in time, for a year, proved and signed by its own key; or the next of its chain, by position, hash and 300 seconds, while the name answers, signed by whoever speaks for it over the octets without the signatures, with the expiry, entries, proof and countersignature that its operation demands |
| `VerifyRefusals.RefusalsAreTrue` | client/src/verify.rs:808-1136 | every refusal of a record that parses names a defect the record has; for a registration, the first in order |
| `VerifyRefusals.StructureRefused` | client/src/verify.rs:268-576 | what does not parse is refused for the first of its defects, in the order of the specification |
| `VerifySound.ViewIff` | client/src/verify.rs:95-163 | what a verifier reads of a predecessor, and that it reads nothing exactly when a field is missing or of the wrong kind |
| `VerifyChain.TypedEntriesIn` | client/src/verify.rs:339-479 | entries the builder accepts pass the verifier's structure checks exactly when their aliases are admissible targets other than the name itself |
| `VerifyChain.FirstVerdict` | client/src/verify.rs:808-883 | the exact verdict on a registration, by what was asked for: accepted unless too long, its key unusable, an alias not admissible, the name held, the difficulty risen or the clock out of bounds, and refused for the first of these |
| `VerifyChain.NextVerdict` | client/src/verify.rs:885-1052 | the exact verdict on every successor of every chain against the record before it, under any clock and difficulty; chain discipline, terms, proofs and signatures never refuse it, and names are not compared |
| `VerifyChain.AcceptedIff` | client/src/verify.rs:808-1052 | judged the moment it is made, a record is accepted exactly when it is short enough, its key usable, its number within 32 bits, its aliases admissible, its claim sufficient, its signer the owner and a transfer's recipient someone else |
| `VerifyChain.LivenessParts` | client/src/verify.rs:1069-1088 | builder and verifier agree on what a predecessor answers at an instant, except for two families that only the verifier answers: any operation while the end of grace does not fit 64 bits, and a renewal of a revoked name by a verifier that is not told of the revocation |
| `VerifyChain.SettlingParts` | client/src/verify.rs:934-946 | and on settling transfers except for a further TRANSFER before the settlement, when its instant fits 64 bits |
| `PartingWitnesses.UpdateAtTheEnd` | client/src/record.rs:592-620 | an update near the end of 64-bit time that the builder refuses for the overflow, and that made by hand is accepted |
| `PartingWitnesses.RenewalOfRevoked` | client/src/verify.rs:1072-1088 | a renewal after a revocation that the builder refuses, and that made by hand, proof included, is accepted |
| `PartingWitnesses.TransferWhileSettling` | client/src/verify.rs:934-946 | a transfer back while a transfer settles that the builder refuses, and that made by hand is accepted |
| `VerifyWitnesses.TooLongRecord` | client/src/verify.rs:811-816 | a registration of fourteen longest notes is emitted, and refused for its size |
| `VerifyWitnesses.UnusableKey` | client/src/verify.rs:321-324 | a registration under an unusable key is emitted, and refused |
| `VerifyWitnesses.SelfAlias` | client/src/verify.rs:447-461 | a name that is its own alias is registered, and refused |
| `VerifyWitnesses.BeyondLastSeqRefused` | client/src/verify.rs:327-331 | the successor of the largest sequence number is emitted, and refused for its number, whatever is known and whatever the time |
| `VerifyWitnesses.Stranger` | client/src/verify.rs:947-955 | a revocation signed by someone other than the owner is emitted, and refused |
| `VerifyWitnesses.TransferToSelf` | client/src/verify.rs:1003-1006 | a transfer to the owner itself is emitted, and refused |
| `Equivocation.HalfHasKey` | client/src/verify.rs:679-704 | a report half is exactly what has an equivocation key |
| `Equivocation.EvidenceIff` | client/src/verify.rs:679-734 | for every two byte strings: they are evidence exactly when they decode to two records of one owner, name, domain and position with different hashes, each signed by that owner over its own octets without the signatures |
| `Equivocation.KeyIs` | client/src/verify.rs:736-764 | the key of octets that decode to a record: the owner in hex, the domain, the name and the position in decimal, with a space between |
| `Equivocation.EvidenceIsOneFact` | client/src/verify.rs:679-734 | evidence is symmetric, never of a record with itself, and both halves have one key |
| `Equivocation.KeyIsFact` | client/src/verify.rs:736-764 | two records have one key exactly when owner, domain, name and position are the same |
| `Equivocation.ForksAreEvidence` | client/src/verify.rs:679-734 | two records that one owner put at one position of one name, on whatever chains, are evidence exactly when their hashes differ |
| `Equivocation.ForkIsRecorded` | client/src/evidence.rs:331-368 | such a fork, detected, is recorded unless the ledger knows the fact or has spent its budget for detections |
| `Evidence.EvidenceLedger.Count` | client/src/evidence.rs:304-310 | the number of reports charged to one origin |
| `Evidence.EvidenceLedger.Settled` | client/src/evidence.rs:294-302 | true exactly when the fact is recorded under either origin or the budget is spent |
| `Evidence.EvidenceLedger.AdmitReport` | client/src/evidence.rs:325-368 | the one door: the new entries, counters, outcome and file are those specified, in the order verify, identify, deduplicate, charge |
| `Evidence.EvidenceLedger.Record` | client/src/evidence.rs:312-323 | the same, with a line appended exactly when the report is recorded |
| `Evidence.EvidenceLedger.Write` | client/src/evidence.rs:390-404 | the rewritten file is one line per entry, in order |
| `Evidence.EvidenceLedger.Load` | client/src/evidence.rs:251-269 | the replay loop, blank and unreadable lines included |
| `Evidence.OpenWithLimits` | client/src/evidence.rs:229-277 | opening clamps the budgets, replays the file and rewrites it when anything did not verify |
| `EvidenceRuns.RenderParses` | client/src/evidence.rs:407-429 | a rendered entry reads back as itself |
| `EvidenceRuns.RenderedLineIs` | client/src/evidence.rs:407-419 | the line of an entry, character for character |
| `EvidenceReaders.LineIff` | client/src/evidence.rs:421-438 | for every line: it is a report exactly when each of its four fields stands there, the first of its name, the origin one of two words and the halves hex |
| `EvidenceText.SkipPair` | client/src/evidence.rs:431-438 | the field finder is not misled by another field, whatever quote-free value it carries |
| `EvidenceText.UnhexHex` | client/src/evidence.rs:440-453 | hex reads back |
| `EvidenceReaders.UnhexIff` | client/src/evidence.rs:440-453 | for every text: it is hex exactly when it is two digits of either case for every octet |
| `EvidenceText.HexOctets` | client/src/evidence.rs:409 | hex digit by digit |
| `EvidenceReaders.TrimIs` | client/src/evidence.rs:250-253 | trimming takes white space of Unicode off both ends, and all of it |
| `EvidenceText.LinesAppend` | client/src/evidence.rs:374-388 | a line written at the end of a file joins whatever stood after its last newline |
| `EvidenceRuns.AdmitKeeps` | client/src/evidence.rs:325-368 | every report keeps facts distinct, entries verified and both budgets, and entries only grow |
| `EvidenceRuns.AdmitIs` | client/src/evidence.rs:331-368 | exactly what becomes of every report, of either origin: unverified, malformed, duplicate, full at 1,024 or 256 or at the tighter budget asked for, or recorded; with the entries and the counters it leaves |
| `EvidenceRuns.RunKeeps` | client/src/evidence.rs:316-368 | the same over every run of reports |
| `EvidenceRuns.DetectionHasRoom` | client/src/evidence.rs:27-39 | from any ledger, after any run: a verified detection is a duplicate if its fact is known, full exactly when the budget for detections is spent, recorded otherwise; the run has spent no more of that budget than its detections alone would have and knows every fact they would have put there, so received reports never cost a detection its room |
| `EvidenceRuns.RunStaysAhead` | client/src/evidence.rs:331-368 | non-interference: a run knows every fact that its detections alone would have recorded, and charges no more detections |
| `EvidenceRuns.DetectionsCharged` | client/src/evidence.rs:331-368 | no more detections are charged than were reported |
| `EvidenceReaders.ReplayIsRun` | client/src/evidence.rs:251-269 | a file is no privileged source: replaying its lines is the run of the reports they spell, with the same entries and refusals, every other written line counted; it stops exactly at evidence without a key |
| `EvidenceReaders.OpenIs` | client/src/evidence.rs:235-277 | exactly what opening gives for every file, and when the file is written back |
| `EvidenceRuns.OpenRepairs` | client/src/evidence.rs:235-277 | opening any file is a repair: what it leaves opens again to the same entries, refusing and rewriting nothing |
| `EvidenceRuns.RecordReproducesIff` | client/src/evidence.rs:370-388 | a report recorded in a ledger its file reproduces is reproduced too exactly when the file was terminated |
| `EvidenceRuns.ReopenIff` | client/src/evidence.rs:235-388 | open, any reports, open again: the entries are reproduced exactly when nothing was recorded or the file was terminated; otherwise exactly the first recorded report is gone |
| `EvidenceRuns.UnterminatedLosesReport` | client/src/evidence.rs:370-388 | one genuine line without a newline: the next recorded report is not there after reopening |

## Left out

- Release-build wrap-around: sums that overflow 64 bits are modelled as the panic of checked arithmetic (`BuildError.Overflow`, `Verdict.Panic`; `None` for the rate window); the release profile would wrap.
- Lengths of 2^64 and more: `CborError.CapacityOverflow` exists only in the model, to keep functions on unbounded sequences total; content, paths and text of an import are below 2^63 octets, as any Rust allocation is.
- `pos + len` near 2^64 in the protobuf readers: modelled as a refusal, as the release build behaves; a debug build panics.
- Cumulative sizes are exact integers in the model and reach the wire modulo 2^64; `usize` sums are not bounded in memory.
- Error texts: refusals carry their kind and, where the source does, a number or a path, not the explanation.
- File system detail of the store and the ledger: the directory is a map from identifier to octets, the ledger file an optional octet string; modes, temporary files, renames and input/output errors other than text that is not UTF-8 are not modelled.
- `BlockStore::has`, `len`, `is_empty`, `open` and the sweep of temporaries: single look-ups and directory listings.
- `read_dir_at`, `collect_files` and the rest of `dagnode.rs` after line 415: the same descent with other results.
- `storage_overhead`: one division of the two sizes whose relation is proved.
- The name grammar (`names.rs`, the generated namespace) and `alias`: one abstract predicate, used before any builder does work.
- The authoring checks (`doctor.rs`, `doctor_fix.rs`): one predicate that says whether any finding is an error; the findings themselves are not carried in the refusal.
- Cryptography (`identity.rs`, `secrets.rs`, the hash and Argon2id libraries): function parameters; nothing is claimed about their strength.
- `peek`, `fully_released`, `lifecycle_state` of `verify.rs` and the texts of its refusals: the verdict carries the code, and whether a name is fully released is the caller's word.
- The list of small-order keys and the signature check itself: predicates on keys, inputs and signatures.
- Sockets, serving, control, pins: input/output and counting.
