/** Registry record construction (client/src/record.rs): reading a predecessor, the entries field, the
    skeleton, proof and signatures, and the six builders. Hashes, Argon2id, signing and the name grammar
    are parameters. */
module Record {
  import opened Base
  import opened Utf8
  import opened Cbor
  import opened CborMembers
  import opened Domain
  import opened Pow
  import Cid

  const SUPPORTED_VERSION: u64 := 1
  const LAUNCH_SUITE: u64 := 1
  const LAUNCH_SUITE_BYTE: byte := 1
  const TERM_SECONDS: nat := 31_536_000
  const RENEWAL_WINDOW_SECONDS: nat := 5_184_000
  const MIN_INTERVAL_SECONDS: nat := 300
  const GRACE_SECONDS: nat := 2_592_000
  const SETTLEMENT_SECONDS: nat := 1_209_600
  const MAX_SEQ: u64 := 0xffff_ffff
  const MAX_RECORD_ENTRIES: nat := 32
  const MAX_ENTRY_VALUE_BYTES: nat := 512
  const MIN_TTL: u64 := 60
  const MAX_TTL: u64 := 86_400
  const DEFAULT_TTL: u64 := 3_600

  type Signature = s: Octets | |s| == 64 witness seq(64, _ => 0)

  /** A key pair: what it shows and how it signs. */
  datatype Identity = Identity(publicKey: Digest32, sign: Octets -> Option<Signature>)

  /** The primitives a builder is handed. */
  datatype Primitives = Primitives(sha: Cid.Hash, blake: Blake, argon: Argon, nameAllowed: (Str, Str) -> bool)

  /** `Overflow` stands for the panic of checked 64-bit arithmetic. */
  datatype BuildError =
    | EncodeFailed(error: CborError)
    | SaltFailed(error: CborError)
    | PowExhausted
    | InvalidName
    | BadEntry
    | TooManyEntries(found: nat)
    | TooSoon
    | OutsideRenewalWindow
    | NotRenewable
    | NotLive
    | Unsettled
    | Settling(settlesAt: u64)
    | BadPredecessor
    | Signing
    | Overflow

  datatype Op = Register | Renew | Update | Transfer | Relinquish | Revoke

  function OpText(op: Op): Name {
    match op
    case Register => "REGISTER"
    case Renew => "RENEW"
    case Update => "UPDATE"
    case Transfer => "TRANSFER"
    case Relinquish => "RELINQUISH"
    case Revoke => "REVOKE"
  }

  function ParseOp(text: Octets): Option<Op> {
    if text == Lit(OpText(Register)) then Some(Register)
    else if text == Lit(OpText(Renew)) then Some(Renew)
    else if text == Lit(OpText(Update)) then Some(Update)
    else if text == Lit(OpText(Transfer)) then Some(Transfer)
    else if text == Lit(OpText(Relinquish)) then Some(Relinquish)
    else if text == Lit(OpText(Revoke)) then Some(Revoke)
    else None
  }

  // ----- entries -----

  datatype EntryValue =
    | Peer(key: Digest32)
    | Ipns(text: Str)
    | ContentId(bytes: Octets)
    | Txt(text: Str)
    | Alias(name: Str, tld: Str)

  datatype RecordEntry = RecordEntry(value: EntryValue, ttl: Option<u64>)

  const TYPE: Name := "type"
  const VALUE: Name := "value"
  const TTL: Name := "ttl"
  const ALIAS: Name := "alias"

  function AliasText(name: Str, tld: Str): Str {
    AsciiValid(['.' as int]);
    ConcatValid(name, ['.' as int]);
    ConcatValid(name + ['.' as int], tld);
    name + ['.' as int] + tld
  }

  function TypedValue(v: EntryValue): Result<(Name, Value), BuildError> {
    match v
    case Peer(key) => Ok(("peer", Bytes(key)))
    case Ipns(text) =>
      if !(1 <= CharCount(text) <= 128) || |text| > MAX_ENTRY_VALUE_BYTES then Err(BadEntry) else Ok(("ipns",
          Text(text)))
    case ContentId(bytes) => if !(1 <= |bytes| <= 64) then Err(BadEntry) else Ok(("cid", Bytes(bytes)))
    case Txt(text) =>
      if !(1 <= |text| <= 255) || exists i :: 0 <= i < |text| && text[i] < 0x20 then Err(BadEntry)
      else Ok(("txt", Text(text)))
    case Alias(name, tld) => Ok((ALIAS, Text(AliasText(name, tld))))
  }

  function EntryMap(e: RecordEntry): Result<Value, BuildError> {
    if e.ttl.Some? && !(MIN_TTL <= e.ttl.value <= MAX_TTL) then Err(BadEntry)
    else
      match TypedValue(e.value)
      case Err(error) => Err(error)
      case Ok((kind, value)) =>
        var ttl := if e.ttl.Some? then e.ttl.value else DEFAULT_TTL;
        Ok(Map(Members([TYPE, VALUE, TTL], [Text(Lit(kind)), value, UInt(ttl)])))
  }

  function AliasCount(list: seq<RecordEntry>): nat
  {
    if |list| == 0 then 0
    else AliasCount(list[..|list| - 1]) + if list[|list| - 1].value.Alias? then 1 else 0
  }

  function EntryMaps(list: seq<RecordEntry>): Result<seq<Value>, BuildError>
  {
    if |list| == 0 then Ok([])
    else
      var out :- EntryMaps(list[..|list| - 1]);
      var value :- EntryMap(list[|list| - 1]);
      Ok(out + [value])
  }

  /** At most 32 entries, and an alias only alone. */
  function AliasRule(aliases: nat, length: nat): Outcome<BuildError> {
    if aliases > 1 then Fail(BadEntry)
    else if aliases == 1 && length > 1 then Fail(BadEntry)
    else Pass
  }

  function EntriesField(list: seq<RecordEntry>): Result<Value, BuildError> {
    if |list| > MAX_RECORD_ENTRIES then Err(TooManyEntries(|list|))
    else
      :- AliasRule(AliasCount(list), |list|);
      var out :- EntryMaps(list);
      Ok(Array(out))
  }

  /** The last `type` field that is text. */
  function Kind(fields: seq<Entry>): Option<Str>
  {
    if |fields| == 0 then None
    else
      var last := fields[|fields| - 1];
      if HasName(last, TYPE) && last.value.Text? then Some(last.value.text) else Kind(fields[..|fields| - 1])
  }

  /** How many carried entries are aliases; every entry is a map that names its type. */
  function CarriedAliases(list: seq<Value>): Result<nat, BuildError>
  {
    if |list| == 0 then Ok(0)
    else
      var n :- CarriedAliases(list[..|list| - 1]);
      var last := list[|list| - 1];
      if !last.Map? then Err(BadEntry)
      else
        match Kind(last.entries)
        case None => Err(BadEntry)
        case Some(kind) => Ok(n + if kind == Lit(ALIAS) then 1 else 0)
  }

  function CarriedField(list: seq<Value>): Result<Value, BuildError> {
    if |list| > MAX_RECORD_ENTRIES then Err(TooManyEntries(|list|))
    else
      var aliases :- CarriedAliases(list);
      :- AliasRule(aliases, |list|);
      Ok(Array(list))
  }

  // ----- the predecessor -----

  datatype Predecessor = Predecessor(seqNo: u64, op: Op, notBefore: u64, notAfter: u64, hash: Digest32, revoked: bool,
                                     entries: seq<Value>)

  const VERSION: Name := "version"
  const SUITE: Name := "suite"
  const OP: Name := "op"
  const NAME: Name := "name"
  const TLD: Name := "tld"
  const OWNER_KEY: Name := "ownerKey"
  const SEQ: Name := "seq"
  const NOT_BEFORE: Name := "notBefore"
  const NOT_AFTER: Name := "notAfter"
  const RECORDS: Name := "records"
  const PREV_HASH: Name := "prevHash"

  function AsNumber(field: Option<Value>): Option<u64> {
    match field
    case Some(UInt(n)) => Some(n)
    case _ => None
  }

  function AsText(field: Option<Value>): Option<Str> {
    match field
    case Some(Text(t)) => Some(t)
    case _ => None
  }

  /** The carried entries: none when the field is absent, a refusal when it is no array. */
  function AsEntries(field: Option<Value>): Option<seq<Value>> {
    match field
    case None => Some([])
    case Some(Array(items)) => Some(items)
    case _ => None
  }

  function PredecessorFrom(hash: Digest32, fields: Fields): Result<Predecessor, BuildError> {
    match (AsText(Get(fields, OP)), AsNumber(Get(fields, SEQ)), AsNumber(Get(fields, NOT_BEFORE)),
           AsNumber(Get(fields, NOT_AFTER)), AsEntries(Get(fields, RECORDS)))
    case (Some(text), Some(seqNo), Some(notBefore), Some(notAfter), Some(entries)) =>
      (match ParseOp(text)
       case None => Err(BadPredecessor)
       case Some(op) => Ok(Predecessor(seqNo, op, notBefore, notAfter, hash, text == Lit(OpText(Revoke)), entries)))
    case _ => Err(BadPredecessor)
  }

  /** What a successor needs to know of exact record bytes. */
  function FromBytes(blake: Blake, bytes: Octets): Result<Predecessor, BuildError> {
    match Decode(bytes)
    case Ok(Map(entries)) => PredecessorFrom(RecordHash(blake, bytes), FieldMap(entries))
    case _ => Err(BadPredecessor)
  }

  // ----- the skeleton -----

  datatype Draft = Draft(op: Op, name: Str, tld: Str, ownerKey: Digest32, seqNo: u64, notBefore: u64, notAfter: u64,
                         records: Value, proof: Value, prevHash: Digest32)

  const RECORD_NAMES: seq<Name> :=
    [VERSION, SUITE, OP, NAME, TLD, OWNER_KEY, SEQ, NOT_BEFORE, NOT_AFTER, RECORDS, POW_PROOF, PREV_HASH]

  function DraftValues(d: Draft): (r: seq<Value>)
    ensures |r| == |RECORD_NAMES|
  {
    [UInt(SUPPORTED_VERSION), UInt(LAUNCH_SUITE), Text(Lit(OpText(d.op))), Text(d.name), Text(d.tld), Bytes(d.ownerKey),
     UInt(d.seqNo), UInt(d.notBefore), UInt(d.notAfter), d.records, d.proof, Bytes(d.prevHash)]
  }

  function Skeleton(d: Draft): seq<Entry> {
    Members(RECORD_NAMES, DraftValues(d))
  }

  const ALG: Name := "alg"
  const BITS: Name := "bits"

  function AlgorithmText(): Str {
    Lit(POW_ALGORITHM)
  }

  function Proof(bits: u32, nonce: Nonce): seq<Entry> {
    Members([ALG, BITS, NONCE], [Text(AlgorithmText()), UInt(bits), Bytes(nonce)])
  }

  const ZERO_NONCE: Nonce := seq(POW_NONCE_LENGTH, _ => 0)
  const ZERO_HASH: Digest32 := seq(RECORD_HASH_LENGTH, _ => 0)

  // ----- proof and signatures -----

  function WithProof(record: seq<Entry>, proof: Value): (r: seq<Entry>)
    ensures |r| == |record|
  {
    seq(|record|, i requires 0 <= i < |record| =>
                    if HasName(record[i], POW_PROOF) then Entry(record[i].key, proof) else record[i])
  }

  function EncodeRecord(record: seq<Entry>): Result<Octets, BuildError> {
    match Encode(Map(record))
    case Err(e) => Err(EncodeFailed(e))
    case Ok(bytes) => Ok(bytes)
  }

  /** The signed map: both signatures are over the one input. */
  function Signed(record: seq<Entry>, signature: Signature, coSignature: Option<Signature>): seq<Entry> {
    record + [Member(SIG, Bytes(signature))]
    + if coSignature.Some? then [Member(CO_SIG, Bytes(coSignature.value))] else []
  }

  function Sign(record: seq<Entry>, signer: Identity, coSigner: Option<Identity>): Result<Octets, BuildError> {
    var core :- EncodeRecord(record);
    var input := SigningInput(core, LAUNCH_SUITE_BYTE);
    match signer.sign(input)
    case None => Err(Signing)
    case Some(signature) =>
      match coSigner
      case None => EncodeRecord(Signed(record, signature, None))
      case Some(co) =>
        match co.sign(input)
        case None => Err(Signing)
        case Some(coSignature) => EncodeRecord(Signed(record, signature, Some(coSignature)))
  }

  function SolveRefusal(e: SolveError): BuildError {
    match e
    case Exhausted => PowExhausted
    case SaltRefused(error) => SaltFailed(error)
  }

  /** Search on the skeleton, put the nonce in, then sign. */
  function ProveAndSign(p: Primitives, record: seq<Entry>, bits: u32, signer: Identity, coSigner: Option<Identity>,
                        limit: u64)
    : Result<Octets, BuildError>
  {
    match Solve(p.sha, p.argon, record, bits, limit)
    case Err(e) => Err(SolveRefusal(e))
    case Ok(nonce) => Sign(WithProof(record, Map(Proof(bits, nonce))), signer, coSigner)
  }

  // ----- what a successor must respect -----

  function Saturating(n: nat): u64 {
    if n < U64_LIMIT then n else U64_LIMIT - 1
  }

  function GapCheck(prev: Predecessor, now: u64): Outcome<BuildError> {
    if now < Saturating(prev.notBefore + MIN_INTERVAL_SECONDS) then Fail(TooSoon) else Pass
  }

  function SettlingCheck(prev: Predecessor, now: u64): Outcome<BuildError> {
    if !prev.op.Transfer? then Pass
    else if prev.notBefore + SETTLEMENT_SECONDS >= U64_LIMIT then Fail(Overflow)
    else if now < prev.notBefore + SETTLEMENT_SECONDS then Fail(Settling(prev.notBefore + SETTLEMENT_SECONDS))
    else Pass
  }

  function LivenessCheck(prev: Predecessor, now: u64, allowGrace: bool): Outcome<BuildError> {
    if prev.revoked then Fail(NotRenewable)
    else if now < prev.notBefore then Fail(NotLive)
    else if prev.notAfter + GRACE_SECONDS >= U64_LIMIT then Fail(Overflow)
    else if allowGrace then
      if now < prev.notAfter + GRACE_SECONDS then Pass else Fail(NotRenewable)
    else
      if now < prev.notAfter then Pass else Fail(NotLive)
  }

  function Preamble(prev: Predecessor, now: u64, allowGrace: bool): Outcome<BuildError> {
    match SettlingCheck(prev, now)
    case Fail(e) => Fail(e)
    case Pass =>
      match GapCheck(prev, now)
      case Fail(e) => Fail(e)
      case Pass => LivenessCheck(prev, now, allowGrace)
  }

  // ----- the six builders -----

  function BuildRegister(p: Primitives, identity: Identity, name: Str, tld: Str, now: u64, entries: seq<RecordEntry>,
                         windowCount: u64, bitsOverride: Option<u32>, limit: u64): Result<Octets, BuildError>
  {
    if !p.nameAllowed(name, tld) then Err(InvalidName)
    else
      var required := RequiredBits(CharCount(name), windowCount);
      var bits: u32 := if bitsOverride.Some? then bitsOverride.value else required;
      if bits < required then Err(BadEntry)
      else if now + TERM_SECONDS >= U64_LIMIT then Err(Overflow)
      else
        var records :- EntriesField(entries);
        var draft := Draft(Register, name, tld, identity.publicKey, 0, now, now + TERM_SECONDS, records,
                           Map(Proof(bits, ZERO_NONCE)), ZERO_HASH);
        ProveAndSign(p, Skeleton(draft), bits, identity, None, limit)
  }

  /** The checks of a renewal that read the clock. */
  function RenewalCheck(prev: Predecessor, now: u64): Outcome<BuildError> {
    match Preamble(prev, now, true)
    case Fail(e) => Fail(e)
    case Pass =>
      if now < Max(prev.notAfter - RENEWAL_WINDOW_SECONDS, 0) then Fail(OutsideRenewalWindow)
      else if Max(prev.notAfter, now) + TERM_SECONDS >= U64_LIMIT then Fail(Overflow)
      else Pass
  }

  function BuildRenew(p: Primitives, identity: Identity, prev: Predecessor, name: Str, tld: Str, now: u64,
                      windowCount: u64, limit: u64): Result<Octets, BuildError>
  {
    if !p.nameAllowed(name, tld) then Err(InvalidName)
    else
      :- RenewalCheck(prev, now);
      var bits: u32 := RequiredBits(CharCount(name), windowCount);
      if prev.seqNo + 1 >= U64_LIMIT then Err(Overflow)
      else
        var records :- CarriedField(prev.entries);
        var draft := Draft(Renew, name, tld, identity.publicKey, prev.seqNo + 1, now,
                           Max(prev.notAfter, now) + TERM_SECONDS, records, Map(Proof(bits, ZERO_NONCE)), prev.hash);
        ProveAndSign(p, Skeleton(draft), bits, identity, None, limit)
  }

  function BuildUpdate(p: Primitives, identity: Identity, prev: Predecessor, name: Str, tld: Str, now: u64,
                       entries: seq<RecordEntry>): Result<Octets, BuildError>
  {
    if !p.nameAllowed(name, tld) then Err(InvalidName)
    else
      :- Preamble(prev, now, false);
      if prev.seqNo + 1 >= U64_LIMIT then Err(Overflow)
      else
        var records :- EntriesField(entries);
        var draft := Draft(Update, name, tld, identity.publicKey, prev.seqNo + 1, now, prev.notAfter, records, Null,
                           prev.hash);
        Sign(Skeleton(draft), identity, None)
  }

  function BuildTransfer(p: Primitives, transferor: Identity, recipient: Identity, prev: Predecessor, name: Str,
                         tld: Str, now: u64): Result<Octets, BuildError>
  {
    if !p.nameAllowed(name, tld) then Err(InvalidName)
    else
      :- Preamble(prev, now, false);
      if prev.notAfter - now < SETTLEMENT_SECONDS then Err(Unsettled)
      else if prev.seqNo + 1 >= U64_LIMIT then Err(Overflow)
      else
        var records :- CarriedField(prev.entries);
        var draft := Draft(Transfer, name, tld, recipient.publicKey, prev.seqNo + 1, now, prev.notAfter, records, Null,
                           prev.hash);
        Sign(Skeleton(draft), transferor, Some(recipient))
  }

  function BuildRelinquish(p: Primitives, identity: Identity, prev: Predecessor, name: Str, tld: Str, now: u64)
    : Result<Octets, BuildError>
  {
    if !p.nameAllowed(name, tld) then Err(InvalidName)
    else
      :- Preamble(prev, now, false);
      if prev.seqNo + 1 >= U64_LIMIT then Err(Overflow)
      else
        var draft := Draft(Relinquish, name, tld, identity.publicKey, prev.seqNo + 1, now, now, Array([]), Null,
                           prev.hash);
        Sign(Skeleton(draft), identity, None)
  }

  function BuildRevoke(p: Primitives, identity: Identity, prev: Predecessor, name: Str, tld: Str, now: u64)
    : Result<Octets, BuildError>
  {
    if !p.nameAllowed(name, tld) then Err(InvalidName)
    else
      :- Preamble(prev, now, false);
      if prev.seqNo + 1 >= U64_LIMIT then Err(Overflow)
      else
        var draft := Draft(Revoke, name, tld, identity.publicKey, prev.seqNo + 1, now, prev.notAfter, Array([]), Null,
                           prev.hash);
        Sign(Skeleton(draft), identity, None)
  }
}
