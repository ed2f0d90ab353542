/** The record verifier (client/src/verify.rs): the structure of a record, its signatures, its proof of
    work and its place in a chain, judged in the order the specification fixes. The name grammar, the
    small-order keys and the signature check are parameters. */
module Verify {
  import opened Base
  import opened Utf8
  import opened Cbor
  import opened CborMembers
  import opened Domain
  import opened Pow
  import opened Record

  const MAX_RECORD_BYTES: nat := 4_096
  const MAX_CLOCK_SKEW: nat := 300
  const MAX_BACKDATE: nat := 86_400

  /** Why a record is refused, by code. */
  datatype Code =
    | TooLarge | NonCanonical | NotAMap | MissingField | BadFieldType | UnsupportedVersion | UnknownSuite | UnknownOp
    | BadLabel | UnknownTld | BadKey | BadSeq | BadTerm | TooManyRecords | BadRecordEntry | BadPowShape | MissingPow
    | UnexpectedPow | BadCosig | BadChain | NameTaken | BadSig | BadPow | NoPredecessor | TooSoon | SuiteDowngrade
    | Revoked | Expired | Unsettled | BadOwner | Backdated

  /** `Panic` stands for the panic of checked 64-bit arithmetic. */
  datatype Verdict = Accept | Reject(code: Code) | Defer | Panic

  /** What the verifier takes from elsewhere: labels, domains, alias targets, unusable keys, signatures. */
  datatype Rules = Rules(labelOk: Str -> bool, tldOk: Str -> bool, aliasOf: Str -> Option<(Str, Str)>,
                         smallOrder: Digest32 -> bool, checks: (Digest32, Octets, Signature) -> bool)

  type Judged<+T> = Result<T, Code>

  // ----- fields -----

  function UintIn(fields: Fields, name: Name): Judged<u64> {
    match Get(fields, name)
    case None => Err(Code.MissingField)
    case Some(UInt(n)) => Ok(n)
    case Some(_) => Err(Code.BadFieldType)
  }

  function TextIn(fields: Fields, name: Name): Judged<Str> {
    match Get(fields, name)
    case None => Err(Code.MissingField)
    case Some(Text(t)) => Ok(t)
    case Some(_) => Err(Code.BadFieldType)
  }

  function BytesIn(fields: Fields, name: Name, length: nat): (r: Judged<Octets>)
    ensures r.Ok? ==> |r.value| == length
  {
    match Get(fields, name)
    case None => Err(Code.MissingField)
    case Some(Bytes(b)) => if |b| == length then Ok(b) else Err(Code.BadFieldType)
    case Some(_) => Err(Code.BadFieldType)
  }

  function OpIn(fields: Fields): Judged<Op> {
    var text :- TextIn(fields, OP);
    match ParseOp(text)
    case Some(op) => Ok(op)
    case None => Err(Code.UnknownOp)
  }

  function NameIn(r: Rules, fields: Fields): Judged<Str> {
    var name :- TextIn(fields, NAME);
    :- Need(r.labelOk(name), Code.BadLabel);
    Ok(name)
  }

  function TldIn(r: Rules, fields: Fields): Judged<Str> {
    var tld :- TextIn(fields, TLD);
    :- Need(r.tldOk(tld), Code.UnknownTld);
    Ok(tld)
  }

  function OwnerIn(r: Rules, fields: Fields): Judged<Digest32> {
    var key :- BytesIn(fields, OWNER_KEY, 32);
    :- Need(!r.smallOrder(key), Code.BadKey);
    Ok(key)
  }

  function SeqIn(fields: Fields): Judged<u64> {
    var n :- UintIn(fields, SEQ);
    :- Need(n <= MAX_SEQ, Code.BadSeq);
    Ok(n)
  }

  function TermIn(fields: Fields): (r: Judged<(u64, u64)>)
    ensures r.Ok? ==> r.value.0 <= r.value.1
  {
    var notBefore :- UintIn(fields, NOT_BEFORE);
    var notAfter :- UintIn(fields, NOT_AFTER);
    :- Need(notAfter >= notBefore, Code.BadTerm);
    Ok((notBefore, notAfter))
  }

  // ----- entries -----

  function ValueSize(v: Value): nat {
    match v
    case Bytes(b) => |b|
    case Text(t) => |t|
    case _ => 0
  }

  /** The shape each known type asks for; unknown types are carried. */
  predicate ShapeOk(r: Rules, name: Str, tld: Str, kind: Str, value: Value) {
    if kind == Lit("peer") then value.Bytes? && |value.bytes| == 32
    else if kind == Lit("ipns") then value.Text? && 1 <= CharCount(value.text) <= 128
    else if kind == Lit("cid") then value.Bytes? && 1 <= |value.bytes| <= 64
    else if kind == Lit("txt") then
      value.Text? && 1 <= |value.text| <= 255 && forall i :: 0 <= i < |value.text| ==> value.text[i] >= 0x20
    else if kind == Lit(ALIAS) then
      value.Text? && r.aliasOf(value.text).Some? && r.aliasOf(value.text).value != (name, tld)
    else true
  }

  predicate TtlOk(fields: Fields) {
    match Get(fields, TTL)
    case None => true
    case Some(UInt(n)) => MIN_TTL <= n <= MAX_TTL
    case Some(_) => false
  }

  /** One entry beside `total - 1` others, with the aliases counted so far. */
  function EntryIn(r: Rules, name: Str, tld: Str, total: nat, entry: Value, aliases: nat): Judged<nat> {
    if !entry.Map? then Err(Code.BadRecordEntry)
    else
      var fields := FieldMap(entry.entries);
      match (Get(fields, TYPE), Get(fields, VALUE))
      case (Some(Text(kind)), Some(value)) =>
        if !TtlOk(fields) || ValueSize(value) > MAX_ENTRY_VALUE_BYTES || !ShapeOk(r, name, tld, kind, value) then
          Err(Code.BadRecordEntry)
        else if kind != Lit(ALIAS) then Ok(aliases)
        else if aliases > 0 || total > 1 then Err(Code.BadRecordEntry)
        else Ok(aliases + 1)
      case _ => Err(Code.BadRecordEntry)
  }

  function AliasesIn(r: Rules, name: Str, tld: Str, total: nat, items: seq<Value>): Judged<nat>
  {
    if |items| == 0 then Ok(0)
    else
      var aliases :- AliasesIn(r, name, tld, total, items[..|items| - 1]);
      EntryIn(r, name, tld, total, items[|items| - 1], aliases)
  }

  function EntriesIn(r: Rules, name: Str, tld: Str, fields: Fields): Judged<nat> {
    match Get(fields, RECORDS)
    case None => Err(Code.MissingField)
    case Some(Array(items)) =>
      if |items| > MAX_RECORD_ENTRIES then Err(Code.TooManyRecords) else AliasesIn(r, name, tld, |items|, items)
    case Some(_) => Err(Code.BadFieldType)
  }

  lemma {:induction false} AliasRefusalStays(r: Rules, name: Str, tld: Str, total: nat, items: seq<Value>, i: nat)
    requires i <= |items| && AliasesIn(r, name, tld, total, items[..i]).Err?
    ensures AliasesIn(r, name, tld, total, items) == AliasesIn(r, name, tld, total, items[..i])
    decreases |items|
  {
    hide EntryIn;
    if i < |items| {
      assert items[..|items| - 1][..i] == items[..i];
      AliasRefusalStays(r, name, tld, total, items[..|items| - 1], i);
    } else {
      assert items[..i] == items;
    }
  }

  /** The loop over the entries, counting aliases. */
  method CheckEntries(r: Rules, name: Str, tld: Str, items: seq<Value>) returns (aliases: Judged<nat>)
    ensures aliases == AliasesIn(r, name, tld, |items|, items)
  {
    hide EntryIn;
    var count: nat := 0;
    for i := 0 to |items|
      invariant AliasesIn(r, name, tld, |items|, items[..i]) == Ok(count)
    {
      assert items[..i + 1][..i] == items[..i];
      var next := EntryIn(r, name, tld, |items|, items[i], count);
      if next.Err? {
        AliasRefusalStays(r, name, tld, |items|, items, i + 1);
        return Err(next.error);
      }
      count := next.value;
    }
    assert items[..|items|] == items;
    aliases := Ok(count);
  }

  // ----- proof of work and signatures -----

  datatype Claim = Claim(bits: u32, nonce: Nonce)

  /** The claim of a proof: the one algorithm, no parameters of its own, no salt. */
  function ClaimIn(proof: Fields): Judged<Claim> {
    if Get(proof, ALG) != Some(Text(AlgorithmText())) then Err(Code.BadPowShape)
    else if Get(proof, "m").Some? || Get(proof, "t").Some? || Get(proof, "p").Some? || Get(proof, "salt").Some? then
      Err(Code.BadPowShape)
    else
      match (Get(proof, BITS), Get(proof, NONCE))
      case (Some(UInt(bits)), Some(Bytes(nonce))) =>
        if bits < U32_LIMIT && |nonce| == POW_NONCE_LENGTH then Ok(Claim(bits, nonce)) else Err(Code.BadPowShape)
      case _ => Err(Code.BadPowShape)
  }

  function ProofIn(fields: Fields): Judged<Option<Claim>> {
    match Get(fields, POW_PROOF)
    case None => Err(Code.MissingField)
    case Some(Null) => Ok(None)
    case Some(Map(entries)) =>
      var claim :- ClaimIn(FieldMap(entries));
      Ok(Some(claim))
    case Some(_) => Err(Code.BadPowShape)
  }

  /** REGISTER and RENEW carry a proof, nothing else does. */
  function ProofRule(op: Op, claim: Option<Claim>): Outcome<Code> {
    if op == Register || op == Renew then Need(claim.Some?, Code.MissingPow) else Need(claim.None?, Code.UnexpectedPow)
  }

  function CoSigIn(fields: Fields): Judged<Option<Signature>> {
    match Get(fields, CO_SIG)
    case None => Ok(None)
    case Some(Null) => Ok(None)
    case Some(Bytes(b)) => if |b| == 64 then Ok(Some(b)) else Err(Code.BadCosig)
    case Some(_) => Err(Code.BadCosig)
  }

  // ----- structure -----

  datatype ParsedRecord = ParsedRecord(entries: seq<Entry>, op: Op, name: Str, tld: Str, seqNo: u64, notBefore: u64,
                                       notAfter: u64,
                           ownerKey: Digest32, sig: Signature, coSig: Option<Signature>, claim: Option<Claim>)

  /** The fields in the order the specification lists them: a record with two defects is refused for the
      first. The one suite there is needs no field of its own. */
  function Parse(r: Rules, v: Value): Judged<ParsedRecord> {
    if !v.Map? then Err(Code.NotAMap)
    else
      var fields := FieldMap(v.entries);
      var version :- UintIn(fields, VERSION);
      :- Need(version == SUPPORTED_VERSION, Code.UnsupportedVersion);
      var suite :- UintIn(fields, SUITE);
      :- Need(suite == LAUNCH_SUITE, Code.UnknownSuite);
      var op :- OpIn(fields);
      var name :- NameIn(r, fields);
      var tld :- TldIn(r, fields);
      var ownerKey :- OwnerIn(r, fields);
      var seqNo :- SeqIn(fields);
      var term :- TermIn(fields);
      var _ :- EntriesIn(r, name, tld, fields);
      var claim :- ProofIn(fields);
      :- ProofRule(op, claim);
      var sig :- BytesIn(fields, SIG, 64);
      var _ :- BytesIn(fields, PREV_HASH, 32);
      var coSig :- CoSigIn(fields);
      Ok(ParsedRecord(v.entries, op, name, tld, seqNo, term.0, term.1, ownerKey, sig, coSig, claim))
  }

  // ----- what a chain says -----

  datatype PrevView = PrevView(opText: Str, seqNo: u64, notBefore: u64, notAfter: u64, ownerKey: Digest32,
                               signerKey: Digest32, suite: byte, hash: Digest32, revoked: bool)

  /** A predecessor read from its exact bytes; a TRANSFER needs its transferor's key supplied. It is never
      marked revoked: whoever keeps the log says so. */
  function ViewOf(blake: Blake, bytes: Octets, transferorKey: Option<Digest32>): Option<PrevView> {
    match Decode(bytes)
    case Ok(Map(entries)) => ViewFrom(RecordHash(blake, bytes), FieldMap(entries), transferorKey)
    case _ => None
  }

  function ViewFrom(hash: Digest32, fields: Fields, transferorKey: Option<Digest32>): Option<PrevView> {
    match (Get(fields, OP), Get(fields, OWNER_KEY), Get(fields, SEQ), Get(fields, NOT_BEFORE), Get(fields, NOT_AFTER),
           Get(fields, SUITE))
    case (Some(Text(op)), Some(Bytes(key)), Some(UInt(seqNo)), Some(UInt(notBefore)), Some(UInt(notAfter)),
          Some(UInt(suite))) =>
      if |key| != 32 || suite >= 256 || (op == Lit(OpText(Transfer)) && transferorKey.None?) then None
      else
        var signer := if op == Lit(OpText(Transfer)) then transferorKey.value else key;
        Some(PrevView(op, seqNo, notBefore, notAfter, key, signer, suite, hash, false))
    case _ => None
  }

  /** What the log is known to hold. */
  datatype Known = Known(previous: Option<PrevView>, revoked: bool, fullyReleased: bool, powVerified: bool)

  function ClockCheck(notBefore: u64, now: u64): Outcome<Verdict> {
    if notBefore > now + MAX_CLOCK_SKEW then Fail(Defer)
    else Need(notBefore >= now - MAX_BACKDATE, Reject(Code.Backdated))
  }

  /** LIVE answers every operation, GRACE only RENEW; a revocation ends the one at once and not the other. */
  predicate AcceptsSuccessor(prev: PrevView, now: u64, op: Op) {
    && now >= prev.notBefore
    && if op == Renew then now < Saturating(prev.notAfter + GRACE_SECONDS)
       else now < if prev.opText == Lit(OpText(Revoke)) then prev.notBefore else prev.notAfter
  }

  /** While a TRANSFER settles the transferor still speaks for the name. */
  function ControllingKey(prev: PrevView, at: u64): Digest32 {
    if prev.opText == Lit(OpText(Transfer)) && at < prev.notBefore + SETTLEMENT_SECONDS then prev.signerKey
    else prev.ownerKey
  }

  /** The claim against the difficulty the caller demands, and the nonce against the record's own salt. */
  function PowCheck(p: Primitives, record: ParsedRecord, windowCount: u64): Outcome<Verdict> {
    match record.claim
    case None => Fail(Reject(Code.MissingPow))
    case Some(Claim(bits, nonce)) =>
      if bits < RequiredBits(CharCount(record.name), windowCount) then Fail(Reject(Code.BadPow))
      else
        match CoreOf(record.entries)
        case Err(_) => Fail(Reject(Code.NonCanonical))
        case Ok(core) =>
          match Salt(p.sha, core)
          case Err(_) => Fail(Reject(Code.BadPow))
          case Ok(salt) => Need(TagSatisfies(p.argon(nonce, salt), bits), Reject(Code.BadPow))
  }

  predicate AllZero(field: Option<Value>) {
    field.Some? && field.value.Bytes? && forall i :: 0 <= i < |field.value.bytes| ==> field.value.bytes[i] == 0
  }

  // ----- the verdict -----

  type Standing = Result<(), Verdict>

  /** A REGISTER: the free name before the signature, the clock last. */
  function JudgeFirst(r: Rules, p: Primitives, record: ParsedRecord, input: Octets, known: Known, now: u64,
                      windowCount: u64): Standing {
    var prevHash := Get(FieldMap(record.entries), PREV_HASH);
    :- Need(record.seqNo == 0 && AllZero(prevHash), Reject(Code.BadChain));
    :- Need(known.previous.None? || known.fullyReleased, Reject(Code.NameTaken));
    :- Need(record.notAfter - record.notBefore == TERM_SECONDS, Reject(Code.BadTerm));
    :- Need(r.checks(record.ownerKey, input, record.sig), Reject(Code.BadSig));
    :- if known.powVerified then Pass else PowCheck(p, record, windowCount);
    :- ClockCheck(record.notBefore, now);
    Ok(())
  }

  function SettlingRule(prev: PrevView, record: ParsedRecord): Outcome<Verdict> {
    if prev.opText != Lit(OpText(Transfer)) then Pass
    else if prev.notBefore + SETTLEMENT_SECONDS >= U64_LIMIT then Fail(Panic)
    else Need(record.notBefore >= prev.notBefore + SETTLEMENT_SECONDS || record.op == Transfer, Reject(Code.Unsettled))
  }

  /** Any other operation: its place in the chain, then its signature, then its clock, then its own rules. */
  function JudgeNext(r: Rules, p: Primitives, record: ParsedRecord, input: Octets, prev: PrevView, known: Known,
                     now: u64, windowCount: u64): Standing
  {
    var prevHash := Get(FieldMap(record.entries), PREV_HASH);
    :- Need(prev.seqNo + 1 < U64_LIMIT, Panic);
    :- Need(record.seqNo == prev.seqNo + 1, Reject(Code.BadSeq));
    :- Need(prevHash == Some(Bytes(prev.hash)), Reject(Code.BadChain));
    :- Need(prev.notBefore + MIN_INTERVAL_SECONDS < U64_LIMIT, Panic);
    :- Need(record.notBefore >= prev.notBefore + MIN_INTERVAL_SECONDS, Reject(Code.TooSoon));
    :- Need(LAUNCH_SUITE >= prev.suite, Reject(Code.SuiteDowngrade));
    :- Need(!known.revoked && !prev.revoked, Reject(Code.Revoked));
    :- Need(AcceptsSuccessor(prev, now, record.op), Reject(Code.Expired));
    :- SettlingRule(prev, record);
    :- Need(r.checks(ControllingKey(prev, record.notBefore), input, record.sig), Reject(Code.BadSig));
    :- ClockCheck(record.notBefore, now);
    :- Need(record.op == Transfer || record.ownerKey == prev.ownerKey, Reject(Code.BadOwner));
    :- Need(record.op == Renew || record.claim.None?, Reject(Code.UnexpectedPow));
    OwnRules(r, p, record, input, prev, known, windowCount)
  }

  function OwnRules(r: Rules, p: Primitives, record: ParsedRecord, input: Octets, prev: PrevView, known: Known,
                    windowCount: u64)
    : Standing
  {
    match record.op
    case Update =>
      :- Need(record.notAfter == prev.notAfter, Reject(Code.BadTerm));
      Ok(())
    case Renew =>
      :- Need(record.claim.Some?, Reject(Code.MissingPow));
      :- Need(record.notBefore >= prev.notAfter - RENEWAL_WINDOW_SECONDS, Reject(Code.TooSoon));
      var base := Max(prev.notAfter, record.notBefore);
      :- Need(base + TERM_SECONDS < U64_LIMIT, Panic);
      :- Need(record.notAfter == base + TERM_SECONDS, Reject(Code.BadTerm));
      :- if known.powVerified then Pass else PowCheck(p, record, windowCount);
      Ok(())
    case Transfer =>
      :- Need(record.ownerKey != prev.ownerKey, Reject(Code.BadOwner));
      :- Need(record.notAfter == prev.notAfter, Reject(Code.BadTerm));
      :- Need(record.notAfter - record.notBefore >= SETTLEMENT_SECONDS, Reject(Code.Unsettled));
      :- Need(record.coSig.Some? && r.checks(record.ownerKey, input, record.coSig.value), Reject(Code.BadCosig));
      Ok(())
    case Relinquish =>
      :- Need(Get(FieldMap(record.entries), RECORDS) == Some(Array([])), Reject(Code.BadRecordEntry));
      :- Need(record.notAfter == record.notBefore, Reject(Code.BadTerm));
      Ok(())
    case Revoke =>
      :- Need(Get(FieldMap(record.entries), RECORDS) == Some(Array([])), Reject(Code.BadRecordEntry));
      :- Need(record.notAfter == prev.notAfter, Reject(Code.BadTerm));
      Ok(())
    case Register => Err(Reject(Code.UnknownOp))
  }

  function Judge(r: Rules, p: Primitives, bytes: Octets, known: Known, now: u64, windowCount: u64): Verdict {
    match Standings(r, p, bytes, known, now, windowCount)
    case Ok(_) => Accept
    case Err(verdict) => verdict
  }

  /** Size, strict form, structure; then the signing input over the core, and the operation. */
  function Standings(r: Rules, p: Primitives, bytes: Octets, known: Known, now: u64, windowCount: u64): Standing {
    if |bytes| > MAX_RECORD_BYTES then Err(Reject(Code.TooLarge))
    else
      match Decode(bytes)
      case Err(_) => Err(Reject(Code.NonCanonical))
      case Ok(decoded) =>
        if Encode(decoded) != Ok(bytes) then Err(Reject(Code.NonCanonical))
        else
          match Parse(r, decoded)
          case Err(code) => Err(Reject(code))
          case Ok(record) =>
            match EncodeCore(record.entries)
            case Err(_) => Err(Reject(Code.NonCanonical))
            case Ok(core) =>
              var input := SigningInput(core, LAUNCH_SUITE_BYTE);
              if record.op == Register then JudgeFirst(r, p, record, input, known, now, windowCount)
              else
                match known.previous
                case None => Err(Reject(Code.NoPredecessor))
                case Some(prev) => JudgeNext(r, p, record, input, prev, known, now, windowCount)
  }
}
