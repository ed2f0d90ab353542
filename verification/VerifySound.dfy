/** What a record is that the verifier accepts (client/src/verify.rs), for every byte string: said field by
    field of the decoded map, without the verifier's own steps. */
module VerifySound {
  import opened Base
  import opened Utf8
  import opened Cbor
  import opened CborCanonical
  import opened CborMembers
  import opened Domain
  import opened Pow
  import opened Record
  import opened Verify
  import opened Preimages

  // ----- the structure of a record -----

  /** One entry of the list: a type, a value of at most 512 octets, a time to live between a minute and a day,
      and the shape of the five types that are known. */
  ghost predicate GoodEntry(r: Rules, name: Str, tld: Str, entry: Value) {
    && entry.Map?
    && var f := FieldMap(entry.entries);
       && Get(f, TYPE).Some? && Get(f, TYPE).value.Text? && Get(f, VALUE).Some?
       && (Get(f, TTL).Some? ==> Get(f, TTL).value.UInt? && 60 <= Get(f, TTL).value.n <= 86_400)
       && var kind, value := Get(f, TYPE).value.text, Get(f, VALUE).value;
          && (value.Bytes? ==> |value.bytes| <= 512) && (value.Text? ==> |value.text| <= 512)
          && (kind == Lit("peer") ==> value.Bytes? && |value.bytes| == 32)
          && (kind == Lit("ipns") ==> value.Text? && 1 <= CharCount(value.text) <= 128)
          && (kind == Lit("cid") ==> value.Bytes? && 1 <= |value.bytes| <= 64)
          && (kind == Lit("txt") ==>
                value.Text? && 1 <= |value.text| <= 255
                && forall i :: 0 <= i < |value.text| ==> value.text[i] >= 0x20)
          && (kind == Lit("alias") ==>
                value.Text? && r.aliasOf(value.text).Some? && r.aliasOf(value.text).value != (name, tld))
  }

  ghost predicate IsAlias(entry: Value) {
    entry.Map? && Get(FieldMap(entry.entries), TYPE) == Some(Text(Lit("alias")))
  }

  /** At most 32 entries, and an alias only alone. */
  ghost predicate GoodEntries(r: Rules, name: Str, tld: Str, items: seq<Value>) {
    |items| <= 32 && forall i :: 0 <= i < |items| ==> GoodAmong(r, name, tld, |items|, items[i])
  }

  ghost predicate GoodAmong(r: Rules, name: Str, tld: Str, total: nat, entry: Value) {
    GoodEntry(r, name, tld, entry) && (IsAlias(entry) ==> total == 1)
  }

  /** The claim of a proof: the one algorithm, no parameter and no salt of its own. */
  ghost predicate GoodProof(proof: Fields, claim: Claim) {
    && Get(proof, ALG) == Some(Text(Lit("argon2id-v19-m65536-t2-p1")))
    && Get(proof, "m") == None && Get(proof, "t") == None && Get(proof, "p") == None && Get(proof, "salt") == None
    && Get(proof, BITS) == Some(UInt(claim.bits)) && Get(proof, NONCE) == Some(Bytes(claim.nonce))
  }

  function OpName(op: Op): Name {
    match op
    case Register => "REGISTER"
    case Renew => "RENEW"
    case Update => "UPDATE"
    case Transfer => "TRANSFER"
    case Relinquish => "RELINQUISH"
    case Revoke => "REVOKE"
  }

  ghost predicate ShowsWhat(r: Rules, f: Fields, x: ParsedRecord) {
    && Get(f, VERSION) == Some(UInt(1)) && Get(f, SUITE) == Some(UInt(1)) && Get(f, OP) == Some(Text(Lit(OpName(x.op))))
    && Get(f, NAME) == Some(Text(x.name)) && r.labelOk(x.name) && Get(f, TLD) == Some(Text(x.tld)) && r.tldOk(x.tld)
    && Get(f, OWNER_KEY) == Some(Bytes(x.ownerKey)) && !r.smallOrder(x.ownerKey)
  }

  ghost predicate ShowsWhen(f: Fields, x: ParsedRecord) {
    && Get(f, SEQ) == Some(UInt(x.seqNo)) && x.seqNo < 0x1_0000_0000
    && Get(f, NOT_BEFORE) == Some(UInt(x.notBefore)) && Get(f, NOT_AFTER) == Some(UInt(x.notAfter))
    && x.notBefore <= x.notAfter
  }

  ghost predicate ShowsEntries(r: Rules, f: Fields, x: ParsedRecord) {
    match Get(f, RECORDS)
    case Some(Array(items)) => GoodEntries(r, x.name, x.tld, items)
    case _ => false
  }

  /** REGISTER and RENEW carry a proof of work, the others null. */
  ghost predicate ShowsProof(f: Fields, x: ParsedRecord) {
    match Get(f, POW_PROOF)
    case Some(Map(proof)) =>
      (x.op.Register? || x.op.Renew?) && x.claim.Some? && GoodProof(FieldMap(proof), x.claim.value)
    case Some(Null) => !x.op.Register? && !x.op.Renew? && x.claim.None?
    case _ => false
  }

  ghost predicate ShowsSignatures(f: Fields, x: ParsedRecord) {
    && Get(f, SIG) == Some(Bytes(x.sig))
    && (exists hash: Digest32 :: Get(f, PREV_HASH) == Some(Bytes(hash)))
    && match x.coSig
       case Some(s) => Get(f, CO_SIG) == Some(Bytes(s))
       case None => Get(f, CO_SIG) == None || Get(f, CO_SIG) == Some(Null)
  }

  /** The fields say these things, and they are things a record may say. */
  ghost predicate Shows(r: Rules, entries: seq<Entry>, x: ParsedRecord) {
    var f := FieldMap(entries);
    && x.entries == entries
    && ShowsWhat(r, f, x) && ShowsWhen(f, x) && ShowsEntries(r, f, x) && ShowsProof(f, x) && ShowsSignatures(f, x)
  }

  lemma {:induction false} EntryInIff(r: Rules, name: Str, tld: Str, total: nat, entry: Value, aliases: nat)
    ensures EntryIn(r, name, tld, total, entry, aliases)
         == if !GoodEntry(r, name, tld, entry) then Err(Code.BadRecordEntry)
            else if !IsAlias(entry) then Ok(aliases)
            else if aliases > 0 || total > 1 then Err(Code.BadRecordEntry)
            else Ok(aliases + 1)
  {
    hide FieldMap;
    LitInjective("alias", "peer");
    LitInjective("alias", "ipns");
    LitInjective("alias", "cid");
    LitInjective("alias", "txt");
    LitInjective("peer", "ipns");
    LitInjective("peer", "cid");
    LitInjective("peer", "txt");
    LitInjective("ipns", "cid");
    LitInjective("ipns", "txt");
    LitInjective("cid", "txt");
    hide Lit;
  }

  lemma {:induction false} AliasesInIff(r: Rules, name: Str, tld: Str, total: nat, items: seq<Value>)
    requires |items| <= total
    ensures AliasesIn(r, name, tld, total, items).Ok?
       <==> forall i :: 0 <= i < |items| ==> GoodAmong(r, name, tld, total, items[i])
    ensures AliasesIn(r, name, tld, total, items).Ok? && total != 1 ==> AliasesIn(r, name, tld, total, items) == Ok(0)
    ensures |items| == 0 ==> AliasesIn(r, name, tld, total, items) == Ok(0)
    ensures AliasesIn(r, name, tld, total, items).Err? ==>
              AliasesIn(r, name, tld, total, items) == Err(Code.BadRecordEntry)
  {
    hide EntryIn, GoodEntry, IsAlias;
    if |items| > 0 {
      var front, last := items[..|items| - 1], items[|items| - 1];
      AliasesInIff(r, name, tld, total, front);
      if AliasesIn(r, name, tld, total, front).Ok? {
        EntryInIff(r, name, tld, total, last, AliasesIn(r, name, tld, total, front).value);
      }
    }
  }

  lemma {:induction false} EntriesInIff(r: Rules, f: Fields, x: ParsedRecord)
    ensures EntriesIn(r, x.name, x.tld, f).Ok? <==> ShowsEntries(r, f, x)
  {
    hide EntryIn, GoodEntry, IsAlias;
    match Get(f, RECORDS)
    case Some(Array(items)) => AliasesInIff(r, x.name, x.tld, |items|, items);
    case _ =>
  }

  lemma {:induction false} OpNamed(text: Str, op: Op)
    ensures ParseOp(text) == Some(op) <==> text == Lit(OpName(op))
  {
    assert OpName(op) == OpText(op);
    LitInjective(OpText(op), OpText(Register));
    LitInjective(OpText(op), OpText(Renew));
    LitInjective(OpText(op), OpText(Update));
    LitInjective(OpText(op), OpText(Transfer));
    LitInjective(OpText(op), OpText(Relinquish));
    LitInjective(OpText(op), OpText(Revoke));
    hide Lit;
  }

  lemma {:induction false} ProofInIff(f: Fields, x: ParsedRecord)
    ensures ProofIn(f) == Ok(x.claim) && ProofRule(x.op, x.claim).Pass? <==> ShowsProof(f, x)
  {
    hide FieldMap, Lit;
  }

  /** The steps of parsing, each on its own. */
  ghost predicate Steps(r: Rules, f: Fields, x: ParsedRecord) {
    && UintIn(f, VERSION) == Ok(SUPPORTED_VERSION) && UintIn(f, SUITE) == Ok(LAUNCH_SUITE) && OpIn(f) == Ok(x.op)
    && NameIn(r, f) == Ok(x.name) && TldIn(r, f) == Ok(x.tld) && OwnerIn(r, f) == Ok(x.ownerKey)
    && SeqIn(f) == Ok(x.seqNo) && TermIn(f) == Ok((x.notBefore, x.notAfter))
    && EntriesIn(r, x.name, x.tld, f).Ok? && ProofIn(f) == Ok(x.claim) && ProofRule(x.op, x.claim).Pass?
    && BytesIn(f, SIG, 64) == Ok(x.sig) && BytesIn(f, PREV_HASH, 32).Ok? && CoSigIn(f) == Ok(x.coSig)
  }

  lemma {:induction false} ParsesInSteps(r: Rules, v: Value, x: ParsedRecord)
    ensures Parse(r, v) == Ok(x) <==> v.Map? && x.entries == v.entries && Steps(r, FieldMap(v.entries), x)
  {
    hide FieldMap, UintIn, OpIn, NameIn, TldIn, OwnerIn, SeqIn, TermIn, EntriesIn, ProofIn, ProofRule, BytesIn, CoSigIn;
  }

  lemma {:induction false} WhatIff(r: Rules, f: Fields, x: ParsedRecord)
    ensures && UintIn(f, VERSION) == Ok(SUPPORTED_VERSION) && UintIn(f, SUITE) == Ok(LAUNCH_SUITE)
            && OpIn(f) == Ok(x.op) && NameIn(r, f) == Ok(x.name) && TldIn(r, f) == Ok(x.tld)
            && OwnerIn(r, f) == Ok(x.ownerKey)
       <==> ShowsWhat(r, f, x)
  {
    if Get(f, OP).Some? && Get(f, OP).value.Text? {
      OpNamed(Get(f, OP).value.text, x.op);
    }
    hide Get, ParseOp, OpName, Lit;
  }

  lemma {:induction false} WhenIff(f: Fields, x: ParsedRecord)
    ensures SeqIn(f) == Ok(x.seqNo) && TermIn(f) == Ok((x.notBefore, x.notAfter)) <==> ShowsWhen(f, x)
  {
    hide Get;
  }

  lemma {:induction false} SignaturesIff(f: Fields, x: ParsedRecord)
    ensures BytesIn(f, SIG, 64) == Ok(x.sig) && BytesIn(f, PREV_HASH, 32).Ok? && CoSigIn(f) == Ok(x.coSig)
       <==> ShowsSignatures(f, x)
  {
    hide Get;
    if BytesIn(f, PREV_HASH, 32).Ok? {
      var hash: Digest32 := BytesIn(f, PREV_HASH, 32).value;
      assert Get(f, PREV_HASH) == Some(Bytes(hash));
    }
  }

  lemma {:induction false} StepsShow(r: Rules, f: Fields, x: ParsedRecord)
    ensures Steps(r, f, x)
       <==> ShowsWhat(r, f, x) && ShowsWhen(f, x) && ShowsEntries(r, f, x) && ShowsProof(f, x) && ShowsSignatures(f, x)
  {
    WhatIff(r, f, x);
    WhenIff(f, x);
    EntriesInIff(r, f, x);
    ProofInIff(f, x);
    SignaturesIff(f, x);
    hide UintIn, OpIn, NameIn, TldIn, OwnerIn, SeqIn, TermIn, EntriesIn, ProofIn, ProofRule, BytesIn, CoSigIn,
         ShowsWhat, ShowsWhen, ShowsEntries, ShowsProof, ShowsSignatures;
  }

  /** Parsing gives a record exactly when the fields show it. */
  lemma {:induction false} ParsesIff(r: Rules, v: Value, x: ParsedRecord)
    ensures Parse(r, v) == Ok(x) <==> v.Map? && Shows(r, v.entries, x)
  {
    ParsesInSteps(r, v, x);
    if v.Map? {
      StepsShow(r, FieldMap(v.entries), x);
    }
    hide FieldMap, Parse, Steps, ShowsWhat, ShowsWhen, ShowsEntries, ShowsProof, ShowsSignatures;
  }

  // ----- what a record must be to be accepted -----

  /** This key accepts this signature over the record without its signatures. */
  ghost predicate SignedBy(r: Rules, key: Digest32, entries: seq<Entry>, signature: Signature) {
    r.checks(key, SigningOctets(entries), signature)
  }

  /** The claimed difficulty is no less than what is demanded, and the tag over nonce and salt has it. */
  ghost predicate Proved(p: Primitives, x: ParsedRecord, windowCount: u64) {
    && x.claim.Some? && x.claim.value.bits >= RequiredBits(CharCount(x.name), windowCount) && Saltable(x.entries)
    && TagSatisfies(p.argon(x.claim.value.nonce, p.sha(SaltOctets(x.entries))[..16]), x.claim.value.bits)
  }

  /** No more than five minutes ahead of the verifier's clock and no more than a day behind it. */
  ghost predicate Timely(x: ParsedRecord, now: u64) {
    now - 86_400 <= x.notBefore <= now + 300
  }

  ghost predicate PointsBack(x: ParsedRecord, hash: Octets) {
    Get(FieldMap(x.entries), PREV_HASH) == Some(Bytes(hash))
  }

  /** A registration: the first of its chain, for a year, of a name that is free, signed by its own key. */
  ghost predicate GoodFirst(r: Rules, p: Primitives, x: ParsedRecord, known: Known, now: u64, windowCount: u64) {
    && x.seqNo == 0 && PointsBack(x, seq(32, _ => 0))
    && (known.previous.None? || known.fullyReleased)
    && x.notAfter == x.notBefore + 31_536_000
    && SignedBy(r, x.ownerKey, x.entries, x.sig)
    && (known.powVerified || Proved(p, x, windowCount))
    && Timely(x, now)
  }

  /** A name answers until its term ends, a renewal also during the thirty days after; a revocation ends it
      at once. */
  ghost predicate Answers(prev: PrevView, op: Op, now: u64) {
    && prev.notBefore <= now
    && if op.Renew? then now < prev.notAfter + 2_592_000 && now < U64_LIMIT - 1
       else now < prev.notAfter && prev.opText != Lit("REVOKE")
  }

  /** While a transfer settles, for fourteen days, its transferor speaks for the name. */
  ghost function Authority(prev: PrevView, at: u64): Digest32 {
    if prev.opText == Lit("TRANSFER") && at < prev.notBefore + 1_209_600 then prev.signerKey else prev.ownerKey
  }

  /** Its place in the chain, in time, and with regard to a settling transfer. */
  ghost predicate Placed(x: ParsedRecord, prev: PrevView, known: Known, now: u64) {
    && x.seqNo == prev.seqNo + 1 && PointsBack(x, prev.hash) && x.notBefore >= prev.notBefore + 300
    && prev.suite <= 1 && !known.revoked && !prev.revoked && Answers(prev, x.op, now)
    && (prev.opText == Lit("TRANSFER") ==>
          && prev.notBefore + 1_209_600 < U64_LIMIT
          && (x.op.Transfer? || x.notBefore >= prev.notBefore + 1_209_600))
  }

  /** Any other record: the next of its chain, signed by whoever speaks for the name. */
  ghost predicate GoodNext(r: Rules, p: Primitives, x: ParsedRecord, prev: PrevView, known: Known, now: u64,
                           windowCount: u64)
  {
    && Placed(x, prev, known, now)
    && SignedBy(r, Authority(prev, x.notBefore), x.entries, x.sig)
    && Timely(x, now)
    && (if x.op.Transfer? then x.ownerKey != prev.ownerKey else x.ownerKey == prev.ownerKey)
    && GoodOperation(r, p, x, prev, known, windowCount)
  }

  /** What each operation does to the term and the entries, and what more it must carry. */
  ghost predicate GoodOperation(r: Rules, p: Primitives, x: ParsedRecord, prev: PrevView, known: Known,
                                windowCount: u64)
  {
    match x.op
    case Register => false
    case Update => x.notAfter == prev.notAfter
    case Renew =>
      && x.notBefore >= prev.notAfter - 5_184_000
      && x.notAfter == (if prev.notAfter > x.notBefore then prev.notAfter else x.notBefore) + 31_536_000
      && (known.powVerified || Proved(p, x, windowCount))
    case Transfer =>
      && x.notAfter == prev.notAfter && x.notAfter >= x.notBefore + 1_209_600
      && x.coSig.Some? && SignedBy(r, x.ownerKey, x.entries, x.coSig.value)
    case Relinquish => x.notAfter == x.notBefore && Get(FieldMap(x.entries), RECORDS) == Some(Array([]))
    case Revoke => x.notAfter == prev.notAfter && Get(FieldMap(x.entries), RECORDS) == Some(Array([]))
  }

  // ----- the verdict -----

  lemma {:induction false} PowIff(p: Primitives, bytes: Octets, x: ParsedRecord, windowCount: u64)
    requires Decode(bytes) == Ok(Map(x.entries)) && TextKeys(x.entries)
    ensures PowCheck(p, x, windowCount).Pass? <==> Proved(p, x, windowCount)
  {
    SaltIs(p.sha, bytes, x.entries);
    hide CoreOf, Salt, SaltOctets, Saltable, TagSatisfies, RequiredBits, CharCount, Decode;
  }

  lemma {:induction false} ZeroHash(f: Fields)
    requires exists hash: Digest32 :: Get(f, PREV_HASH) == Some(Bytes(hash))
    ensures AllZero(Get(f, PREV_HASH)) <==> Get(f, PREV_HASH) == Some(Bytes(seq(32, _ => 0)))
  {
    var hash: Digest32 :| Get(f, PREV_HASH) == Some(Bytes(hash));
    hide Get;
    if AllZero(Get(f, PREV_HASH)) {
      assert hash == seq(32, _ => 0);
    }
  }

  lemma {:induction false} FirstIff(r: Rules, p: Primitives, bytes: Octets, x: ParsedRecord, known: Known, now: u64,
                                    windowCount: u64)
    requires Decode(bytes) == Ok(Map(x.entries)) && TextKeys(x.entries) && Shows(r, x.entries, x)
    ensures JudgeFirst(r, p, x, SigningOctets(x.entries), known, now, windowCount).Ok?
       <==> GoodFirst(r, p, x, known, now, windowCount)
  {
    PowIff(p, bytes, x, windowCount);
    ZeroHash(FieldMap(x.entries));
    hide Decode, FieldMap, Get, AllZero, PowCheck, Proved, SigningOctets, ShowsWhat, ShowsEntries, ShowsProof,
         ShowsSignatures;
  }

  lemma {:induction false} OwnIff(r: Rules, p: Primitives, bytes: Octets, x: ParsedRecord, prev: PrevView,
                                  known: Known, windowCount: u64)
    requires Decode(bytes) == Ok(Map(x.entries)) && TextKeys(x.entries) && Shows(r, x.entries, x)
    requires x.op == Transfer || x.ownerKey == prev.ownerKey
    ensures OwnRules(r, p, x, SigningOctets(x.entries), prev, known, windowCount).Ok?
       <==> && GoodOperation(r, p, x, prev, known, windowCount)
            && (x.op == Transfer ==> x.ownerKey != prev.ownerKey)
  {
    PowIff(p, bytes, x, windowCount);
    hide Decode, FieldMap, Get, PowCheck, SigningOctets, ShowsWhat, ShowsEntries, ShowsSignatures, GoodProof;
  }

  lemma {:induction false} PlaceIff(prev: PrevView, x: ParsedRecord, now: u64)
    ensures AcceptsSuccessor(prev, now, x.op) <==> Answers(prev, x.op, now)
    ensures SettlingRule(prev, x).Pass?
       <==> (prev.opText == Lit("TRANSFER") ==>
               && prev.notBefore + 1_209_600 < U64_LIMIT
               && (x.op.Transfer? || x.notBefore >= prev.notBefore + 1_209_600))
    ensures ControllingKey(prev, x.notBefore) == Authority(prev, x.notBefore)
  {
    hide Lit;
  }

  ghost predicate PlaceRefused(x: ParsedRecord, prev: PrevView, known: Known, now: u64, verdict: Verdict) {
    if verdict == Reject(Code.BadSeq) then x.seqNo != prev.seqNo + 1
    else if verdict == Reject(Code.BadChain) then !PointsBack(x, prev.hash)
    else if verdict == Reject(Code.TooSoon) then x.notBefore < prev.notBefore + 300
    else if verdict == Reject(Code.SuiteDowngrade) then prev.suite > 1
    else if verdict == Reject(Code.Revoked) then known.revoked || prev.revoked
    else if verdict == Reject(Code.Expired) then !Answers(prev, x.op, now)
    else if verdict == Reject(Code.Unsettled) then
      prev.opText == Lit("TRANSFER") && !x.op.Transfer? && x.notBefore < prev.notBefore + 1_209_600
    else if verdict == Panic then
      || prev.seqNo + 1 >= U64_LIMIT || prev.notBefore + 300 >= U64_LIMIT
      || (prev.opText == Lit("TRANSFER") && prev.notBefore + 1_209_600 >= U64_LIMIT)
    else false
  }

  lemma {:induction false} SettlingCode(prev: PrevView, x: ParsedRecord)
    ensures var verdict := if prev.notBefore + 1_209_600 >= U64_LIMIT then Panic else Reject(Code.Unsettled);
            SettlingRule(prev, x).Fail? ==> SettlingRule(prev, x) == Fail(verdict)
  {
    hide Lit;
  }

  /** Out of its place a successor is refused for that. */
  lemma {:induction false} PlaceRefusal(r: Rules, p: Primitives, x: ParsedRecord, prev: PrevView, known: Known,
                                        now: u64, windowCount: u64, input: Octets)
    requires !Placed(x, prev, known, now)
    ensures var v := JudgeNext(r, p, x, input, prev, known, now, windowCount);
            v.Err? && PlaceRefused(x, prev, known, now, v.error)
  {
    PlaceIff(prev, x, now);
    SettlingCode(prev, x);
    hide FieldMap, Get, OwnRules, AcceptsSuccessor, SettlingRule, ControllingKey, Answers, Authority, Lit, ClockCheck;
  }

  /** In its place it is judged by its signature, its clock, its owner and its own rules. */
  lemma {:induction false} PlacedJudged(r: Rules, p: Primitives, x: ParsedRecord, prev: PrevView, known: Known,
                                        now: u64, windowCount: u64, input: Octets)
    requires Placed(x, prev, known, now) && (x.op != Renew ==> x.claim.None?)
    ensures JudgeNext(r, p, x, input, prev, known, now, windowCount)
         == if !r.checks(Authority(prev, x.notBefore), input, x.sig) then Err(Reject(Code.BadSig))
            else if x.notBefore > now + 300 then Err(Defer)
            else if x.notBefore < now - 86_400 then Err(Reject(Code.Backdated))
            else if x.op != Transfer && x.ownerKey != prev.ownerKey then Err(Reject(Code.BadOwner))
            else OwnRules(r, p, x, input, prev, known, windowCount)
  {
    PlaceIff(prev, x, now);
    hide FieldMap, Get, OwnRules, AcceptsSuccessor, SettlingRule, ControllingKey, Answers, Authority, Lit;
  }

  lemma {:induction false} ShownNext(r: Rules, x: ParsedRecord)
    requires Shows(r, x.entries, x) && !x.op.Register?
    ensures x.notBefore <= x.notAfter && (x.claim.Some? <==> x.op.Renew?)
  {
    hide FieldMap, Get, ShowsWhat, ShowsEntries, GoodProof, ShowsSignatures;
  }

  lemma {:induction false} NextIff(r: Rules, p: Primitives, bytes: Octets, x: ParsedRecord, prev: PrevView,
                                   known: Known, now: u64, windowCount: u64)
    requires Decode(bytes) == Ok(Map(x.entries)) && TextKeys(x.entries) && Shows(r, x.entries, x)
    requires x.op != Register
    ensures JudgeNext(r, p, x, SigningOctets(x.entries), prev, known, now, windowCount).Ok?
       <==> GoodNext(r, p, x, prev, known, now, windowCount)
  {
    ShownNext(r, x);
    if Placed(x, prev, known, now) {
      PlacedJudged(r, p, x, prev, known, now, windowCount, SigningOctets(x.entries));
      if x.op == Transfer || x.ownerKey == prev.ownerKey {
        OwnIff(r, p, bytes, x, prev, known, windowCount);
      }
    } else {
      PlaceRefusal(r, p, x, prev, known, now, windowCount, SigningOctets(x.entries));
    }
    hide Decode, OwnRules, JudgeNext, SigningOctets, Shows, TextKeys, GoodOperation, Placed, PlaceRefused, Authority;
  }

  /** What the octets must be for the verifier to say yes. */
  ghost predicate Acceptable(r: Rules, p: Primitives, bytes: Octets, known: Known, now: u64, windowCount: u64) {
    && |bytes| <= 4_096
    && match Decode(bytes)
       case Ok(Map(entries)) =>
         && TextKeys(entries)
         && exists x: ParsedRecord ::
              && Shows(r, entries, x)
              && if x.op.Register? then GoodFirst(r, p, x, known, now, windowCount)
                 else known.previous.Some? && GoodNext(r, p, x, known.previous.value, known, now, windowCount)
       case _ => false
  }

  /** A record is accepted exactly when it is short enough, strictly encoded, shows what a record may show, and
      is a good registration or a good successor: for every byte string. */
  lemma {:induction false} AcceptsIff(r: Rules, p: Primitives, bytes: Octets, known: Known, now: u64, windowCount: u64)
    ensures Judge(r, p, bytes, known, now, windowCount) == Accept
       <==> Acceptable(r, p, bytes, known, now, windowCount)
  {
    if Decode(bytes).Ok? && Decode(bytes).value.Map? {
      var entries := Decode(bytes).value.entries;
      SigningInputIs(bytes, entries);
      if Parse(r, Map(entries)).Ok? {
        var x := Parse(r, Map(entries)).value;
        ParsesIff(r, Map(entries), x);
        if TextKeys(entries) {
          FirstIff(r, p, bytes, x, known, now, windowCount);
          if x.op != Register && known.previous.Some? {
            NextIff(r, p, bytes, x, known.previous.value, known, now, windowCount);
          }
        }
      }
      forall x | Shows(r, entries, x) ensures Parse(r, Map(entries)) == Ok(x) {
        ParsesIff(r, Map(entries), x);
      }
    }
    Judged(r, p, bytes, known, now, windowCount);
    hide Decode, Parse, Shows, EncodeCore, SigningInput, SigningOctets, JudgeFirst, JudgeNext, GoodFirst, GoodNext,
         TextKeys, Judge;
  }

  /** No refusal is called an acceptance. */
  lemma {:induction false} RefusalsRefuse(r: Rules, p: Primitives, x: ParsedRecord, input: Octets, known: Known,
                                          now: u64, windowCount: u64)
    ensures JudgeFirst(r, p, x, input, known, now, windowCount) != Err(Accept)
    ensures known.previous.Some? ==>
              JudgeNext(r, p, x, input, known.previous.value, known, now, windowCount) != Err(Accept)
  {
    PowRefuses(p, x, windowCount);
    if known.previous.Some? {
      OwnRefuses(r, p, x, input, known.previous.value, known, windowCount);
    }
    hide FieldMap, Get, AllZero, PowCheck, OwnRules, AcceptsSuccessor, ControllingKey;
  }

  lemma {:induction false} PowRefuses(p: Primitives, x: ParsedRecord, windowCount: u64)
    ensures PowCheck(p, x, windowCount) != Fail(Accept)
  {
    hide CoreOf, Salt, TagSatisfies, RequiredBits, CharCount;
  }

  lemma {:induction false} OwnRefuses(r: Rules, p: Primitives, x: ParsedRecord, input: Octets, prev: PrevView,
                                      known: Known, windowCount: u64)
    ensures OwnRules(r, p, x, input, prev, known, windowCount) != Err(Accept)
  {
    PowRefuses(p, x, windowCount);
    hide FieldMap, Get, PowCheck;
  }

  /** How far a record gets. */
  lemma {:induction false} Judged(r: Rules, p: Primitives, bytes: Octets, known: Known, now: u64, windowCount: u64)
    ensures Judge(r, p, bytes, known, now, windowCount) == Accept
       <==> && |bytes| <= 4_096 && Decode(bytes).Ok? && Decode(bytes).value.Map?
            && Parse(r, Decode(bytes).value).Ok?
            && var entries, x := Decode(bytes).value.entries, Parse(r, Decode(bytes).value).value;
               && EncodeCore(entries).Ok?
               && var input := SigningInput(EncodeCore(entries).value, 1);
                  if x.op.Register? then JudgeFirst(r, p, x, input, known, now, windowCount).Ok?
                  else known.previous.Some?
                       && JudgeNext(r, p, x, input, known.previous.value, known, now, windowCount).Ok?
  {
    if Decode(bytes).Ok? {
      StrictDecodingIsCanonical(bytes);
      if Parse(r, Decode(bytes).value).Ok? {
        var x := Parse(r, Decode(bytes).value).value;
        ParsesIff(r, Decode(bytes).value, x);
        if EncodeCore(x.entries).Ok? {
          RefusalsRefuse(r, p, x, SigningInput(EncodeCore(x.entries).value, 1), known, now, windowCount);
        }
      }
    }
    hide Decode, Encode, Parse, EncodeCore, SigningInput, JudgeFirst, JudgeNext, ShowsWhat, ShowsWhen, ShowsEntries,
         ShowsProof, ShowsSignatures;
  }

  // ----- what a record is to those that come after -----

  /** The facts a builder reads from octets: those of any decoded map that has the fields, whatever else it
      holds; and its hash. */
  lemma {:induction false} PredecessorIff(blake: Blake, bytes: Octets, x: Predecessor)
    ensures FromBytes(blake, bytes) == Ok(x)
       <==> match Decode(bytes)
            case Ok(Map(entries)) =>
              var f := FieldMap(entries);
              && Get(f, OP) == Some(Text(Lit(OpName(x.op)))) && Get(f, SEQ) == Some(UInt(x.seqNo))
              && Get(f, NOT_BEFORE) == Some(UInt(x.notBefore)) && Get(f, NOT_AFTER) == Some(UInt(x.notAfter))
              && (Get(f, RECORDS) == Some(Array(x.entries)) || (Get(f, RECORDS) == None && x.entries == []))
              && x.hash == blake(HashingOctets(bytes)) && x.revoked == x.op.Revoke?
            case _ => false
    ensures FromBytes(blake, bytes).Err? ==> FromBytes(blake, bytes) == Err(BadPredecessor)
  {
    HashIs(blake, bytes);
    if Decode(bytes).Ok? && Decode(bytes).value.Map? {
      var f := FieldMap(Decode(bytes).value.entries);
      if Get(f, OP).Some? && Get(f, OP).value.Text? {
        OpNamed(Get(f, OP).value.text, x.op);
        OpNamed(Get(f, OP).value.text, Revoke);
        RevokeAlone(x.op);
      }
    }
    hide Decode, FieldMap, Get, Lit, ParseOp, OpName, RecordHash, HashingOctets;
  }

  lemma {:induction false} RevokeAlone(op: Op)
    ensures Lit(OpName(op)) == Lit(OpName(Revoke)) <==> op == Revoke
    ensures OpName(Revoke) == OpText(Revoke) && OpName(Transfer) == OpText(Transfer)
  {
    LitInjective(OpName(op), OpName(Revoke));
  }

  /** What a verifier reads of a predecessor: its fields, its hash, and who speaks for it while it settles, which
      for a TRANSFER must be supplied. */
  lemma {:induction false} ViewIff(blake: Blake, bytes: Octets, transferorKey: Option<Digest32>, v: PrevView)
    ensures ViewOf(blake, bytes, transferorKey) == Some(v)
       <==> match Decode(bytes)
            case Ok(Map(entries)) =>
              var f := FieldMap(entries);
              && Get(f, OP) == Some(Text(v.opText)) && Get(f, OWNER_KEY) == Some(Bytes(v.ownerKey))
              && Get(f, SEQ) == Some(UInt(v.seqNo)) && Get(f, NOT_BEFORE) == Some(UInt(v.notBefore))
              && Get(f, NOT_AFTER) == Some(UInt(v.notAfter)) && Get(f, SUITE) == Some(UInt(v.suite))
              && v.hash == blake(HashingOctets(bytes)) && !v.revoked
              && (if v.opText == Lit("TRANSFER") then transferorKey == Some(v.signerKey)
                  else v.signerKey == v.ownerKey)
            case _ => false
  {
    HashIs(blake, bytes);
    hide Decode, FieldMap, Get, Lit, RecordHash, HashingOctets;
  }
}
