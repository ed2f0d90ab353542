/** Records made by hand that the builders would refuse to make and the verifier accepts, one for each family
    on which the two part. */
module PartingWitnesses {
  import opened Base
  import opened Utf8
  import opened Cbor
  import opened CborFits
  import opened CborMembers
  import opened Domain
  import opened Pow
  import opened Record
  import opened RecordFacts
  import opened ProofBinding
  import opened Chain
  import opened Encodable
  import opened RecordLimits
  import opened RecordWitnesses
  import opened Verify
  import opened VerifyChain
  import opened VerifyWitnesses

  function LateUpdate(now: u64): Step {
    ToUpdate(SIGNER, Lit("one"), Lit("vayu"), now, [])
  }

  function HandOver(): Step {
    ToTransfer(SIGNER, OTHER, Lit("one"), Lit("vayu"), LATER)
  }

  function HandBack(now: u64): Step {
    ToTransfer(SIGNER, SIGNER, Lit("one"), Lit("vayu"), now)
  }

  /** An instant in the renewal window of the first term. */
  const RENEWAL: u64 := START + TERM_SECONDS - 1

  function LateRenewal(): Step {
    ToRenew(SIGNER, Lit("one"), Lit("vayu"), RENEWAL, 0, 1)
  }

  /** What a verifier knows that was told the record before, made by the signer, and nothing else. */
  function Told(before: Octets): Known {
    Known(ViewOf(EASY.blake, before, Some(SIGNER.publicKey)), false, false, false)
  }

  /** The builder refuses to make this step after that record. */
  ghost predicate Refuses(before: Octets, s: Step, e: BuildError)
    requires !s.ToRegister?
  {
    FromBytes(EASY.blake, before).Ok? && Next(EASY, FromBytes(EASY.blake, before).value, s) == Err(e)
  }

  /** The verifier takes this record after that one. */
  ghost predicate Takes(before: Octets, bytes: Octets, now: u64) {
    Judge(LAX, EASY, bytes, Told(before), now, 0) == Accept
  }

  /** So late that the end of grace no longer fits 64 bits. */
  const LAST_START: u64 := U64_LIMIT - 1 - TERM_SECONDS

  /** At the end of 64-bit time the builder refuses an update of a live name for an overflow; one made by hand
      is accepted. */
  lemma {:induction false} UpdateAtTheEnd() returns (first: Octets, update: Octets)
    ensures First(EASY, RegistrationAt(LAST_START)) == Ok(first)
    ensures var now := LAST_START + MIN_INTERVAL_SECONDS;
            && Refuses(first, LateUpdate(now), BuildError.Overflow)
            && Takes(first, update, now)
  {
    var now: u64 := LAST_START + MIN_INTERVAL_SECONDS;
    first := RegisteredAt(LAST_START);
    var s := RegistrationAt(LAST_START);
    assert IsChain(EASY, [s], [first]);
    hide First, FromBytes, ViewOf, Judge, Emitted, Crafted, Skeleton, Sign;
    RecordView(EASY, [s], [first], 0);
    var prev := FromBytes(EASY.blake, first).value;
    UpdateOverflows(prev, now);
    hide Next, ViewAfter;
    update := UpdateByHand(s, prev, Told(first), now);
  }

  lemma {:induction false} UpdateByHand(before: Step, prev: Predecessor, known: Known, now: u64)
    returns (bytes: Octets)
    requires prev.op == Register && prev.seqNo == 0 && OwnerAfter(before) == SIGNER.publicKey
    requires now == prev.notBefore + MIN_INTERVAL_SECONDS < prev.notAfter
    requires known == Known(Some(ViewAfter(before, prev)), false, false, false)
    ensures Judge(LAX, EASY, bytes, known, now, 0) == Accept
  {
    hide Judge, Emitted, Crafted, ViewAfter, JudgeNext;
    var d := Draft(Update, Lit("one"), Lit("vayu"), SIGNER.publicKey, 1, now, prev.notAfter, Array([]), Null,
                   prev.hash);
    bytes := Made(d, SIGNER, None);
    var entries, signature, coSignature := CraftedSays(d, SIGNER, None, bytes);
    NoClaimOf(d, SIGNER, None, bytes, entries, signature, coSignature);
    CraftedJudged(d, SIGNER, None, bytes, entries, signature, coSignature, None, known, now);
    UpdateAccepted(before, prev, d, bytes, entries, signature, coSignature, known, now);
  }

  lemma {:induction false} UpdateOverflows(prev: Predecessor, now: u64)
    requires prev.op == Register && !prev.revoked && prev.notBefore + MIN_INTERVAL_SECONDS <= now
    requires prev.notAfter + GRACE_SECONDS >= U64_LIMIT
    ensures Next(EASY, prev, LateUpdate(now)) == Err(BuildError.Overflow)
  {
    hide Lit;
  }

  /** A draft signed by hand. */
  lemma {:induction false} Made(d: Draft, signer: Identity, coSigner: Option<Identity>) returns (bytes: Octets)
    requires Plain(d) && d.proof == Null && Willing(signer) && (coSigner.Some? ==> Willing(coSigner.value))
    ensures Emitted(d, signer, coSigner, bytes) && EncodedLength(d.proof) <= 100
  {
    assert |Lit("one")| == 3 && |Lit("vayu")| == 4;
    EndFits(1);
    NoProofLength();
    hide Skeleton, Sign, Fits, Emitted;
    EasySign(d, signer, coSigner);
    SignEmits(d, signer, coSigner);
    bytes := Sign(Skeleton(d), signer, coSigner).value;
  }

  lemma {:induction false} UpdateAccepted(before: Step, prev: Predecessor, d: Draft, bytes: Octets, entries: seq<Entry>,
                                          signature: Signature, coSignature: Option<Signature>, known: Known, now: u64)
    requires Crafted(d, SIGNER, None, bytes, entries, signature, coSignature)
    requires d.op == Update && d.seqNo == prev.seqNo + 1 && d.ownerKey == SIGNER.publicKey && d.prevHash == prev.hash
    requires d.notBefore == now == prev.notBefore + MIN_INTERVAL_SECONDS && d.notAfter == prev.notAfter > now
    requires prev.op == Register && OwnerAfter(before) == SIGNER.publicKey && !known.revoked
    ensures JudgeNext(LAX, EASY, ParsedOf(d, entries, signature, coSignature, None),
                      SigningInput(EncodeCore(entries).value, LAUNCH_SUITE_BYTE), ViewAfter(before, prev), known,
                      now, 0).Ok?
  {
    OpTexts(prev.op);
    hide Decode, FieldMap, EncodeCore, SigningInput, Says, Get, Lit, OpText;
  }

  // ----- a TRANSFER while another settles -----

  /** The owner hands the name to another and, while that settles, back: the builder refuses to make the second
      transfer until the first has settled; made by hand, it is accepted. */
  lemma {:induction false} TransferWhileSettling() returns (first: Octets, second: Octets, third: Octets)
    ensures IsChain(EASY, [Registration("one", []), HandOver()], [first, second])
    ensures var now := LATER + MIN_INTERVAL_SECONDS;
            && Refuses(second, HandBack(now), Settling(LATER + SETTLEMENT_SECONDS))
            && Takes(second, third, now)
  {
    var now: u64 := LATER + MIN_INTERVAL_SECONDS;
    var s := HandOver();
    first, second := SecondOf(s);
    hide IsChain, FromBytes, ViewOf, Judge, Next, ViewAfter;
    var prev := FromBytes(EASY.blake, second).value;
    StillSettling(prev, now);
    third := TransferByHand(s, prev, Told(second), now);
  }

  /** The registered name, handed over or revoked 300 seconds later. */
  lemma {:induction false} SecondOf(s: Step) returns (first: Octets, second: Octets)
    requires s == HandOver() || s == Revocation("one")
    ensures IsChain(EASY, [Registration("one", []), s], [first, second]) && FromBytes(EASY.blake, second).Ok?
    ensures var prev := FromBytes(EASY.blake, second).value;
            && prev.op == OpOf(s) && prev.notBefore == LATER && prev.seqNo == 1 && prev.revoked == (prev.op == Revoke)
            && prev.notAfter == START + TERM_SECONDS
            && ViewOf(EASY.blake, second, Some(SIGNER.publicKey)) == Some(ViewAfter(s, prev))
  {
    hide First, FromBytes, ViewOf, Next, ViewAfter;
    first := Registered();
    var before := FromBytes(EASY.blake, first).value;
    if s.ToTransfer? {
      EasyTransfer(before, s);
    } else {
      EasyRevoke(before, s);
    }
    second := Next(EASY, before, s).value;
    var steps, records := [Registration("one", []), s], [first, second];
    assert IsChain(EASY, steps, records);
    RecordView(EASY, steps, records, 1);
    TransferKeepsExpiry(before, s, second);
  }

  lemma {:induction false} TransferByHand(before: Step, prev: Predecessor, known: Known, now: u64)
    returns (bytes: Octets)
    requires prev.op == Transfer && prev.seqNo == 1
    requires before.identity == SIGNER && OwnerAfter(before) == OTHER.publicKey
    requires now == prev.notBefore + MIN_INTERVAL_SECONDS && now + SETTLEMENT_SECONDS <= prev.notAfter
    requires known == Known(Some(ViewAfter(before, prev)), false, false, false)
    ensures Judge(LAX, EASY, bytes, known, now, 0) == Accept
  {
    hide Judge, Emitted, Crafted, ViewAfter, JudgeNext;
    var d := Draft(Transfer, Lit("one"), Lit("vayu"), SIGNER.publicKey, 2, now, prev.notAfter, Array([]), Null,
                   prev.hash);
    bytes := Made(d, SIGNER, Some(SIGNER));
    var entries, signature, coSignature := CraftedSays(d, SIGNER, Some(SIGNER), bytes);
    NoClaimOf(d, SIGNER, Some(SIGNER), bytes, entries, signature, coSignature);
    CraftedJudged(d, SIGNER, Some(SIGNER), bytes, entries, signature, coSignature, None, known, now);
    TransferAccepted(before, prev, d, bytes, entries, signature, coSignature, known, now);
  }

  lemma {:induction false} TransferKeepsExpiry(before: Predecessor, s: Step, bytes: Octets)
    requires (s.ToTransfer? || s.ToRevoke?) && Next(EASY, before, s) == Ok(bytes)
    ensures FromBytes(EASY.blake, bytes).Ok? && FromBytes(EASY.blake, bytes).value.notAfter == before.notAfter
  {
    hide Next, FromBytes, Emitted, FieldIn;
    var d := NextCarries(EASY, before, s, bytes);
  }

  lemma {:induction false} StillSettling(prev: Predecessor, now: u64)
    requires prev.op == Transfer && now < prev.notBefore + SETTLEMENT_SECONDS < U64_LIMIT
    ensures Next(EASY, prev, HandBack(now))
         == Err(Settling(prev.notBefore + SETTLEMENT_SECONDS))
  {
    hide Lit;
  }

  lemma {:induction false} TransferAccepted(before: Step, prev: Predecessor, d: Draft, bytes: Octets,
                                            entries: seq<Entry>, signature: Signature,
                                            coSignature: Option<Signature>, known: Known, now: u64)
    requires Crafted(d, SIGNER, Some(SIGNER), bytes, entries, signature, coSignature)
    requires d.op == Transfer && d.seqNo == prev.seqNo + 1 && d.ownerKey == SIGNER.publicKey && d.prevHash == prev.hash
    requires d.notBefore == now == prev.notBefore + MIN_INTERVAL_SECONDS && d.notAfter == prev.notAfter
    requires prev.notAfter >= now + SETTLEMENT_SECONDS && prev.notBefore + SETTLEMENT_SECONDS < U64_LIMIT
    requires prev.op == Transfer && before.identity == SIGNER && OwnerAfter(before) == OTHER.publicKey && !known.revoked
    ensures JudgeNext(LAX, EASY, ParsedOf(d, entries, signature, coSignature, None),
                      SigningInput(EncodeCore(entries).value, LAUNCH_SUITE_BYTE), ViewAfter(before, prev), known,
                      now, 0).Ok?
  {
    OpTexts(prev.op);
    KeysDiffer();
    hide Decode, FieldMap, EncodeCore, SigningInput, Says, Get, Lit, OpText;
  }

  // ----- a RENEW after REVOKE -----

  /** A revoked name is renewed: the builder refuses for good; made by hand, the renewal is accepted by a
      verifier that knows the revocation as a record and was not told of it otherwise. */
  lemma {:induction false} RenewalOfRevoked() returns (first: Octets, second: Octets, third: Octets)
    ensures IsChain(EASY, [Registration("one", []), Revocation("one")], [first, second])
    ensures Refuses(second, LateRenewal(), NotRenewable)
    ensures Takes(second, third, RENEWAL)
  {
    var s := Revocation("one");
    first, second := SecondOf(s);
    hide IsChain, FromBytes, ViewOf, Judge, Next, ViewAfter;
    var prev := FromBytes(EASY.blake, second).value;
    RevokedForGood(prev);
    third := RenewalByHand(s, prev, Told(second));
  }

  lemma {:induction false} RenewalByHand(before: Step, prev: Predecessor, known: Known) returns (bytes: Octets)
    requires prev.op == Revoke && prev.seqNo == 1 && OwnerAfter(before) == SIGNER.publicKey
    requires prev.notBefore == LATER && prev.notAfter == START + TERM_SECONDS
    requires known == Known(Some(ViewAfter(before, prev)), false, false, false)
    ensures Judge(LAX, EASY, bytes, known, RENEWAL, 0) == Accept
  {
    hide Judge, Emitted, Crafted, ViewAfter, JudgeNext, Demanded, Proven, ProofIn;
    var bits := Demanded();
    DemandedSmall();
    var d := Draft(Renew, Lit("one"), Lit("vayu"), SIGNER.publicKey, 2, RENEWAL, prev.notAfter + TERM_SECONDS,
                   Array([]), Map(Proof(bits, ZERO_NONCE)), prev.hash);
    var made, entries, signature, coSignature, nonce, drafted := ProvenByHand(d, bits);
    bytes := made;
    var claim := Some(Claim(bits, nonce));
    CraftedJudged(drafted, SIGNER, None, bytes, entries, signature, coSignature, claim, known, RENEWAL);
    RenewalAccepted(before, prev, drafted, bytes, entries, signature, coSignature, nonce, known);
  }

  lemma {:induction false} DemandedSmall()
    ensures Demanded() <= 18
  {
    RateTerm(CharCount(Lit("one")), 0, 1);
  }

  /** The difficulty of a label of three characters at the rate floor. */
  function Demanded(): u32 {
    RateTerm(CharCount(Lit("one")), 0, 1);
    RequiredBits(CharCount(Lit("one")), 0)
  }

  lemma {:induction false} RevokedForGood(prev: Predecessor)
    requires prev.op == Revoke && prev.revoked && prev.notBefore + MIN_INTERVAL_SECONDS <= RENEWAL
    ensures Next(EASY, prev, LateRenewal()) == Err(NotRenewable)
  {
    hide Lit;
  }

  /** A draft proved and signed by hand. */
  lemma {:induction false} ProvenByHand(d: Draft, bits: u32)
    returns (bytes: Octets, entries: seq<Entry>, signature: Signature, coSignature: Option<Signature>, nonce: Nonce,
             drafted: Draft)
    requires Plain(d) && d.proof == Map(Proof(bits, ZERO_NONCE)) && bits <= 256
    ensures drafted == d.(proof := drafted.proof)
    ensures Crafted(drafted, SIGNER, None, bytes, entries, signature, coSignature)
    ensures Proven(EASY, entries, bits, nonce) && ProofIn(FieldMap(entries)) == Ok(Some(Claim(bits, nonce)))
  {
    assert |Lit("one")| == 3 && |Lit("vayu")| == 4;
    EndFits(1);
    ProofFits(bits, ZERO_NONCE, 1);
    hide Skeleton, Sign, Fits, Emitted, Proof, Solve, Decode, ProveAndSign, Crafted, FieldMap, ProofIn, Proven;
    EasySolve(d, bits, 1);
    EasyProve(d, bits, 1);
    bytes := ProveAndSign(EASY, Skeleton(d), bits, SIGNER, None, 1).value;
    ProveEmits(EASY, d, bits, SIGNER, None, 1);
    var solved := Solve(EASY.sha, EASY.argon, Skeleton(d), bits, 1).value;
    drafted := d.(proof := Map(Proof(bits, solved)));
    ProofIsLong(bits, solved);
    entries, signature, coSignature := CraftedSays(drafted, SIGNER, None, bytes);
    ProofHolds(EASY, d, bits, SIGNER, 1, bytes);
    CraftedDecodes(drafted, bytes, entries, signature, coSignature);
    nonce :| Proven(EASY, entries, bits, nonce);
    ProvenClaims(entries, bits, nonce);
  }

  lemma {:induction false} CraftedDecodes(d: Draft, bytes: Octets, entries: seq<Entry>, signature: Signature,
                                          coSignature: Option<Signature>)
    requires Crafted(d, SIGNER, None, bytes, entries, signature, coSignature)
    ensures Decode(bytes) == Ok(Map(entries))
  {
  }

  lemma {:induction false} ProvenClaims(entries: seq<Entry>, bits: u32, nonce: Nonce)
    requires Proven(EASY, entries, bits, nonce)
    ensures ProofIn(FieldMap(entries)) == Ok(Some(Claim(bits, nonce)))
  {
    hide FieldMap, ProofIn, Salt, TagSatisfies, Get, Proof;
    ClaimSaid(FieldMap(entries), bits, nonce);
  }

  lemma {:induction false} RenewalAccepted(before: Step, prev: Predecessor, d: Draft, bytes: Octets,
                                           entries: seq<Entry>, signature: Signature,
                                           coSignature: Option<Signature>, nonce: Nonce, known: Known)
    requires Crafted(d, SIGNER, None, bytes, entries, signature, coSignature)
    requires Proven(EASY, entries, Demanded(), nonce)
    requires d.op == Renew && d.seqNo == prev.seqNo + 1 && d.ownerKey == SIGNER.publicKey && d.prevHash == prev.hash
    requires d.notBefore == RENEWAL && prev.notBefore == LATER && prev.notAfter == START + TERM_SECONDS
    requires d.notAfter == prev.notAfter + TERM_SECONDS && d.name == Lit("one")
    requires prev.op == Revoke && OwnerAfter(before) == SIGNER.publicKey && !known.revoked && !known.powVerified
    ensures JudgeNext(LAX, EASY, ParsedOf(d, entries, signature, coSignature, Some(Claim(Demanded(), nonce))),
                      SigningInput(EncodeCore(entries).value, LAUNCH_SUITE_BYTE), ViewAfter(before, prev), known,
                      RENEWAL, 0).Ok?
  {
    OpTexts(prev.op);
    hide Decode, FieldMap, EncodeCore, SigningInput, Says, Get, Lit, OpText, Proven, PowCheck, Demanded, JudgeNext,
         OwnRules, ViewAfter;
    var record := ParsedOf(d, entries, signature, coSignature, Some(Claim(Demanded(), nonce)));
    DemandMet(record, nonce);
    ViewOfRevoked(before, prev);
    RevokedRules(ViewAfter(before, prev), record, SigningInput(EncodeCore(entries).value, LAUNCH_SUITE_BYTE), known);
  }

  lemma {:induction false} ViewOfRevoked(before: Step, prev: Predecessor)
    requires prev.op == Revoke
    ensures var view := ViewAfter(before, prev);
            && view.opText != Lit(OpText(Transfer)) && view.seqNo == prev.seqNo && view.notBefore == prev.notBefore
            && view.notAfter == prev.notAfter && view.ownerKey == OwnerAfter(before) && view.hash == prev.hash
            && view.suite == LAUNCH_SUITE_BYTE && !view.revoked
  {
    OpTexts(prev.op);
    hide Lit, OpText;
  }

  /** A renewal of a revoked name, step by step. */
  lemma {:induction false} RevokedRules(view: PrevView, record: ParsedRecord, input: Octets, known: Known)
    requires view.opText != Lit(OpText(Transfer)) && view.notBefore == LATER && view.notAfter == START + TERM_SECONDS
    requires view.suite == LAUNCH_SUITE_BYTE && !view.revoked && !known.revoked && !known.powVerified
    requires record.op == Renew && record.seqNo == view.seqNo + 1 && record.notBefore == RENEWAL
    requires record.notAfter == view.notAfter + TERM_SECONDS && record.ownerKey == view.ownerKey
    requires Get(FieldMap(record.entries), PREV_HASH) == Some(Bytes(view.hash)) && record.claim.Some?
    requires LAX.checks(view.ownerKey, input, record.sig) && PowCheck(EASY, record, 0).Pass?
    ensures JudgeNext(LAX, EASY, record, input, view, known, RENEWAL, 0).Ok?
  {
    hide FieldMap, Get, Lit, OpText, PowCheck;
  }

  lemma {:induction false} DemandMet(record: ParsedRecord, nonce: Nonce)
    requires record.name == Lit("one") && record.claim == Some(Claim(Demanded(), nonce))
    requires Proven(EASY, record.entries, Demanded(), nonce) && EncodeCore(record.entries).Ok?
    requires Get(FieldMap(record.entries), CO_SIG) == None
    ensures PowCheck(EASY, record, 0).Pass?
  {
    CoreOfEncoded(record.entries);
    hide FieldMap, Get, EncodeCore, CoreOf, Proven, RequiredBits, CharCount, PowCheck;
    PowJudged(EASY, record, Demanded(), nonce, 0);
  }
}
