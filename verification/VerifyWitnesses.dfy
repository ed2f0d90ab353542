/** Records that the builders emit and the verifier refuses, one for each of the checks that only the
    verifier makes. */
module VerifyWitnesses {
  import opened Base
  import opened Utf8
  import opened Cbor
  import opened CborFits
  import opened CborMembers
  import opened Domain
  import opened Pow
  import opened Record
  import opened RecordFacts
  import opened Chain
  import opened Encodable
  import opened RecordLimits
  import opened RecordWitnesses
  import opened Verify
  import opened VerifyChain

  // ----- rules that admit as much as they can -----

  predicate AnyText(text: Str) {
    true
  }

  /** Every alias names `one.vayu`. */
  function OneTarget(text: Str): Option<(Str, Str)> {
    Some((Lit("one"), Lit("vayu")))
  }

  predicate NoKey(key: Digest32) {
    false
  }

  predicate ZeroKey(key: Digest32) {
    key == Fill(32, 0)
  }

  /** Keys and signatures are of one repeated octet; the octets must be the same. */
  predicate SameOctet(key: Digest32, input: Octets, signature: Signature) {
    key == Fill(32, signature[0])
  }

  const LAX: Rules := Rules(AnyText, AnyText, OneTarget, NoKey, SameOctet)

  function OtherConsent(input: Octets): Option<Signature> {
    Some(Fill(64, 1))
  }

  const OTHER: Identity := Identity(Fill(32, 1), OtherConsent)

  lemma {:induction false} KeysDiffer()
    ensures SIGNER.publicKey != OTHER.publicKey
  {
    assert SIGNER.publicKey[0] != OTHER.publicKey[0];
  }

  /** These two identities are attributable under these rules. */
  lemma {:induction false} TwoBind(a: Identity, b: Identity, smallOrder: Digest32 -> bool, m: Octets)
    requires (a == SIGNER || a == OTHER) && (b == SIGNER || b == OTHER)
    ensures Binds(LAX.(smallOrder := smallOrder), a, b.publicKey, m)
  {
    KeysDiffer();
  }

  // ----- registrations -----

  /** A chain of one registration by this signer. */
  lemma {:induction false} RegistrationJudged(entries: seq<RecordEntry>, smallOrder: Digest32 -> bool)
    returns (record: Octets)
    requires EntriesField(entries).Ok? && forall i :: 0 <= i < |entries| ==> InMemory(entries[i])
    ensures First(EASY, Registration("one", entries)) == Ok(record)
    ensures Judge(LAX.(smallOrder := smallOrder), EASY, record, Known(None, false, false, false), START, 0)
         == FirstExpected(LAX.(smallOrder := smallOrder), Registration("one", entries),
                          Known(None, false, false, false), START, 0)
  {
    hide First, EntriesField, Judge, FirstExpected;
    var s := Registration("one", entries);
    EasyRegister(s);
    record := First(EASY, s).value;
    TwoBind(SIGNER, SIGNER, smallOrder, InputOf(record));
    assert IsChain(EASY, [s], [record]);
    FirstVerdict(LAX.(smallOrder := smallOrder), EASY, [s], [record], Known(None, false, false, false), START, 0);
  }

  /** A name that is its own alias is registered, and refused. */
  lemma {:induction false} SelfAlias() returns (record: Octets)
    ensures First(EASY, Registration("one", [RecordEntry(Alias(Lit("one"), Lit("vayu")), None)])) == Ok(record)
    ensures Judge(LAX, EASY, record, Known(None, false, false, false), START, 0) == Reject(Code.BadRecordEntry)
  {
    var e := RecordEntry(Alias(Lit("one"), Lit("vayu")), None);
    OneAlias(e);
    hide First, Judge, EntriesField, EntriesSize, EntrySize;
    record := RegistrationJudged([e], NoKey);
    assert LAX.(smallOrder := NoKey) == LAX;
    assert !Admissible(LAX, Lit("one"), Lit("vayu"), [e][0]);
    ShortRegistration([e]);
  }

  lemma {:induction false} OneAlias(e: RecordEntry)
    requires e == RecordEntry(Alias(Lit("one"), Lit("vayu")), None)
    ensures EntriesField([e]).Ok? && InMemory(e) && EntriesSize([e]) <= 100
  {
    assert |Lit("one")| == 3 && |Lit("vayu")| == 4;
    assert [e][..0] == [];
    assert AliasCount([e]) == 1 && EntryMaps([]).Ok?;
  }

  lemma {:induction false} ShortRegistration(entries: seq<RecordEntry>)
    requires EntriesSize(entries) <= 100
    ensures RegisterLength(Registration("one", entries)) <= MAX_RECORD_BYTES
  {
    hide EntriesSize;
    FewCharacters(Lit("one"));
    assert |Lit("one")| == 3 && |Lit("vayu")| == 4;
  }

  /** A registration under an unusable key is emitted, and refused. */
  lemma {:induction false} UnusableKey() returns (record: Octets)
    ensures First(EASY, Registration("one", [])) == Ok(record)
    ensures Judge(LAX.(smallOrder := ZeroKey), EASY, record, Known(None, false, false, false), START, 0)
         == Reject(Code.BadKey)
  {
    hide First, Judge, EntriesField;
    NoEntriesPass();
    record := RegistrationJudged([], ZeroKey);
    ShortRegistration([]);
  }

  /** A registration of fourteen notes is emitted, and refused for its size. */
  lemma {:induction false} TooLongRecord() returns (record: Octets)
    ensures First(EASY, Registration("one", Notes(14))) == Ok(record)
    ensures Judge(LAX, EASY, record, Known(None, false, false, false), START, 0) == Reject(Code.TooLarge)
  {
    TooManyNotes(14);
    hide First, Parse, Decode, Encode, JudgeFirst, JudgeNext, EncodeCore;
    record := First(EASY, Registration("one", Notes(14))).value;
  }

  // ----- successors -----

  /** A name registered without entries, as its successors see it. */
  lemma {:induction false} RegisteredAt(start: u64) returns (record: Octets)
    requires start + TERM_SECONDS < U64_LIMIT
    ensures First(EASY, RegistrationAt(start)) == Ok(record) && FromBytes(EASY.blake, record).Ok?
    ensures var prev := FromBytes(EASY.blake, record).value;
            && prev.seqNo == 0 && prev.op == Register && prev.notBefore == start
            && prev.notAfter == start + TERM_SECONDS
            && !prev.revoked && prev.entries == []
  {
    hide First, FromBytes, FieldIn, Emitted, EntriesField;
    NoEntriesPass();
    var s := RegistrationAt(start);
    EasyRegister(s);
    record := First(EASY, s).value;
    var d := FirstCarries(EASY, s, record);
    RegisteredEntries(EASY, s, record);
    PredecessorEntries(EASY.blake, record);
    NoneStands();
  }

  function RegistrationAt(start: u64): Step {
    ToRegister(SIGNER, Lit("one"), Lit("vayu"), start, [], 0, None, 1)
  }

  lemma {:induction false} Registered() returns (record: Octets)
    ensures First(EASY, Registration("one", [])) == Ok(record) && FromBytes(EASY.blake, record).Ok?
    ensures var prev := FromBytes(EASY.blake, record).value;
            && prev.seqNo == 0 && prev.op == Register && prev.notBefore == START
            && prev.notAfter == START + TERM_SECONDS
            && !prev.revoked && prev.entries == []
  {
    hide First, FromBytes;
    record := RegisteredAt(START);
  }

  const LATER: u64 := START + MIN_INTERVAL_SECONDS

  /** Judging the second record of a chain by these two. */
  lemma {:induction false} SecondJudged(first: Octets, s: Step, second: Octets)
    requires First(EASY, Registration("one", [])) == Ok(first) && Follows(EASY, first, s, second)
    requires Signer(s) == SIGNER || Signer(s) == OTHER
    requires s.ToTransfer? ==> s.recipient == SIGNER || s.recipient == OTHER
    ensures var steps, records := [Registration("one", []), s], [first, second];
            && IsChain(EASY, steps, records) && |records| == 2
            && Judge(LAX, EASY, second, Knowing(EASY, steps, records, 1), s.now, 0)
               == NextExpected(LAX, steps[0], FromBytes(EASY.blake, first).value, s, EntriesAt(steps, 1),
                               Knowing(EASY, steps, records, 1), s.now, 0)
  {
    hide First, Follows, FromBytes, Judge, NextExpected, EntriesAt, ViewOf;
    var steps, records := [Registration("one", []), s], [first, second];
    assert IsChain(EASY, steps, records);
    assert LAX.(smallOrder := NoKey) == LAX;
    TwoBind(Signer(s), Signer(s), NoKey, InputOf(second));
    TwoBind(Signer(s), SIGNER, NoKey, InputOf(second));
    if s.ToTransfer? {
      TwoBind(s.recipient, s.recipient, NoKey, InputOf(second));
    }
    assert Attributable(LAX, steps, records, 1);
    NextVerdict(LAX, EASY, steps, records, 1, Knowing(EASY, steps, records, 1), s.now, 0);
  }

  /** A stranger's revocation is emitted, and refused for its signature. */
  lemma {:induction false} Stranger() returns (first: Octets, second: Octets)
    ensures var steps := [Registration("one", []), ToRevoke(OTHER, Lit("one"), Lit("vayu"), LATER)];
            && IsChain(EASY, steps, [first, second])
            && Judge(LAX, EASY, second, Knowing(EASY, steps, [first, second], 1), LATER, 0) == Reject(Code.BadSig)
  {
    hide First, Next, FromBytes, Judge, ViewOf;
    var s := ToRevoke(OTHER, Lit("one"), Lit("vayu"), LATER);
    first := Registered();
    var prev := FromBytes(EASY.blake, first).value;
    EasyRevoke(prev, s);
    second := Next(EASY, prev, s).value;
    SecondJudged(first, s, second);
    SuccessorSize(EASY, prev, s, second);
    assert |Lit("one")| == 3 && |Lit("vayu")| == 4;
    EndingFits(EASY, prev, s, second);
    KeysDiffer();
  }

  /** A transfer to the owner itself is emitted, and refused. */
  lemma {:induction false} TransferToSelf() returns (first: Octets, second: Octets)
    ensures var steps := [Registration("one", []), ToTransfer(SIGNER, SIGNER, Lit("one"), Lit("vayu"), LATER)];
            && IsChain(EASY, steps, [first, second])
            && Judge(LAX, EASY, second, Knowing(EASY, steps, [first, second], 1), LATER, 0) == Reject(Code.BadOwner)
  {
    hide First, Next, FromBytes, Judge, ViewOf;
    var s := ToTransfer(SIGNER, SIGNER, Lit("one"), Lit("vayu"), LATER);
    first := Registered();
    var prev := FromBytes(EASY.blake, first).value;
    EasyTransfer(prev, s);
    second := Next(EASY, prev, s).value;
    SecondJudged(first, s, second);
    assert |Lit("one")| == 3 && |Lit("vayu")| == 4;
    NoEntriesLength();
    assert SuccessorLength(prev, s) <= MAX_RECORD_BYTES;
  }

  // ----- records made by hand -----

  /** A draft of this name without entries, as a verifier can parse it. */
  predicate Plain(d: Draft) {
    && d.name == Lit("one") && d.tld == Lit("vayu") && d.records == Array([]) && d.notBefore <= d.notAfter
    && d.seqNo <= MAX_SEQ + 1
  }

  lemma {:induction false} NoEntriesIn(fields: Fields)
    requires Get(fields, RECORDS) == Some(Array([]))
    ensures EntriesIn(LAX, Lit("one"), Lit("vayu"), fields) == Ok(0)
  {
    hide Get, Lit;
  }

  lemma {:induction false} PlainShort(d: Draft, cosigned: bool)
    requires Plain(d) && EncodedLength(d.proof) <= 100
    ensures RecordLength(d, cosigned) <= MAX_RECORD_BYTES
  {
    assert |Lit("one")| == 3 && |Lit("vayu")| == 4;
    OpTextShort(d.op);
    NoEntriesLength();
  }

  /** What a plain record is to a verifier, whoever made it. */
  ghost predicate Crafted(d: Draft, signer: Identity, coSigner: Option<Identity>, bytes: Octets, entries: seq<Entry>,
                          signature: Signature, coSignature: Option<Signature>)
  {
    && Decode(bytes) == Ok(Map(entries)) && EncodeCore(entries).Ok? && |bytes| <= MAX_RECORD_BYTES
    && Get(FieldMap(entries), RECORDS) == Some(Array([]))
    && Get(FieldMap(entries), PREV_HASH) == Some(Bytes(d.prevHash))
    && (coSigner.None? ==> Get(FieldMap(entries), CO_SIG) == None)
    && Says(FieldMap(entries), d, signature, coSignature)
    && var input := SigningInput(EncodeCore(entries).value, LAUNCH_SUITE_BYTE);
       && signer.sign(input) == Some(signature)
       && (coSigner.Some? ==> coSignature.Some? && coSigner.value.sign(input) == coSignature)
  }

  lemma {:induction false} CraftedSays(d: Draft, signer: Identity, coSigner: Option<Identity>, bytes: Octets)
    returns (entries: seq<Entry>, signature: Signature, coSignature: Option<Signature>)
    requires Emitted(d, signer, coSigner, bytes) && Plain(d) && EncodedLength(d.proof) <= 100
    ensures Crafted(d, signer, coSigner, bytes, entries, signature, coSignature)
  {
    hide Decode, FieldMap, EncodeCore, SigningInput, Says, Get, Emitted, RecordLength;
    entries, signature, coSignature := EmittedSays(d, signer, coSigner, bytes);
    SaysRecords(FieldMap(entries), d, signature, coSignature);
    CanonNothing();
    EmittedLength(d, signer, coSigner, bytes);
    PlainShort(d, coSigner.Some?);
  }

  /** Judged like any other successor, once it parses. */
  lemma {:induction false} CraftedJudged(d: Draft, signer: Identity, coSigner: Option<Identity>, bytes: Octets,
                                         entries: seq<Entry>, signature: Signature, coSignature: Option<Signature>,
                                         claim: Option<Claim>, known: Known, now: u64)
    requires Crafted(d, signer, coSigner, bytes, entries, signature, coSignature) && Plain(d)
    requires ProofIn(FieldMap(entries)) == Ok(claim) && ProofRule(d.op, claim).Pass? && d.op != Register
    ensures d.seqNo > MAX_SEQ ==> Judge(LAX, EASY, bytes, known, now, 0) == Reject(Code.BadSeq)
    ensures d.seqNo <= MAX_SEQ && known.previous.Some? ==>
              var judged := JudgeNext(LAX, EASY, ParsedOf(d, entries, signature, coSignature, claim),
                                      SigningInput(EncodeCore(entries).value, LAUNCH_SUITE_BYTE), known.previous.value,
                                      known, now, 0);
              Judge(LAX, EASY, bytes, known, now, 0) == if judged.Ok? then Accept else judged.error
  {
    hide Decode, FieldMap, EncodeCore, SigningInput, Says, Get, JudgeFirst, JudgeNext, Parse, Standings, ProofIn,
         EntriesIn, Lit;
    NoEntriesIn(FieldMap(entries));
    ParsesSaid(LAX, entries, d, signature, coSignature, claim);
    StandingsFrom(LAX, EASY, bytes, entries, known, now, 0);
  }

  lemma {:induction false} NoProofLength()
    ensures EncodedLength(Null) == 1
  {
  }

  /** The successor of a record with the largest sequence number is emitted, and refused, whatever else is
      known. */
  lemma {:induction false} BeyondLastSeqRefused() returns (before: Octets, after: Octets)
    ensures FromBytes(EASY.blake, before).Ok? && FromBytes(EASY.blake, before).value.seqNo == MAX_SEQ
    ensures Follows(EASY, before, Revocation("one"), after)
    ensures forall known, now :: Judge(LAX, EASY, after, known, now, 0) == Reject(Code.BadSeq)
  {
    hide FromBytes, Next, Emitted, FieldIn, Judge, Crafted;
    before, after := BeyondLastSeq();
    var prev := FromBytes(EASY.blake, before).value;
    var d := NextCarries(EASY, prev, Revocation("one"), after);
    NextInTime(EASY, prev, Revocation("one"));
    NoProofLength();
    var entries, signature, coSignature := CraftedSays(d, SIGNER, None, after);
    NoClaimOf(d, SIGNER, None, after, entries, signature, coSignature);
    forall known, now ensures Judge(LAX, EASY, after, known, now, 0) == Reject(Code.BadSeq) {
      CraftedJudged(d, SIGNER, None, after, entries, signature, coSignature, None, known, now);
    }
  }

  lemma {:induction false} NoClaimOf(d: Draft, signer: Identity, coSigner: Option<Identity>, bytes: Octets,
                                     entries: seq<Entry>, signature: Signature, coSignature: Option<Signature>)
    requires Crafted(d, signer, coSigner, bytes, entries, signature, coSignature) && d.proof == Null
    ensures ProofIn(FieldMap(entries)) == Ok(None)
  {
    hide Decode, FieldMap, EncodeCore, SigningInput, Get, Says, ProofIn;
    NoClaim(FieldMap(entries), d, signature, coSignature);
  }
}
