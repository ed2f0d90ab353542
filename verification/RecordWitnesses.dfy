/** Records that the builders emit and their documentation does not foresee, under primitives for which
    every name is allowed, every search ends at once and every signature is made. */
module RecordWitnesses {
  import opened Base
  import opened Utf8
  import opened Cbor
  import opened CborFits
  import opened CborMembers
  import opened Domain
  import opened Pow
  import opened Record
  import opened RecordFacts
  import opened Chain
  import opened Encodable
  import opened RecordLimits
  import opened Verify
  import Cid

  function Zeros(message: Octets): Digest32 {
    Fill(32, 0)
  }

  function ZeroSha(message: Octets): Cid.Digest {
    Fill(32, 0)
  }

  function ZeroArgon(nonce: Octets, salt: Octets): Octets {
    Fill(32, 0)
  }

  predicate AnyName(name: Str, tld: Str) {
    true
  }

  function Consent(input: Octets): Option<Signature> {
    Some(Fill(64, 0))
  }

  const EASY: Primitives := Primitives(ZeroSha, Zeros, ZeroArgon, AnyName)

  const SIGNER: Identity := Identity(Fill(32, 0), Consent)

  // ----- easy builders -----

  lemma {:induction false} ZeroTag(bits: nat)
    requires bits <= 256
    ensures TagSatisfies(Fill(32, 0), bits)
  {
    FillValues(32);
  }

  lemma {:induction false} EasySolve(d: Draft, bits: u32, limit: u64)
    requires DraftFits(d) && d.proof == Map(Proof(bits, ZERO_NONCE)) && bits <= 256 && limit > 0
    ensures Solve(EASY.sha, EASY.argon, Skeleton(d), bits, limit).Ok?
  {
    hide Skeleton, DraftFits, TagSatisfies, Proof, SaltPreimage;
    SaltDerives(d, bits, ZERO_NONCE);
    ZeroTag(bits);
    assert Wins(EASY.argon, Salt(EASY.sha, Skeleton(d)).value, bits, 1);
  }

  /** A registration by this signer succeeds whenever its entries and its term do. */
  lemma {:induction false} EasyRegister(s: Step)
    requires s.ToRegister? && s.identity == SIGNER && s.bits.None? && s.limit > 0 && StepInMemory(s)
    requires EntriesField(s.entries).Ok? && s.now + TERM_SECONDS < U64_LIMIT
    ensures First(EASY, s).Ok?
  {
    hide ProveAndSign, Skeleton, Proof, EntryMaps, CharCount, Fits, Solve, Sign, EntriesField;
    RateTerm(CharCount(s.name), s.windowCount, 1);
    var bits: u32 := RequiredBits(CharCount(s.name), s.windowCount);
    TypedFieldFits(s.entries);
    ProofFits(bits, ZERO_NONCE, 1);
    var draft := Draft(Register, s.name, s.tld, s.identity.publicKey, 0, s.now, s.now + TERM_SECONDS,
                       EntriesField(s.entries).value, Map(Proof(bits, ZERO_NONCE)), ZERO_HASH);
    EasySolve(draft, bits, s.limit);
    EasyProve(draft, bits, s.limit);
  }

  lemma {:induction false} EasyProve(d: Draft, bits: u32, limit: u64)
    requires DraftFits(d) && d.proof == Map(Proof(bits, ZERO_NONCE))
    requires Solve(EASY.sha, EASY.argon, Skeleton(d), bits, limit).Ok?
    ensures ProveAndSign(EASY, Skeleton(d), bits, SIGNER, None, limit).Ok?
  {
    hide Skeleton, Proof, Solve, Fits;
    var nonce := Solve(EASY.sha, EASY.argon, Skeleton(d), bits, limit).value;
    var proof := Map(Proof(bits, nonce));
    ProofFits(bits, nonce, 1);
    ProofPut(d, proof);
    EasySign(d.(proof := proof), SIGNER, None);
  }

  /** Signs whatever it is shown. */
  ghost predicate Willing(a: Identity) {
    forall m: Octets :: a.sign(m).Some?
  }

  lemma {:induction false} EasySign(d: Draft, signer: Identity, coSigner: Option<Identity>)
    requires DraftFits(d) && Willing(signer) && (coSigner.Some? ==> Willing(coSigner.value))
    ensures Sign(Skeleton(d), signer, coSigner).Ok?
  {
    hide Skeleton, DraftFits, Signed, Encode;
    SkeletonFits(d);
    forall s: Signature, c: Option<Signature> ensures Encode(Map(Signed(Skeleton(d), s, c))).Ok? {
      SignedFits(d, s, c);
    }
  }

  /** A revocation by a willing signer succeeds whenever the time checks pass and the sequence number fits. */
  lemma {:induction false} EasyRevoke(prev: Predecessor, s: Step)
    requires s.ToRevoke? && Willing(s.identity) && StepInMemory(s)
    requires Preamble(prev, s.now, false).Pass? && prev.seqNo + 1 < U64_LIMIT
    ensures Next(EASY, prev, s).Ok?
  {
    hide Skeleton, Sign, Fits, Preamble;
    EndFits(1);
    EasySign(Draft(Revoke, s.name, s.tld, s.identity.publicKey, prev.seqNo + 1, s.now, prev.notAfter, Array([]), Null,
                   prev.hash), s.identity, None);
  }

  /** So does a transfer of a name without entries, when enough of its term is left. */
  lemma {:induction false} EasyTransfer(prev: Predecessor, s: Step)
    requires s.ToTransfer? && Willing(s.identity) && Willing(s.recipient) && StepInMemory(s) && prev.entries == []
    requires Preamble(prev, s.now, false).Pass? && prev.seqNo + 1 < U64_LIMIT
    requires prev.notAfter - s.now >= SETTLEMENT_SECONDS
    ensures Next(EASY, prev, s).Ok?
  {
    hide Skeleton, Sign, Fits, Preamble;
    EndFits(1);
    EasySign(Draft(Transfer, s.name, s.tld, s.recipient.publicKey, prev.seqNo + 1, s.now, prev.notAfter, Array([]),
                   Null, prev.hash), s.identity, Some(s.recipient));
  }

  // ----- two names in one chain -----

  const START: u64 := 1_000_000

  function Registration(name: Name, entries: seq<RecordEntry>): Step {
    ToRegister(SIGNER, Lit(name), Lit("vayu"), START, entries, 0, None, 1)
  }

  function Revocation(name: Name): Step {
    ToRevoke(SIGNER, Lit(name), Lit("vayu"), START + MIN_INTERVAL_SECONDS)
  }

  lemma {:induction false} NoEntriesPass()
    ensures EntriesField([]).Ok?
  {
  }

  /** Register one name, revoke under another: a chain of two names. */
  lemma {:induction false} TwoNames()
    ensures exists records :: IsChain(EASY, [Registration("one", []), Revocation("two")], records)
    ensures Registration("one", []).name != Revocation("two").name
  {
    hide First, Next, FromBytes, FieldIn, Emitted, EntriesField;
    var s, t := Registration("one", []), Revocation("two");
    NoEntriesPass();
    EasyRegister(s);
    var first := First(EASY, s).value;
    var d := FirstCarries(EASY, s, first);
    var prev := FromBytes(EASY.blake, first).value;
    EasyRevoke(prev, t);
    var records := [first, Next(EASY, prev, t).value];
    assert Follows(EASY, records[0], t, records[1]);
    assert IsChain(EASY, [s, t], records);
    LitInjective("one", "two");
  }

  // ----- a sequence number beyond the largest -----

  /** A predecessor that carries the largest sequence number a verifier accepts. */
  function LastDraft(): Draft {
    Draft(Update, Lit("one"), Lit("vayu"), Fill(32, 0), MAX_SEQ, START, START + TERM_SECONDS, Array([]), Null,
          Fill(32, 0))
  }

  /** Its successor is emitted all the same, one above. */
  lemma {:induction false} BeyondLastSeq() returns (before: Octets, after: Octets)
    ensures FromBytes(EASY.blake, before).Ok? && FromBytes(EASY.blake, before).value.seqNo == MAX_SEQ
    ensures Follows(EASY, before, Revocation("one"), after)
    ensures FromBytes(EASY.blake, after).Ok? && FromBytes(EASY.blake, after).value.seqNo == MAX_SEQ + 1
  {
    var d, s := LastDraft(), Revocation("one");
    EndFits(1);
    hide Skeleton, Signed, Encode, FromBytes, Next, Emitted, FieldIn, Fits;
    SignedFits(d, Fill(64, 0), None);
    before := Encode(Map(Signed(Skeleton(d), Fill(64, 0), None))).value;
    FactsReadBack(EASY.blake, d, Fill(64, 0), None, before);
    var prev := FromBytes(EASY.blake, before).value;
    EasyRevoke(prev, s);
    after := Next(EASY, prev, s).value;
    var e := NextCarries(EASY, prev, s, after);
  }

  // ----- a record beyond the ceiling -----

  /** A note of 255 letters. */
  function Note(): RecordEntry {
    RecordEntry(Txt(Letters(255)), None)
  }

  function Letters(n: nat): (r: Str)
    ensures |r| == n && forall i :: 0 <= i < n ==> r[i] == 'a' as int
  {
    var r: Octets := seq(n, _ => 'a' as int);
    AsciiValid(r);
    r
  }

  function Notes(n: nat): (r: seq<RecordEntry>)
    ensures |r| == n && forall i :: 0 <= i < n ==> r[i] == Note()
  {
    seq(n, _ => Note())
  }

  lemma {:induction false} NotePasses()
    ensures EntryMap(Note()).Ok? && EntrySize(Note()) == 17 + 3 + 257 + 3
  {
  }

  lemma {:induction false} NotesPass(n: nat)
    ensures EntryMaps(Notes(n)).Ok? && AliasCount(Notes(n)) == 0 && EntriesSize(Notes(n)) == n * EntrySize(Note())
  {
    hide EntryMap, EntrySize;
    NotePasses();
    if n > 0 {
      NotesPass(n - 1);
      assert Notes(n)[..n - 1] == Notes(n - 1);
      assert n * EntrySize(Note()) == (n - 1) * EntrySize(Note()) + EntrySize(Note());
    }
  }

  /** Fourteen notes of the longest kind make a record no verifier takes; 32 are allowed. */
  lemma {:induction false} TooManyNotes(n: nat)
    requires n <= MAX_RECORD_ENTRIES
    ensures First(EASY, Registration("one", Notes(n))).Ok?
    ensures |First(EASY, Registration("one", Notes(n))).value| > MAX_RECORD_BYTES <==> n >= 14
  {
    hide First, EntryMaps, AliasCount, EntriesSize, EntryMap, Note;
    var s := Registration("one", Notes(n));
    NotesPass(n);
    NotePasses();
    NoteSmall();
    EasyRegister(s);
    RegisterSize(EASY, s, First(EASY, s).value);
    FewCharacters(Lit("one"));
  }

  lemma {:induction false} NoteSmall()
    ensures InMemory(Note())
  {
  }

  lemma {:induction false} FewCharacters(b: Octets)
    ensures CharCount(b) <= |b|
  {
    if |b| > 0 {
      FewCharacters(b[..|b| - 1]);
    }
  }
}
