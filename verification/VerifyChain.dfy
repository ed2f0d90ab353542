/** The builders judged by the verifier: for every record of every chain, the exact verdict of
    `verify_against`, in terms of what the steps were asked for. */
module VerifyChain {
  import opened Base
  import opened Utf8
  import opened Cbor
  import opened CborCanonical
  import opened CborMembers
  import opened Domain
  import opened Pow
  import opened Record
  import opened RecordFacts
  import opened ProofBinding
  import opened Chain
  import opened RecordLimits
  import opened Renewal
  import opened Verify

  // ----- what an emitted record says -----

  lemma {:induction false} EmittedSays(d: Draft, signer: Identity, coSigner: Option<Identity>, bytes: Octets)
    returns (entries: seq<Entry>, signature: Signature, coSignature: Option<Signature>)
    requires Emitted(d, signer, coSigner, bytes)
    ensures Decode(bytes) == Ok(Map(entries)) && Says(FieldMap(entries), d, signature, coSignature)
    ensures EncodeCore(entries).Ok?
    ensures var input := SigningInput(EncodeCore(entries).value, LAUNCH_SUITE_BYTE);
            && signer.sign(input) == Some(signature)
            && (match coSigner
                case None => coSignature == None
                case Some(co) => coSignature.Some? && co.sign(input) == coSignature)
  {
    hide Encode, Decode, FieldMap, Sorted, Signed, Skeleton, Says, EncodeCore, SigningInput;
    var s: Signature, c: Option<Signature> :| EmittedWith(d, signer, coSigner, bytes, s, c);
    signature, coSignature := s, c;
    ReadsBack(d, s, c, bytes);
    SkeletonSigned(d, s, c);
    CoreSurvives(Skeleton(d), Signed(Skeleton(d), s, c));
    entries := Sorted(Signed(Skeleton(d), s, c));
  }

  // ----- structure -----

  /** What parsing makes of fields that say what a draft said. */
  lemma {:induction false} ParsesSaid(r: Rules, entries: seq<Entry>, d: Draft, signature: Signature,
                                      coSignature: Option<Signature>, claim: Option<Claim>)
    requires Says(FieldMap(entries), d, signature, coSignature)
    requires r.labelOk(d.name) && r.tldOk(d.tld) && d.notBefore <= d.notAfter
    requires ProofIn(FieldMap(entries)) == Ok(claim) && ProofRule(d.op, claim).Pass?
    ensures Parse(r, Map(entries))
         == if r.smallOrder(d.ownerKey) then Err(Code.BadKey)
            else if d.seqNo > MAX_SEQ then Err(Code.BadSeq)
            else
              match EntriesIn(r, d.name, d.tld, FieldMap(entries))
              case Err(e) => Err(e)
              case Ok(_) =>
                Ok(ParsedRecord(entries, d.op, d.name, d.tld, d.seqNo, d.notBefore, d.notAfter, d.ownerKey, signature,
                                coSignature, claim))
  {
    hide FieldMap, Get, EntriesIn, ProofIn, ProofRule, OpText, ParseOp, Canon;
    OpReadsBack(d.op);
  }

  /** A claim carried in a proof of the builder's making. */
  lemma {:induction false} ClaimSaid(fields: Fields, bits: u32, nonce: Nonce)
    requires Get(fields, POW_PROOF) == Some(Map(Proof(bits, nonce)))
    ensures ProofIn(fields) == Ok(Some(Claim(bits, nonce)))
  {
    hide AlgorithmText, FieldMap, Get;
    ProofNames();
    var names, values := [ALG, BITS, NONCE], [Text(AlgorithmText()), UInt(bits), Bytes(nonce)];
    MembersFields(names, values);
    var proof := FieldMap(Proof(bits, nonce));
    assert Get(proof, names[0]) == Some(values[0]) && Get(proof, names[1]) == Some(values[1]);
    assert Get(proof, names[2]) == Some(values[2]);
    var m: Name, t: Name, q: Name, salt: Name := "m", "t", "p", "salt";
    assert m !in names && t !in names && q !in names && salt !in names;
    assert Get(proof, m) == None && Get(proof, t) == None && Get(proof, q) == None && Get(proof, salt) == None;
  }

  // ----- entries -----

  /** The entries a step leaves in force: its own, its predecessor's, or none. */
  function EntriesAt(steps: seq<Step>, i: nat): seq<RecordEntry>
    requires i < |steps|
  {
    match steps[i]
    case ToRegister(_, _, _, _, entries, _, _, _) => entries
    case ToUpdate(_, _, _, _, entries) => entries
    case ToRelinquish(_, _, _, _) => []
    case ToRevoke(_, _, _, _) => []
    case _ => if i == 0 then [] else EntriesAt(steps, i - 1)
  }

  /** An alias must name an admissible target other than the name itself. */
  predicate Admissible(r: Rules, name: Str, tld: Str, e: RecordEntry) {
    e.value.Alias? ==>
      var target := r.aliasOf(AliasText(e.value.name, e.value.tld));
      target.Some? && target.value != (name, tld) && |AliasText(e.value.name, e.value.tld)| <= MAX_ENTRY_VALUE_BYTES
  }

  predicate AllAdmissible(r: Rules, name: Str, tld: Str, list: seq<RecordEntry>) {
    forall i :: 0 <= i < |list| ==> Admissible(r, name, tld, list[i])
  }

  lemma {:induction false} KindTexts()
    ensures Lit("ipns") != Lit("peer") && Lit("cid") != Lit("peer") && Lit("txt") != Lit("peer")
            && Lit(ALIAS) != Lit("peer")
    ensures Lit("cid") != Lit("ipns") && Lit("txt") != Lit("ipns") && Lit(ALIAS) != Lit("ipns")
    ensures Lit("txt") != Lit("cid") && Lit(ALIAS) != Lit("cid") && Lit(ALIAS) != Lit("txt")
  {
    LitInjective("ipns", "peer");
    LitInjective("txt", "cid");
    assert |Lit(ALIAS)| == 5 && |Lit("peer")| == 4 && |Lit("ipns")| == 4 && |Lit("cid")| == 3 && |Lit("txt")| == 3;
  }

  /** A typed entry passes unless it is an alias that is not admissible or not alone. */
  lemma {:induction false} TypedEntryIn(r: Rules, name: Str, tld: Str, total: nat, e: RecordEntry, aliases: nat)
    requires EntryMap(e).Ok?
    ensures EntryIn(r, name, tld, total, Canon(EntryMap(e).value), aliases)
         == if !e.value.Alias? then Ok(aliases)
            else if Admissible(r, name, tld, e) && aliases == 0 && total <= 1 then Ok(aliases + 1)
            else Err(Code.BadRecordEntry)
  {
    EntryFields(e);
    KindTexts();
    hide FieldMap, Get, Lit, CharCount, Canon, AliasText;
  }

  lemma {:induction false} AdmissibleStep(r: Rules, name: Str, tld: Str, list: seq<RecordEntry>)
    requires |list| > 0
    ensures AllAdmissible(r, name, tld, list)
       <==> AllAdmissible(r, name, tld, list[..|list| - 1]) && Admissible(r, name, tld, list[|list| - 1])
  {
    hide Admissible;
  }

  lemma {:induction false} AliasesStep(r: Rules, name: Str, tld: Str, total: nat, items: seq<Value>, last: Value)
    ensures AliasesIn(r, name, tld, total, items + [last])
         == match AliasesIn(r, name, tld, total, items)
            case Err(e) => Err(e)
            case Ok(n) => EntryIn(r, name, tld, total, last, n)
  {
    hide EntryIn;
    assert (items + [last])[..|items|] == items;
  }

  /** A list of typed entries, under the alias rule, passes exactly when its aliases are admissible. */
  lemma {:induction false} TypedAliases(r: Rules, name: Str, tld: Str, total: nat, list: seq<RecordEntry>)
    requires EntryMaps(list).Ok? && AliasCount(list) <= 1 && (AliasCount(list) == 1 ==> total <= 1)
    ensures AliasesIn(r, name, tld, total, CanonItems(EntryMaps(list).value))
         == if AllAdmissible(r, name, tld, list) then Ok(AliasCount(list)) else Err(Code.BadRecordEntry)
  {
    hide EntryMap, EntryIn, Canon, CanonItems, Admissible, AllAdmissible, AliasesIn;
    if |list| == 0 {
      NoEntries(r, name, tld, total);
    } else {
      var front, last := list[..|list| - 1], list[|list| - 1];
      TypedAliases(r, name, tld, total, front);
      AdmissibleStep(r, name, tld, list);
      var items, value := EntryMaps(front).value, EntryMap(last).value;
      CanonItemsStep(items, value);
      AliasesStep(r, name, tld, total, CanonItems(items), Canon(value));
      if AllAdmissible(r, name, tld, front) {
        TypedEntryIn(r, name, tld, total, last, AliasCount(front));
      }
      if !last.value.Alias? {
        NotAliased(r, name, tld, last);
      }
    }
  }

  lemma {:induction false} NotAliased(r: Rules, name: Str, tld: Str, e: RecordEntry)
    requires !e.value.Alias?
    ensures Admissible(r, name, tld, e)
  {
  }

  lemma {:induction false} NoEntries(r: Rules, name: Str, tld: Str, total: nat)
    ensures CanonItems([]) == [] && AliasesIn(r, name, tld, total, []) == Ok(0) && AllAdmissible(r, name, tld, [])
  {
  }

  /** The entries field of typed entries passes exactly when its aliases are admissible. */
  lemma {:induction false} TypedEntriesIn(r: Rules, name: Str, tld: Str, fields: Fields, list: seq<RecordEntry>)
    requires EntriesField(list).Ok? && Get(fields, RECORDS) == Some(Canon(EntriesField(list).value))
    ensures EntriesIn(r, name, tld, fields)
         == if AllAdmissible(r, name, tld, list) then Ok(AliasCount(list)) else Err(Code.BadRecordEntry)
  {
    hide EntryMaps, AliasesIn, AllAdmissible, CanonItems, Get;
    TypedAliases(r, name, tld, |list|, list);
    MapsCounted(list);
  }

  lemma {:induction false} MapsCounted(list: seq<RecordEntry>)
    requires EntryMaps(list).Ok?
    ensures |EntryMaps(list).value| == |list|
  {
    hide EntryMap;
    if |list| > 0 {
      MapsCounted(list[..|list| - 1]);
    }
  }

  // ----- along a chain -----

  /** What a chain has established about one of its records. */
  ghost predicate Stands(p: Primitives, steps: seq<Step>, records: seq<Octets>, i: nat, d: Draft, entries: seq<Entry>,
                         signature: Signature, coSignature: Option<Signature>)
    requires i < |steps| && i < |records|
  {
    && Drafted(d, steps[i]) && d.seqNo == i && d.notBefore <= d.notAfter && d.records.Array?
    && Decode(records[i]) == Ok(Map(entries)) && Says(FieldMap(entries), d, signature, coSignature)
    && FromBytes(p.blake, records[i]).Ok? && FromBytes(p.blake, records[i]).value.notAfter == d.notAfter
    && EntriesField(EntriesAt(steps, i)).Ok? && Canon(d.records) == Canon(EntriesField(EntriesAt(steps, i)).value)
    && Attested(steps[i], entries, signature, coSignature)
  }

  /** The signatures are over the record's own core. */
  ghost predicate Attested(s: Step, entries: seq<Entry>, signature: Signature, coSignature: Option<Signature>) {
    && EncodeCore(entries).Ok?
    && var input := SigningInput(EncodeCore(entries).value, LAUNCH_SUITE_BYTE);
       && Signer(s).sign(input) == Some(signature)
       && (match CoSigner(s)
           case None => coSignature == None
           case Some(co) => coSignature.Some? && co.sign(input) == coSignature)
  }

  /** The entries in force are what the record carries. */
  lemma {:induction false} EntriesStand(p: Primitives, steps: seq<Step>, records: seq<Octets>, i: nat)
    requires IsChain(p, steps, records) && i < |records|
    ensures EntriesField(EntriesAt(steps, i)).Ok?
    ensures FieldIn(records[i], RECORDS) == Some(Canon(EntriesField(EntriesAt(steps, i)).value))
  {
    hide First, Next, FromBytes, FieldIn, EntriesField, Canon;
    if i == 0 {
      RegisteredEntries(p, steps[0], records[0]);
    } else {
      assert Follows(p, records[i - 1], steps[i], records[i]);
      ChainEntries(p, steps, records, i);
      EntriesStand(p, steps, records, i - 1);
      NoneStands();
      if steps[i].ToUpdate? {
        UpdatedEntries(p, FromBytes(p.blake, records[i - 1]).value, steps[i], records[i]);
      }
    }
  }

  lemma {:induction false} NoneStands()
    ensures EntriesField([]).Ok? && Canon(EntriesField([]).value) == Array([])
  {
    CanonNothing();
  }

  lemma {:induction false} EntriesAreArray(list: seq<RecordEntry>)
    ensures EntriesField(list).Ok? ==> EntriesField(list).value.Array?
  {
    hide EntryMaps;
  }

  lemma {:induction false} CarriedRecords(p: Primitives, d: Draft, s: Step, bytes: Octets)
    requires Chain.Carried(p, d, s, bytes)
    ensures FieldIn(bytes, RECORDS) == Some(Canon(d.records)) && FromBytes(p.blake, bytes).Ok?
    ensures var facts := FromBytes(p.blake, bytes).value;
            facts.notBefore == d.notBefore && facts.notAfter == d.notAfter && facts.seqNo == d.seqNo
  {
    hide FromBytes, FieldIn, Emitted, Canon;
  }

  lemma {:induction false} RecordStands(p: Primitives, steps: seq<Step>, records: seq<Octets>, i: nat)
    returns (d: Draft, entries: seq<Entry>, signature: Signature, coSignature: Option<Signature>)
    requires IsChain(p, steps, records) && i < |records|
    ensures Stands(p, steps, records, i, d, entries, signature, coSignature)
    ensures i > 0 ==> FromBytes(p.blake, records[i - 1]).Ok?
                      && d.notAfter == NewExpiry(FromBytes(p.blake, records[i - 1]).value, steps[i])
                      && d.prevHash == RecordHash(p.blake, records[i - 1])
    ensures i == 0 ==> d.notAfter == steps[0].now + TERM_SECONDS && d.prevHash == ZERO_HASH
    decreases i
  {
    hide First, Next, FromBytes, Emitted, FieldIn, Says, EncodeCore, SigningInput, EntriesField, Canon, NewExpiry;
    ChainSane(p, steps, records, i);
    if i == 0 {
      d := FirstCarries(p, steps[0], records[0]);
      EntriesAreArray(steps[0].entries);
    } else {
      assert Follows(p, records[i - 1], steps[i], records[i]);
      var prev := FromBytes(p.blake, records[i - 1]).value;
      HashOf(p.blake, records[i - 1]);
      d := NextCarries(p, prev, steps[i], records[i]);
    }
    entries, signature, coSignature := EmittedSays(d, Signer(steps[i]), CoSigner(steps[i]), records[i]);
    EntriesStand(p, steps, records, i);
    CarriedRecords(p, d, steps[i], records[i]);
  }

  lemma {:induction false} ViewStands(p: Primitives, steps: seq<Step>, records: seq<Octets>, i: nat, d: Draft,
                                      entries: seq<Entry>, signature: Signature, coSignature: Option<Signature>)
    requires i < |steps| && i < |records| && Stands(p, steps, records, i, d, entries, signature, coSignature)
    ensures ViewOf(p.blake, records[i], Some(steps[i].identity.publicKey))
         == Some(PrevView(Lit(OpText(d.op)), i, d.notBefore, d.notAfter, d.ownerKey, steps[i].identity.publicKey,
                          LAUNCH_SUITE_BYTE, RecordHash(p.blake, records[i]), false))
  {
    hide Decode, FieldMap, Get, FromBytes, EntriesField, Canon, EncodeCore, Lit;
  }

  // ----- the proof of work -----

  /** Without a co-signature the salt of the core is the salt of the record. */
  lemma {:induction false} CoreStrips(record: seq<Entry>)
    requires CoreOf(record).Ok? && forall e :: e in record ==> e.key != TextKey(Lit(CO_SIG))
    ensures Strip(CoreOf(record).value) == Strip(record)
  {
    hide StripField, Lit;
    if |record| > 0 {
      var front, last := record[..|record| - 1], record[|record| - 1];
      assert forall e :: e in front ==> e in record;
      CoreStrips(front);
      var core := CoreOf(front).value;
      assert last in record;
      if IsSignature(last) {
        SignatureStrips(last);
        if Strip(front).Ok? {
          assert Strip(front).value + [] == Strip(front).value;
        }
      } else {
        assert (core + [last])[..|core|] == core;
      }
    }
  }

  lemma {:induction false} SignatureStrips(e: Entry)
    requires e.key == TextKey(Lit(SIG))
    ensures StripField(e) == Ok([])
  {
  }

  lemma {:induction false} SaltOfCore(p: Primitives, entries: seq<Entry>)
    requires CoreOf(entries).Ok? && Get(FieldMap(entries), CO_SIG) == None
    ensures Salt(p.sha, CoreOf(entries).value) == Salt(p.sha, entries)
  {
    hide Strip, CoreOf;
    FieldMapFound(entries, Lit(CO_SIG));
    CoreStrips(entries);
  }

  /** A proof that holds is judged by the difficulty demanded alone. */
  lemma {:induction false} PowJudged(p: Primitives, record: ParsedRecord, bits: u32, nonce: Nonce, windowCount: u64)
    requires record.claim == Some(Claim(bits, nonce)) && Proven(p, record.entries, bits, nonce)
    requires CoreOf(record.entries).Ok? && Get(FieldMap(record.entries), CO_SIG) == None
    ensures PowCheck(p, record, windowCount)
         == if bits < RequiredBits(CharCount(record.name), windowCount) then Fail(Reject(Code.BadPow)) else Pass
  {
    hide CoreOf, Salt, TagSatisfies, RequiredBits, CharCount, FieldMap, Get;
    SaltOfCore(p, record.entries);
  }

  // ----- the verdict, by what was asked -----

  /** The octets a record's signatures are over: what the verifier rebuilds from it. */
  function InputOf(bytes: Octets): Octets {
    match Decode(bytes)
    case Ok(Map(entries)) =>
      (match EncodeCore(entries)
       case Ok(core) => SigningInput(core, LAUNCH_SUITE_BYTE)
       case Err(_) => [])
    case _ => []
  }

  lemma {:induction false} InputIs(bytes: Octets, entries: seq<Entry>)
    requires Decode(bytes) == Ok(Map(entries)) && EncodeCore(entries).Ok?
    ensures InputOf(bytes) == SigningInput(EncodeCore(entries).value, LAUNCH_SUITE_BYTE)
  {
    hide Decode, EncodeCore, SigningInput;
  }

  /** This key accepts what this identity signs for this one message exactly when it is the identity's own. */
  ghost predicate Binds(r: Rules, a: Identity, key: Digest32, m: Octets) {
    forall s: Signature :: a.sign(m) == Some(s) ==> (r.checks(key, m, s) <==> key == a.publicKey)
  }

  /** The signatures made for one record check under the keys of those who made them. */
  ghost predicate OwnKeys(r: Rules, s: Step, bytes: Octets) {
    && Binds(r, Signer(s), Signer(s).publicKey, InputOf(bytes))
    && (s.ToTransfer? ==> Binds(r, s.recipient, s.recipient.publicKey, InputOf(bytes)))
  }

  /** And the signer's, held against the owner's key before, checks only if that key is its own. */
  ghost predicate Attributable(r: Rules, steps: seq<Step>, records: seq<Octets>, i: nat)
    requires i < |steps| == |records|
  {
    && OwnKeys(r, steps[i], records[i])
    && (i > 0 ==> Binds(r, Signer(steps[i]), OwnerAfter(steps[i - 1]), InputOf(records[i])))
  }

  /** The builder and the verifier read one name grammar. */
  ghost predicate OneGrammar(r: Rules, p: Primitives) {
    forall name, tld :: p.nameAllowed(name, tld) ==> r.labelOk(name) && r.tldOk(tld)
  }

  function Settle(check: Outcome<Verdict>): Verdict {
    match check
    case Pass => Accept
    case Fail(verdict) => verdict
  }

  /** The claim of a step is below the difficulty a verifier demands. */
  predicate Underpaid(s: Step, windowCount: u64)
    requires s.ToRegister? || s.ToRenew?
  {
    BitsOf(s) < RequiredBits(CharCount(s.name), windowCount)
  }

  function FirstExpected(r: Rules, s: Step, known: Known, now: u64, windowCount: u64): Verdict
    requires s.ToRegister?
  {
    if RegisterLength(s) > MAX_RECORD_BYTES then Reject(Code.TooLarge)
    else if r.smallOrder(OwnerAfter(s)) then Reject(Code.BadKey)
    else if !AllAdmissible(r, s.name, s.tld, s.entries) then Reject(Code.BadRecordEntry)
    else if known.previous.Some? && !known.fullyReleased then Reject(Code.NameTaken)
    else if !known.powVerified && Underpaid(s, windowCount) then Reject(Code.BadPow)
    else Settle(ClockCheck(s.now, now))
  }

  /** When the verifier's own clock finds the predecessor live enough. */
  predicate LiveAt(before: Step, notAfter: u64, s: Step, now: u64) {
    before.now <= now < if s.ToRenew? then Saturating(notAfter + GRACE_SECONDS) else notAfter
  }

  function NextExpected(r: Rules, before: Step, prev: Predecessor, s: Step, entries: seq<RecordEntry>, known: Known,
                        now: u64, windowCount: u64): Verdict
  {
    if SuccessorLength(prev, s) > MAX_RECORD_BYTES then Reject(Code.TooLarge)
    else if r.smallOrder(OwnerAfter(s)) then Reject(Code.BadKey)
    else if prev.seqNo >= MAX_SEQ then Reject(Code.BadSeq)
    else if !AllAdmissible(r, s.name, s.tld, entries) then Reject(Code.BadRecordEntry)
    else if known.revoked then Reject(Code.Revoked)
    else if !LiveAt(before, prev.notAfter, s, now) then Reject(Code.Expired)
    else if Signer(s).publicKey != OwnerAfter(before) then Reject(Code.BadSig)
    else if ClockCheck(s.now, now).Fail? then ClockCheck(s.now, now).error
    else if s.ToTransfer? && OwnerAfter(s) == OwnerAfter(before) then Reject(Code.BadOwner)
    else if s.ToRenew? && !known.powVerified && Underpaid(s, windowCount) then
      Reject(Code.BadPow)
    else Accept
  }

  // ----- parsing what stands -----

  /** The claim of what a step wrote, and that it holds. */
  ghost predicate Claimed(p: Primitives, s: Step, entries: seq<Entry>, claim: Option<Claim>) {
    && ProofIn(FieldMap(entries)) == Ok(claim) && ProofRule(OpOf(s), claim).Pass?
    && (s.ToRegister? || s.ToRenew? ==> claim.Some? && claim.value.bits == BitsOf(s)
                                        && Proven(p, entries, BitsOf(s), claim.value.nonce))
  }

  lemma {:induction false} ClaimStands(p: Primitives, steps: seq<Step>, records: seq<Octets>, i: nat, d: Draft,
                                       entries: seq<Entry>, signature: Signature, coSignature: Option<Signature>)
    returns (claim: Option<Claim>)
    requires IsChain(p, steps, records) && i < |records| && Stands(p, steps, records, i, d, entries, signature,
                                                                   coSignature)
    ensures Claimed(p, steps[i], entries, claim)
  {
    hide First, Next, FromBytes, FieldIn, EntriesField, Canon, EncodeCore, Proof, PaidFor, Get, ProofIn, BitsOf, Salt,
         TagSatisfies;
    var s := steps[i];
    if i > 0 {
      assert Follows(p, records[i - 1], s, records[i]);
    }
    if s.ToRegister? || s.ToRenew? {
      if i == 0 {
        FirstPaidFor(p, s, records[0]);
      } else {
        RenewalPaidFor(p, FromBytes(p.blake, records[i - 1]).value, s, records[i]);
      }
      var nonce :| Proven(p, entries, BitsOf(s), nonce);
      ClaimSaid(FieldMap(entries), BitsOf(s), nonce);
      claim := Some(Claim(BitsOf(s), nonce));
    } else {
      claim := None;
      NoClaim(FieldMap(entries), d, signature, coSignature);
    }
  }

  lemma {:induction false} NoClaim(fields: Fields, d: Draft, signature: Signature, coSignature: Option<Signature>)
    requires Says(fields, d, signature, coSignature) && d.proof == Null
    ensures ProofIn(fields) == Ok(None)
  {
    hide Get;
  }

  lemma {:induction false} NameStands(p: Primitives, steps: seq<Step>, records: seq<Octets>, i: nat)
    requires IsChain(p, steps, records) && i < |records|
    ensures p.nameAllowed(steps[i].name, steps[i].tld)
  {
    hide FromBytes, ProveAndSign, Sign, Preamble, RenewalCheck, EntriesField, CarriedField, Skeleton, CharCount;
    if i > 0 {
      assert Follows(p, records[i - 1], steps[i], records[i]);
    }
  }

  /** The record as the verifier parses it. */
  function ParsedOf(d: Draft, entries: seq<Entry>, signature: Signature, coSignature: Option<Signature>,
                    claim: Option<Claim>): ParsedRecord {
    ParsedRecord(entries, d.op, d.name, d.tld, d.seqNo, d.notBefore, d.notAfter, d.ownerKey, signature, coSignature,
                 claim)
  }

  lemma {:induction false} ParsesStands(r: Rules, p: Primitives, steps: seq<Step>, records: seq<Octets>, i: nat,
                                        d: Draft,
                                        entries: seq<Entry>, signature: Signature, coSignature: Option<Signature>,
                                        claim: Option<Claim>)
    requires IsChain(p, steps, records) && i < |records| && Stands(p, steps, records, i, d, entries, signature,
                                                                   coSignature)
    requires OneGrammar(r, p) && Claimed(p, steps[i], entries, claim)
    ensures Parse(r, Map(entries))
         == if r.smallOrder(OwnerAfter(steps[i])) then Err(Code.BadKey)
            else if i > MAX_SEQ then Err(Code.BadSeq)
            else if !AllAdmissible(r, steps[i].name, steps[i].tld, EntriesAt(steps, i)) then Err(Code.BadRecordEntry)
            else Ok(ParsedOf(d, entries, signature, coSignature, claim))
  {
    NameStands(p, steps, records, i);
    hide IsChain, FromBytes, EntriesField, EncodeCore, Proven, Parse, AllAdmissible, EntriesIn, ProofIn, Canon, Says,
         FieldMap;
    SaysRecords(FieldMap(entries), d, signature, coSignature);
    ParsesSaid(r, entries, d, signature, coSignature, claim);
    TypedEntriesIn(r, d.name, d.tld, FieldMap(entries), EntriesAt(steps, i));
  }

  lemma {:induction false} SaysRecords(fields: Fields, d: Draft, signature: Signature, coSignature: Option<Signature>)
    requires Says(fields, d, signature, coSignature)
    ensures Get(fields, RECORDS) == Some(Canon(d.records)) && Get(fields, PREV_HASH) == Some(Bytes(d.prevHash))
    ensures coSignature.None? ==> Get(fields, CO_SIG) == None
  {
    hide Get, Canon;
  }

  /** The verdict of a REGISTER once it is parsed. */
  lemma {:induction false} FirstJudged(r: Rules, p: Primitives, s: Step, record: ParsedRecord, input: Octets,
                                       known: Known, now: u64, windowCount: u64)
    requires s.ToRegister? && record.seqNo == 0 && Get(FieldMap(record.entries), PREV_HASH) == Some(Bytes(ZERO_HASH))
    requires record.notBefore == s.now && record.notAfter == s.now + TERM_SECONDS && record.name == s.name
    requires r.checks(record.ownerKey, input, record.sig)
    requires record.claim.Some? && record.claim.value.bits == BitsOf(s)
    requires Proven(p, record.entries, BitsOf(s), record.claim.value.nonce)
    requires CoreOf(record.entries).Ok? && Get(FieldMap(record.entries), CO_SIG) == None
    ensures JudgeFirst(r, p, record, input, known, now, windowCount)
         == if known.previous.Some? && !known.fullyReleased then Err(Reject(Code.NameTaken))
            else if !known.powVerified && Underpaid(s, windowCount) then Err(Reject(Code.BadPow))
            else
              match ClockCheck(s.now, now)
              case Fail(verdict) => Err(verdict)
              case Pass => Ok(())
  {
    hide CoreOf, Proven, RequiredBits, CharCount, ClockCheck, PowCheck, BitsOf, FieldMap, Get;
    PowJudged(p, record, BitsOf(s), record.claim.value.nonce, windowCount);
  }

  /** From a parsed record to its verdict. */
  lemma {:induction false} StandingsFrom(r: Rules, p: Primitives, bytes: Octets, entries: seq<Entry>, known: Known,
                                         now: u64, windowCount: u64)
    requires Decode(bytes) == Ok(Map(entries)) && EncodeCore(entries).Ok?
    ensures Standings(r, p, bytes, known, now, windowCount)
         == if |bytes| > MAX_RECORD_BYTES then Err(Reject(Code.TooLarge))
            else
              match Parse(r, Map(entries))
              case Err(code) => Err(Reject(code))
              case Ok(record) =>
                var input := SigningInput(EncodeCore(entries).value, LAUNCH_SUITE_BYTE);
                if record.op == Register then JudgeFirst(r, p, record, input, known, now, windowCount)
                else
                  match known.previous
                  case None => Err(Reject(Code.NoPredecessor))
                  case Some(prev) => JudgeNext(r, p, record, input, prev, known, now, windowCount)
  {
    StrictDecodingIsCanonical(bytes);
    hide Decode, Encode, JudgeFirst, JudgeNext, SigningInput, EncodeCore;
    ParseKeeps(r, entries);
    hide Parse;
  }

  lemma {:induction false} ParseKeeps(r: Rules, entries: seq<Entry>)
    ensures Parse(r, Map(entries)).Ok? ==> Parse(r, Map(entries)).value.entries == entries
  {
    hide EntriesIn, ProofIn, FieldMap, Get, ProofRule, ParseOp;
  }

  lemma {:induction false} CoreOfEncoded(entries: seq<Entry>)
    requires EncodeCore(entries).Ok?
    ensures CoreOf(entries).Ok?
  {
  }

  /** A registration, judged: the builder's output is accepted unless it is too long, its key is unusable, an
      alias is not admissible, the name is held, the difficulty has risen, or the verifier's clock is not
      within its bounds; and refused for exactly that. */
  lemma {:induction false} FirstVerdict(r: Rules, p: Primitives, steps: seq<Step>, records: seq<Octets>, known: Known,
                                        now: u64, windowCount: u64)
    requires IsChain(p, steps, records) && OneGrammar(r, p) && OwnKeys(r, steps[0], records[0])
    ensures Judge(r, p, records[0], known, now, windowCount) == FirstExpected(r, steps[0], known, now, windowCount)
  {
    var d, entries, signature, coSignature := RecordStands(p, steps, records, 0);
    var claim := ClaimStands(p, steps, records, 0, d, entries, signature, coSignature);
    ParsesStands(r, p, steps, records, 0, d, entries, signature, coSignature, claim);
    RegisterSize(p, steps[0], records[0]);
    InputIs(records[0], entries);
    hide IsChain, First, Decode, Encode, FieldMap, Says, EncodeCore, SigningInput, Proven, BitsOf, Parse, JudgeFirst,
         JudgeNext, Get;
    hide RegisterLength, AllAdmissible, ClockCheck, RequiredBits, CharCount, ProofIn, EntriesField, FromBytes, CoreOf,
         Canon;
    SaysRecords(FieldMap(entries), d, signature, coSignature);
    CoreOfEncoded(entries);
    StandingsFrom(r, p, records[0], entries, known, now, windowCount);
    hide Standings;
    var record := ParsedOf(d, entries, signature, coSignature, claim);
    var input := SigningInput(EncodeCore(entries).value, LAUNCH_SUITE_BYTE);
    FirstJudged(r, p, steps[0], record, input, known, now, windowCount);
  }

  // ----- successors -----

  /** What the verifier is shown of the record before. */
  function ViewAfter(before: Step, prev: Predecessor): PrevView {
    PrevView(Lit(OpText(prev.op)), prev.seqNo, prev.notBefore, prev.notAfter, OwnerAfter(before),
             before.identity.publicKey, LAUNCH_SUITE_BYTE, prev.hash, false)
  }

  /** The facts of a predecessor that a chain guarantees. */
  ghost predicate Prior(before: Step, prev: Predecessor) {
    prev.op == OpOf(before) && prev.notBefore == before.now && prev.revoked == (prev.op == Revoke)
  }

  /** How a successor's record is placed after its predecessor. */
  ghost predicate Placed(prev: Predecessor, s: Step, record: ParsedRecord) {
    && record.op == OpOf(s) && record.seqNo == prev.seqNo + 1 && record.notBefore == s.now
    && record.notAfter == NewExpiry(prev, s) && record.ownerKey == OwnerAfter(s) && record.name == s.name
    && Get(FieldMap(record.entries), PREV_HASH) == Some(Bytes(prev.hash))
    && (s.ToRelinquish? || s.ToRevoke? ==> Get(FieldMap(record.entries), RECORDS) == Some(Array([])))
  }

  /** Whom its signatures convince. */
  ghost predicate Convinces(r: Rules, before: Step, s: Step, record: ParsedRecord, input: Octets) {
    && (r.checks(OwnerAfter(before), input, record.sig) <==> OwnerAfter(before) == Signer(s).publicKey)
    && (s.ToTransfer? ==> record.coSig.Some? && r.checks(record.ownerKey, input, record.coSig.value))
  }

  lemma {:induction false} OpTexts(op: Op)
    ensures Lit(OpText(op)) == Lit(OpText(Transfer)) <==> op == Transfer
    ensures Lit(OpText(op)) == Lit(OpText(Revoke)) <==> op == Revoke
  {
    LitInjective(OpText(op), OpText(Transfer));
    LitInjective(OpText(op), OpText(Revoke));
  }

  /** The chain rules hold of every successor a builder emits; liveness is the verifier's clock's to say, and
      authority is the signer's. */
  lemma {:induction false} ChainRules(before: Step, prev: Predecessor, s: Step, record: ParsedRecord, now: u64)
    requires !s.ToRegister? && Prior(before, prev) && InTime(prev, s) && Placed(prev, s, record)
    ensures var view := ViewAfter(before, prev);
            && view.notBefore + MIN_INTERVAL_SECONDS < U64_LIMIT
              && record.notBefore >= view.notBefore + MIN_INTERVAL_SECONDS
            && (AcceptsSuccessor(view, now, record.op) <==> LiveAt(before, prev.notAfter, s, now))
            && SettlingRule(view, record).Pass? && ControllingKey(view, record.notBefore) == OwnerAfter(before)
  {
    OpTexts(prev.op);
    hide Get, FieldMap, Lit, OpText;
  }

  /** The rules of the operation itself. */
  lemma {:induction false} OwnRulesJudged(r: Rules, p: Primitives, before: Step, prev: Predecessor, s: Step,
                                          record: ParsedRecord, input: Octets, known: Known, windowCount: u64)
    requires !s.ToRegister? && Prior(before, prev) && InTime(prev, s) && Placed(prev, s, record)
    requires Convinces(r, before, s, record, input)
    requires s.ToRenew? ==> && record.claim.Some? && record.claim.value.bits == BitsOf(s)
                            && Proven(p, record.entries, BitsOf(s), record.claim.value.nonce)
                            && CoreOf(record.entries).Ok? && Get(FieldMap(record.entries), CO_SIG) == None
    ensures OwnRules(r, p, record, input, ViewAfter(before, prev), known, windowCount)
         == if s.ToTransfer? && OwnerAfter(s) == OwnerAfter(before) then Err(Reject(Code.BadOwner))
            else if s.ToRenew? && !known.powVerified && Underpaid(s, windowCount) then
              Err(Reject(Code.BadPow))
            else Ok(())
  {
    hide CoreOf, Proven, RequiredBits, CharCount, PowCheck, BitsOf, FieldMap, Get, Lit, OpText;
    if s.ToRenew? {
      PowJudged(p, record, BitsOf(s), record.claim.value.nonce, windowCount);
    }
  }

  lemma {:induction false} NextJudged(r: Rules, p: Primitives, before: Step, prev: Predecessor, s: Step,
                                      record: ParsedRecord, input: Octets, known: Known, now: u64, windowCount: u64)
    requires !s.ToRegister? && Prior(before, prev) && InTime(prev, s) && Placed(prev, s, record)
    requires Convinces(r, before, s, record, input) && prev.seqNo + 1 < U64_LIMIT
             && ProofRule(OpOf(s), record.claim).Pass?
    requires s.ToRenew? ==> && record.claim.Some? && record.claim.value.bits == BitsOf(s)
                            && Proven(p, record.entries, BitsOf(s), record.claim.value.nonce)
                            && CoreOf(record.entries).Ok? && Get(FieldMap(record.entries), CO_SIG) == None
    ensures JudgeNext(r, p, record, input, ViewAfter(before, prev), known, now, windowCount)
         == if known.revoked then Err(Reject(Code.Revoked))
            else if !LiveAt(before, prev.notAfter, s, now) then Err(Reject(Code.Expired))
            else if Signer(s).publicKey != OwnerAfter(before) then Err(Reject(Code.BadSig))
            else
              match ClockCheck(s.now, now)
              case Fail(verdict) => Err(verdict)
              case Pass =>
                if s.ToTransfer? && OwnerAfter(s) == OwnerAfter(before) then Err(Reject(Code.BadOwner))
                else if s.ToRenew? && !known.powVerified && Underpaid(s, windowCount) then
                  Err(Reject(Code.BadPow))
                else Ok(())
  {
    ChainRules(before, prev, s, record, now);
    OwnRulesJudged(r, p, before, prev, s, record, input, known, windowCount);
    hide CoreOf, Proven, RequiredBits, CharCount, PowCheck, BitsOf, FieldMap, Get, Lit, OpText, OwnRules, LiveAt,
         AcceptsSuccessor, SettlingRule, ControllingKey, ClockCheck, InTime;
  }

  lemma {:induction false} StartOf(p: Primitives, steps: seq<Step>, records: seq<Octets>, i: nat)
    requires IsChain(p, steps, records) && i < |records|
    ensures FromBytes(p.blake, records[i]).Ok? && FromBytes(p.blake, records[i]).value.notBefore == steps[i].now
  {
    hide First, Next, FromBytes, Emitted, FieldIn, NewExpiry, EntriesField;
    if i == 0 {
      var d := FirstCarries(p, steps[0], records[0]);
    } else {
      assert Follows(p, records[i - 1], steps[i], records[i]);
      var d := NextCarries(p, FromBytes(p.blake, records[i - 1]).value, steps[i], records[i]);
    }
  }

  /** A record of a chain, as the builder and the verifier read it. */
  lemma {:induction false} RecordView(p: Primitives, steps: seq<Step>, records: seq<Octets>, i: nat)
    requires IsChain(p, steps, records) && i < |records|
    ensures FromBytes(p.blake, records[i]).Ok?
    ensures var prev := FromBytes(p.blake, records[i]).value;
            && Prior(steps[i], prev) && prev.seqNo == i && prev.hash == RecordHash(p.blake, records[i])
            && ViewOf(p.blake, records[i], Some(steps[i].identity.publicKey)) == Some(ViewAfter(steps[i], prev))
  {
    hide First, Next, Emitted, FieldIn, Says, EncodeCore, EntriesField, Canon, NewExpiry, Lit, Decode, FieldMap;
    ChainInvariant(p, steps, records, i);
    HashOf(p.blake, records[i]);
    hide FromBytes;
    StartOf(p, steps, records, i);
    var d, entries, signature, coSignature := RecordStands(p, steps, records, i);
    ViewStands(p, steps, records, i, d, entries, signature, coSignature);
  }

  /** The predecessor of a record, and that it comes in time. */
  lemma {:induction false} PriorStands(p: Primitives, steps: seq<Step>, records: seq<Octets>, i: nat)
    requires IsChain(p, steps, records) && 0 < i < |records|
    ensures FromBytes(p.blake, records[i - 1]).Ok?
    ensures var prev := FromBytes(p.blake, records[i - 1]).value;
            && Prior(steps[i - 1], prev) && prev.seqNo == i - 1 && InTime(prev, steps[i]) && !steps[i].ToRegister?
            && ViewOf(p.blake, records[i - 1], Some(steps[i - 1].identity.publicKey))
              == Some(ViewAfter(steps[i - 1], prev))
  {
    hide Next, InTime, FromBytes, Prior, ViewOf, ViewAfter, RecordHash;
    assert Follows(p, records[i - 1], steps[i], records[i]);
    RecordView(p, steps, records, i - 1);
    NextInTime(p, FromBytes(p.blake, records[i - 1]).value, steps[i]);
  }

  lemma {:induction false} EndingsCarryNone(steps: seq<Step>, i: nat, fields: Fields, d: Draft)
    requires i < |steps| && (steps[i].ToRelinquish? || steps[i].ToRevoke?)
    requires EntriesField(EntriesAt(steps, i)).Ok? && Canon(d.records) == Canon(EntriesField(EntriesAt(steps, i)).value)
    requires Get(fields, RECORDS) == Some(Canon(d.records))
    ensures Get(fields, RECORDS) == Some(Array([]))
  {
    hide EntriesField, Canon, Get;
    NoneStands();
  }

  /** What the attested signatures convince of, when every signature is attributed to its own key. */
  lemma {:induction false} ConvincesStands(r: Rules, steps: seq<Step>, records: seq<Octets>, i: nat,
                                           record: ParsedRecord, entries: seq<Entry>, signature: Signature,
                                           coSignature: Option<Signature>)
    requires 0 < i < |steps| == |records| && Attributable(r, steps, records, i)
    requires Decode(records[i]) == Ok(Map(entries)) && Attested(steps[i], entries, signature, coSignature)
    requires record.sig == signature && record.coSig == coSignature && record.ownerKey == OwnerAfter(steps[i])
    ensures Convinces(r, steps[i - 1], steps[i], record, SigningInput(EncodeCore(entries).value, LAUNCH_SUITE_BYTE))
  {
    InputIs(records[i], entries);
    hide Decode, EncodeCore, SigningInput, InputOf;
    var input := SigningInput(EncodeCore(entries).value, LAUNCH_SUITE_BYTE);
    if steps[i].ToTransfer? {
      assert steps[i].recipient.sign(input) == coSignature;
    }
  }

  /** A successor, judged against the record before it: it is accepted unless it is too long, a key is
      unusable, its number too large, an alias not admissible, the name known to be revoked, the predecessor
      no longer live by the verifier's clock, the signer not the owner, the clock out of bounds, a transfer to
      the owner itself, or the difficulty risen; and refused for exactly the first of these. */
  lemma {:induction false} NextVerdict(r: Rules, p: Primitives, steps: seq<Step>, records: seq<Octets>, i: nat,
                                       known: Known, now: u64, windowCount: u64)
    requires IsChain(p, steps, records) && 0 < i < |records| && OneGrammar(r, p) && Attributable(r, steps, records, i)
    requires known.previous == ViewOf(p.blake, records[i - 1], Some(steps[i - 1].identity.publicKey))
    ensures FromBytes(p.blake, records[i - 1]).Ok?
    ensures Judge(r, p, records[i], known, now, windowCount)
         == NextExpected(r, steps[i - 1], FromBytes(p.blake, records[i - 1]).value, steps[i], EntriesAt(steps, i),
                         known, now, windowCount)
  {
    PriorStands(p, steps, records, i);
    var d, entries, signature, coSignature := RecordStands(p, steps, records, i);
    var claim := ClaimStands(p, steps, records, i, d, entries, signature, coSignature);
    ParsesStands(r, p, steps, records, i, d, entries, signature, coSignature, claim);
    var record := ParsedOf(d, entries, signature, coSignature, claim);
    ConvincesStands(r, steps, records, i, record, entries, signature, coSignature);
    PlacedStands(p, steps, records, i, d, entries, signature, coSignature, claim);
    SizeStands(p, steps, records, i);
    assert |steps| == |records|;
    hide IsChain, Decode, FieldMap, Says, EncodeCore, SigningInput, Proven, BitsOf, Parse, Placed, Prior, ViewAfter,
         SuccessorLength, AllAdmissible, FromBytes, CoreOf, Get, ViewOf, InTime, Attributable, OneGrammar, Convinces,
         ProofRule, Judge, EntriesAt, NextExpected, RecordHash, Drafted, ProofIn, NewExpiry, EntriesField, Canon;
    CoreOfEncoded(entries);
    NextSettled(r, p, records[i], entries, steps[i - 1], FromBytes(p.blake, records[i - 1]).value, steps[i],
                EntriesAt(steps, i), record, known, now, windowCount);
  }

  /** From what stands of a successor to its verdict. */
  lemma {:induction false} NextSettled(r: Rules, p: Primitives, bytes: Octets, entries: seq<Entry>, before: Step,
                                       prev: Predecessor,
                                       s: Step, list: seq<RecordEntry>, record: ParsedRecord, known: Known, now: u64,
                                       windowCount: u64)
    requires Decode(bytes) == Ok(Map(entries)) && EncodeCore(entries).Ok? && |bytes| == SuccessorLength(prev, s)
    requires Parse(r, Map(entries))
          == if r.smallOrder(OwnerAfter(s)) then Err(Code.BadKey)
             else if prev.seqNo + 1 > MAX_SEQ then Err(Code.BadSeq)
             else if !AllAdmissible(r, s.name, s.tld, list) then Err(Code.BadRecordEntry)
             else Ok(record)
    requires record.entries == entries && record.op == OpOf(s) && known.previous == Some(ViewAfter(before, prev))
    requires !s.ToRegister? && Prior(before, prev) && InTime(prev, s) && Placed(prev, s, record)
    requires Convinces(r, before, s, record, SigningInput(EncodeCore(entries).value, LAUNCH_SUITE_BYTE))
    requires prev.seqNo + 1 < U64_LIMIT && ProofRule(OpOf(s), record.claim).Pass?
    requires s.ToRenew? ==> && record.claim.Some? && record.claim.value.bits == BitsOf(s)
                            && Proven(p, record.entries, BitsOf(s), record.claim.value.nonce)
                            && CoreOf(record.entries).Ok? && Get(FieldMap(record.entries), CO_SIG) == None
    ensures Judge(r, p, bytes, known, now, windowCount) == NextExpected(r, before, prev, s, list, known, now,
                                                                        windowCount)
  {
    hide Decode, FieldMap, EncodeCore, SigningInput, Proven, BitsOf, Parse, JudgeNext, Placed, Prior, SuccessorLength,
         AllAdmissible, ClockCheck, RequiredBits, CoreOf, Get, InTime, LiveAt, Convinces, ProofRule, Standings,
           CharCount,
         ViewAfter;
    StandingsFrom(r, p, bytes, entries, known, now, windowCount);
    NextJudged(r, p, before, prev, s, record, SigningInput(EncodeCore(entries).value, LAUNCH_SUITE_BYTE), known, now,
               windowCount);
  }

  lemma {:induction false} SizeStands(p: Primitives, steps: seq<Step>, records: seq<Octets>, i: nat)
    requires IsChain(p, steps, records) && 0 < i < |records|
    ensures FromBytes(p.blake, records[i - 1]).Ok?
    ensures |records[i]| == SuccessorLength(FromBytes(p.blake, records[i - 1]).value, steps[i])
  {
    assert Follows(p, records[i - 1], steps[i], records[i]);
    hide IsChain, Next, FromBytes;
    SuccessorSize(p, FromBytes(p.blake, records[i - 1]).value, steps[i], records[i]);
  }

  lemma {:induction false} PlacedStands(p: Primitives, steps: seq<Step>, records: seq<Octets>, i: nat, d: Draft,
                                        entries: seq<Entry>, signature: Signature, coSignature: Option<Signature>,
                                        claim: Option<Claim>)
    requires IsChain(p, steps, records) && 0 < i < |records|
    requires Stands(p, steps, records, i, d, entries, signature, coSignature)
    requires FromBytes(p.blake, records[i - 1]).Ok? && FromBytes(p.blake, records[i - 1]).value.seqNo == i - 1
    requires d.notAfter == NewExpiry(FromBytes(p.blake, records[i - 1]).value, steps[i])
    requires d.prevHash == RecordHash(p.blake, records[i - 1])
    ensures Placed(FromBytes(p.blake, records[i - 1]).value, steps[i],
                   ParsedOf(d, entries, signature, coSignature, claim))
    ensures steps[i].ToRenew? ==> Get(FieldMap(entries), CO_SIG) == None
  {
    assert |steps| == |records|;
    hide IsChain, Decode, FieldMap, Says, EncodeCore, SigningInput, EntriesField, FromBytes, Canon, Get, NewExpiry,
         EntriesAt, RecordHash, Proof, BitsOf, Drafted, Placed;
    HashOf(p.blake, records[i - 1]);
    SaysRecords(FieldMap(entries), d, signature, coSignature);
    PlacedSaid(steps, i, FromBytes(p.blake, records[i - 1]).value, d, entries, signature, coSignature, claim);
  }

  lemma {:induction false} PlacedSaid(steps: seq<Step>, i: nat, prev: Predecessor, d: Draft, entries: seq<Entry>,
                                      signature: Signature, coSignature: Option<Signature>, claim: Option<Claim>)
    requires i < |steps| && Drafted(d, steps[i]) && d.seqNo == prev.seqNo + 1 && d.notAfter == NewExpiry(prev, steps[i])
    requires EntriesField(EntriesAt(steps, i)).Ok? && Canon(d.records) == Canon(EntriesField(EntriesAt(steps, i)).value)
    requires Get(FieldMap(entries), RECORDS) == Some(Canon(d.records))
    requires Get(FieldMap(entries), PREV_HASH) == Some(Bytes(prev.hash))
    ensures Placed(prev, steps[i], ParsedOf(d, entries, signature, coSignature, claim))
  {
    hide FieldMap, EntriesField, Canon, Get, NewExpiry, EntriesAt, Proof, BitsOf;
    if steps[i].ToRelinquish? || steps[i].ToRevoke? {
      EndingsCarryNone(steps, i, FieldMap(entries), d);
    }
  }

  // ----- which chains are accepted -----

  /** What a record needs beyond the builder's own checks. */
  ghost predicate Acceptable(r: Rules, steps: seq<Step>, i: nat, length: nat, windowCount: u64)
    requires i < |steps|
  {
    var s := steps[i];
    && length <= MAX_RECORD_BYTES && !r.smallOrder(OwnerAfter(s)) && i <= MAX_SEQ
    && AllAdmissible(r, s.name, s.tld, EntriesAt(steps, i))
    && (s.ToRegister? || s.ToRenew? ==> !Underpaid(s, windowCount))
    && (i > 0 ==> Signer(s).publicKey == OwnerAfter(steps[i - 1]))
    && (i > 0 && s.ToTransfer? ==> OwnerAfter(s) != OwnerAfter(steps[i - 1]))
  }

  /** What a verifier without an index knows of the record before. */
  function Knowing(p: Primitives, steps: seq<Step>, records: seq<Octets>, i: nat): Known
    requires i < |steps| == |records|
  {
    Known(if i == 0 then None else ViewOf(p.blake, records[i - 1], Some(steps[i - 1].identity.publicKey)), false,
          false, false)
  }

  /** Judged the moment it is made, a record of a chain is accepted exactly when it is short enough, the owner's
      key is usable, its number is within 32 bits, its aliases are admissible, its proof meets the difficulty
      demanded, the owner signed it, and a transfer goes to someone else. */
  lemma {:induction false} AcceptedIff(r: Rules, p: Primitives, steps: seq<Step>, records: seq<Octets>, i: nat,
                                       windowCount: u64)
    requires IsChain(p, steps, records) && i < |records| && OneGrammar(r, p) && Attributable(r, steps, records, i)
    ensures Judge(r, p, records[i], Knowing(p, steps, records, i), steps[i].now, windowCount) == Accept
       <==> Acceptable(r, steps, i, |records[i]|, windowCount)
  {
    assert |steps| == |records|;
    var known := Knowing(p, steps, records, i);
    if i == 0 {
      FirstVerdict(r, p, steps, records, known, steps[0].now, windowCount);
      RegisterSize(p, steps[0], records[0]);
      hide IsChain, First, Attributable, OneGrammar, RegisterLength, FirstExpected, Judge;
      FirstAccepted(r, steps, known, windowCount);
    } else {
      hide IsChain, Attributable, OneGrammar, SuccessorLength, NextExpected, Judge, FromBytes, ViewOf, InTime,
           EntriesAt, Acceptable, LiveAt, Prior, ViewAfter;
      NextVerdict(r, p, steps, records, i, known, steps[i].now, windowCount);
      PriorStands(p, steps, records, i);
      SizeStands(p, steps, records, i);
      var prev := FromBytes(p.blake, records[i - 1]).value;
      LiveWhenMade(steps[i - 1], prev, steps[i]);
      NextAccepted(r, steps, i, prev, known, windowCount);
    }
  }

  lemma {:induction false} FirstAccepted(r: Rules, steps: seq<Step>, known: Known, windowCount: u64)
    requires |steps| > 0 && steps[0].ToRegister? && known == Known(None, false, false, false)
    ensures FirstExpected(r, steps[0], known, steps[0].now, windowCount) == Accept
       <==> Acceptable(r, steps, 0, RegisterLength(steps[0]), windowCount)
  {
    hide RegisterLength, AllAdmissible, BitsOf, RequiredBits, CharCount;
  }

  lemma {:induction false} NextAccepted(r: Rules, steps: seq<Step>, i: nat, prev: Predecessor, known: Known,
                                        windowCount: u64)
    requires 0 < i < |steps| && !steps[i].ToRegister? && prev.seqNo == i - 1
             && known == Known(known.previous, false, false, false)
    requires LiveAt(steps[i - 1], prev.notAfter, steps[i], steps[i].now)
    ensures NextExpected(r, steps[i - 1], prev, steps[i], EntriesAt(steps, i), known, steps[i].now, windowCount)
            == Accept
       <==> Acceptable(r, steps, i, SuccessorLength(prev, steps[i]), windowCount)
  {
    hide SuccessorLength, AllAdmissible, BitsOf, RequiredBits, CharCount, LiveAt, EntriesAt;
  }

  lemma {:induction false} LiveWhenMade(before: Step, prev: Predecessor, s: Step)
    requires Prior(before, prev) && InTime(prev, s)
    ensures LiveAt(before, prev.notAfter, s, s.now)
  {
  }

  // ----- where the two part -----

  /** The builder and the verifier agree on which operations a predecessor answers at an instant, but for two
      families, both answered by the verifier only: any operation while the end of grace does not fit 64 bits,
      and a renewal of a revoked name, by a verifier that was not told of the revocation. */
  lemma {:induction false} LivenessParts(before: Step, prev: Predecessor, op: Op, now: u64)
    requires Prior(before, prev)
    ensures (LivenessCheck(prev, now, op == Renew).Pass? <==> AcceptsSuccessor(ViewAfter(before, prev), now, op))
       <==> !(AcceptsSuccessor(ViewAfter(before, prev), now, op)
              && (prev.notAfter + GRACE_SECONDS >= U64_LIMIT || (prev.op == Revoke && op == Renew)))
  {
    OpTexts(prev.op);
    hide Lit, OpText;
  }

  /** And on settling transfers, but for one more: a further TRANSFER, which the builder refuses and the
      verifier takes. */
  lemma {:induction false} SettlingParts(before: Step, prev: Predecessor, record: ParsedRecord)
    requires Prior(before, prev)
    ensures (SettlingCheck(prev, record.notBefore).Pass? <==> SettlingRule(ViewAfter(before, prev), record).Pass?)
       <==> !(prev.op == Transfer && record.op == Transfer
              && record.notBefore < prev.notBefore + SETTLEMENT_SECONDS < U64_LIMIT)
  {
    OpTexts(prev.op);
    hide Lit, OpText;
  }
}
