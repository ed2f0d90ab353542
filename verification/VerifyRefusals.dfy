/** What the verifier's refusals mean (client/src/verify.rs): each names a defect that the record has, and the
    first one in the order of the specification. */
module VerifyRefusals {
  import opened Base
  import opened Utf8
  import opened Cbor
  import opened CborCanonical
  import opened CborMembers
  import opened Domain
  import opened Pow
  import opened Record
  import opened Verify
  import opened Preimages
  import opened VerifySound

  // ----- what a refusal means -----

  /** A registration is refused for the first of these that fails, in this order: its place, the name, the
      term, the signature, the proof, and only then the clock. */
  ghost predicate FirstRefused(r: Rules, p: Primitives, x: ParsedRecord, known: Known, now: u64, windowCount: u64,
                               verdict: Verdict)
  {
    var placed := x.seqNo == 0 && PointsBack(x, seq(32, _ => 0));
    var free := known.previous.None? || known.fullyReleased;
    var year := x.notAfter == x.notBefore + 31_536_000;
    var signed := SignedBy(r, x.ownerKey, x.entries, x.sig);
    var proved := known.powVerified || Proved(p, x, windowCount);
    if verdict == Reject(Code.BadChain) then !placed
    else if verdict == Reject(Code.NameTaken) then placed && !free
    else if verdict == Reject(Code.BadTerm) then placed && free && !year
    else if verdict == Reject(Code.BadSig) then placed && free && year && !signed
    else if verdict == Reject(Code.BadPow) then placed && free && year && signed && !proved
    else if verdict == Defer then placed && free && year && signed && proved && x.notBefore > now + 300
    else if verdict == Reject(Code.Backdated) then
      placed && free && year && signed && proved && x.notBefore < now - 86_400
    else false
  }

  /** The expiry a record's operation asks for. */
  ghost predicate GoodTerm(x: ParsedRecord, prev: PrevView) {
    match x.op
    case Renew => x.notAfter == (if prev.notAfter > x.notBefore then prev.notAfter else x.notBefore) + 31_536_000
    case Relinquish => x.notAfter == x.notBefore
    case _ => x.notAfter == prev.notAfter
  }

  ghost predicate OwnRefused(r: Rules, p: Primitives, x: ParsedRecord, prev: PrevView, known: Known,
                             windowCount: u64, verdict: Verdict)
  {
    if verdict == Reject(Code.BadOwner) then x.op.Transfer? <==> x.ownerKey == prev.ownerKey
    else if verdict == Reject(Code.BadTerm) then !GoodTerm(x, prev)
    else if verdict == Reject(Code.TooSoon) then x.op.Renew? && x.notBefore < prev.notAfter - 5_184_000
    else if verdict == Reject(Code.BadPow) then x.op.Renew? && !known.powVerified && !Proved(p, x, windowCount)
    else if verdict == Reject(Code.Unsettled) then x.op.Transfer? && x.notAfter < x.notBefore + 1_209_600
    else if verdict == Reject(Code.BadCosig) then
      x.op.Transfer? && (x.coSig.Some? ==> !SignedBy(r, x.ownerKey, x.entries, x.coSig.value))
    else if verdict == Reject(Code.BadRecordEntry) then
      (x.op.Relinquish? || x.op.Revoke?) && Get(FieldMap(x.entries), RECORDS) != Some(Array([]))
    else if verdict == Panic then
      x.op.Renew? && (if prev.notAfter > x.notBefore then prev.notAfter else x.notBefore) + 31_536_000 >= U64_LIMIT
    else false
  }

  /** Every refusal of a successor names a defect it has: of its place; then, standing in its place, of its
      signature; then, signed by whoever speaks for the name, of the clock or of its own operation. */
  ghost predicate NextRefused(r: Rules, p: Primitives, x: ParsedRecord, prev: PrevView, known: Known, now: u64,
                              windowCount: u64, verdict: Verdict)
  {
    var signed := SignedBy(r, Authority(prev, x.notBefore), x.entries, x.sig);
    if !Placed(x, prev, known, now) then PlaceRefused(x, prev, known, now, verdict)
    else if !signed then verdict == Reject(Code.BadSig)
    else if x.notBefore > now + 300 then verdict == Defer
    else if x.notBefore < now - 86_400 then verdict == Reject(Code.Backdated)
    else OwnRefused(r, p, x, prev, known, windowCount, verdict)
  }

  lemma {:induction false} FirstRefusal(r: Rules, p: Primitives, bytes: Octets, x: ParsedRecord, known: Known,
                                        now: u64, windowCount: u64)
    requires Decode(bytes) == Ok(Map(x.entries)) && TextKeys(x.entries) && Shows(r, x.entries, x) && x.op.Register?
    ensures var v := JudgeFirst(r, p, x, SigningOctets(x.entries), known, now, windowCount);
            v.Err? ==> FirstRefused(r, p, x, known, now, windowCount, v.error)
  {
    PowIff(p, bytes, x, windowCount);
    ShownFirst(r, x);
    PowCode(p, bytes, x, windowCount);
    hide Decode, FieldMap, Get, AllZero, PowCheck, Proved, SigningOctets, Shows, TextKeys;
  }

  lemma {:induction false} ShownFirst(r: Rules, x: ParsedRecord)
    requires Shows(r, x.entries, x) && x.op.Register?
    ensures x.claim.Some? && x.notBefore <= x.notAfter
    ensures AllZero(Get(FieldMap(x.entries), PREV_HASH)) <==> PointsBack(x, seq(32, _ => 0))
  {
    ZeroHash(FieldMap(x.entries));
    hide FieldMap, Get, AllZero, ShowsWhat, ShowsEntries, GoodProof;
  }

  lemma {:induction false} PowCode(p: Primitives, bytes: Octets, x: ParsedRecord, windowCount: u64)
    requires Decode(bytes) == Ok(Map(x.entries)) && TextKeys(x.entries) && x.claim.Some?
    ensures PowCheck(p, x, windowCount).Fail? ==> PowCheck(p, x, windowCount) == Fail(Reject(Code.BadPow))
  {
    CoreIs(x.entries);
    hide CoreOf, Salt, TagSatisfies, RequiredBits, CharCount, Decode, TextKeys;
  }

  lemma {:induction false} OwnRefusal(r: Rules, p: Primitives, bytes: Octets, x: ParsedRecord, prev: PrevView,
                                      known: Known, windowCount: u64)
    requires Decode(bytes) == Ok(Map(x.entries)) && TextKeys(x.entries) && Shows(r, x.entries, x) && !x.op.Register?
    requires x.op == Transfer || x.ownerKey == prev.ownerKey
    ensures var v := OwnRules(r, p, x, SigningOctets(x.entries), prev, known, windowCount);
            v.Err? ==> OwnRefused(r, p, x, prev, known, windowCount, v.error)
  {
    PowIff(p, bytes, x, windowCount);
    ShownNext(r, x);
    if x.claim.Some? {
      PowCode(p, bytes, x, windowCount);
    }
    hide Decode, PowCheck, Proved, SigningOctets, Shows, TextKeys, OwnRules, OwnRefused;
    if x.op.Renew? {
      RenewRefusal(r, p, x, prev, known, windowCount, SigningOctets(x.entries));
    } else {
      OtherRefusal(r, p, x, prev, known, windowCount);
    }
  }

  lemma {:induction false} RenewRefusal(r: Rules, p: Primitives, x: ParsedRecord, prev: PrevView, known: Known,
                                        windowCount: u64, input: Octets)
    requires x.op.Renew? && x.claim.Some?
    requires PowCheck(p, x, windowCount) == if Proved(p, x, windowCount) then Pass else Fail(Reject(Code.BadPow))
    ensures var v := OwnRules(r, p, x, input, prev, known, windowCount);
            v.Err? ==> OwnRefused(r, p, x, prev, known, windowCount, v.error)
  {
    hide PowCheck, Proved, FieldMap, Get;
  }

  lemma {:induction false} OtherRefusal(r: Rules, p: Primitives, x: ParsedRecord, prev: PrevView, known: Known,
                                        windowCount: u64)
    requires !x.op.Renew? && !x.op.Register? && x.notBefore <= x.notAfter
    ensures var v := OwnRules(r, p, x, SigningOctets(x.entries), prev, known, windowCount);
            v.Err? ==> OwnRefused(r, p, x, prev, known, windowCount, v.error)
  {
    hide PowCheck, Proved, FieldMap, Get, SigningOctets;
  }

  lemma {:induction false} NextRefusal(r: Rules, p: Primitives, bytes: Octets, x: ParsedRecord, prev: PrevView,
                                       known: Known, now: u64, windowCount: u64)
    requires Decode(bytes) == Ok(Map(x.entries)) && TextKeys(x.entries) && Shows(r, x.entries, x) && !x.op.Register?
    ensures var v := JudgeNext(r, p, x, SigningOctets(x.entries), prev, known, now, windowCount);
            v.Err? ==> NextRefused(r, p, x, prev, known, now, windowCount, v.error)
  {
    ShownNext(r, x);
    if Placed(x, prev, known, now) {
      PlacedJudged(r, p, x, prev, known, now, windowCount, SigningOctets(x.entries));
      if x.op == Transfer || x.ownerKey == prev.ownerKey {
        OwnRefusal(r, p, bytes, x, prev, known, windowCount);
      }
      OwnerCode(r, p, x, prev, known, windowCount);
    } else {
      PlaceRefusal(r, p, x, prev, known, now, windowCount, SigningOctets(x.entries));
    }
    hide Decode, JudgeNext, OwnRules, SigningOctets, Shows, TextKeys, Placed, PlaceRefused, OwnRefused, Authority;
  }

  lemma {:induction false} OwnerCode(r: Rules, p: Primitives, x: ParsedRecord, prev: PrevView, known: Known,
                                     windowCount: u64)
    ensures x.op != Transfer && x.ownerKey != prev.ownerKey ==>
              OwnRefused(r, p, x, prev, known, windowCount, Reject(Code.BadOwner))
  {
  }

  /** What the verifier says of a record that shows what a record may show: yes, or a defect that it has. */
  lemma {:induction false} RefusalsAreTrue(r: Rules, p: Primitives, bytes: Octets, x: ParsedRecord, known: Known,
                                           now: u64, windowCount: u64)
    requires |bytes| <= 4_096 && Decode(bytes) == Ok(Map(x.entries)) && TextKeys(x.entries) && Shows(r, x.entries, x)
    ensures var verdict := Judge(r, p, bytes, known, now, windowCount);
            || verdict == Accept
            || if x.op.Register? then FirstRefused(r, p, x, known, now, windowCount, verdict)
               else if known.previous.None? then verdict == Reject(Code.NoPredecessor)
               else NextRefused(r, p, x, known.previous.value, known, now, windowCount, verdict)
  {
    SigningInputIs(bytes, x.entries);
    ParsesIff(r, Map(x.entries), x);
    StrictDecodingIsCanonical(bytes);
    if x.op.Register? {
      FirstRefusal(r, p, bytes, x, known, now, windowCount);
    } else if known.previous.Some? {
      NextRefusal(r, p, bytes, x, known.previous.value, known, now, windowCount);
    }
    hide Decode, Encode, Parse, Shows, EncodeCore, SigningInput, SigningOctets, JudgeFirst, JudgeNext, FirstRefused,
         NextRefused, TextKeys;
  }

  // ----- the order of structural refusals -----

  function Absent(field: Option<Value>, otherwise: Code): Code {
    if field.None? then Code.MissingField else otherwise
  }

  /** Name and domain as the entries are held against, when they are text. */
  function TextOf(field: Option<Value>): Str {
    if field.Some? && field.value.Text? then field.value.text else []
  }

  ghost predicate Needs(f: Fields) {
    Get(f, OP) == Some(Text(Lit("REGISTER"))) || Get(f, OP) == Some(Text(Lit("RENEW")))
  }

  /** The things a record is held to, in the order in which the specification lists them. */
  ghost predicate Meets(r: Rules, f: Fields, k: nat) {
    if k == 0 then Get(f, VERSION) == Some(UInt(1))
    else if k == 1 then Get(f, SUITE) == Some(UInt(1))
    else if k == 2 then exists op :: Get(f, OP) == Some(Text(Lit(OpName(op))))
    else if k == 3 then exists t :: Get(f, NAME) == Some(Text(t)) && r.labelOk(t)
    else if k == 4 then exists t :: Get(f, TLD) == Some(Text(t)) && r.tldOk(t)
    else if k == 5 then exists key: Digest32 :: Get(f, OWNER_KEY) == Some(Bytes(key)) && !r.smallOrder(key)
    else if k == 6 then exists n :: Get(f, SEQ) == Some(UInt(n)) && n < 0x1_0000_0000
    else if k == 7 then
      exists m, n :: Get(f, NOT_BEFORE) == Some(UInt(m)) && Get(f, NOT_AFTER) == Some(UInt(n)) && m <= n
    else if k == 8 then
      exists items ::
        Get(f, RECORDS) == Some(Array(items)) && GoodEntries(r, TextOf(Get(f, NAME)), TextOf(Get(f, TLD)), items)
    else if k == 9 then
      || Get(f, POW_PROOF) == Some(Null)
      || exists proof, claim :: Get(f, POW_PROOF) == Some(Map(proof)) && GoodProof(FieldMap(proof), claim)
    else if k == 10 then Needs(f) <==> Get(f, POW_PROOF) != Some(Null)
    else if k == 11 then exists s: Signature :: Get(f, SIG) == Some(Bytes(s))
    else if k == 12 then exists hash: Digest32 :: Get(f, PREV_HASH) == Some(Bytes(hash))
    else || Get(f, CO_SIG) == None || Get(f, CO_SIG) == Some(Null)
         || exists s: Signature :: Get(f, CO_SIG) == Some(Bytes(s))
  }

  ghost function DefectCode(r: Rules, f: Fields, k: nat): Code {
    if k == 0 then NumberCode(Get(f, VERSION), Code.UnsupportedVersion)
    else if k == 1 then NumberCode(Get(f, SUITE), Code.UnknownSuite)
    else if k == 2 then TextCode(Get(f, OP), Code.UnknownOp)
    else if k == 3 then TextCode(Get(f, NAME), Code.BadLabel)
    else if k == 4 then TextCode(Get(f, TLD), Code.UnknownTld)
    else if k == 5 then OctetsCode(Get(f, OWNER_KEY), 32, Code.BadKey)
    else if k == 6 then NumberCode(Get(f, SEQ), Code.BadSeq)
    else if k == 7 then NumberCode(Get(f, NOT_BEFORE), NumberCode(Get(f, NOT_AFTER), Code.BadTerm))
    else if k == 8 then
      match Get(f, RECORDS)
      case None => Code.MissingField
      case Some(Array(items)) => if |items| > 32 then Code.TooManyRecords else Code.BadRecordEntry
      case _ => Code.BadFieldType
    else if k == 9 then Absent(Get(f, POW_PROOF), Code.BadPowShape)
    else if k == 10 then if Needs(f) then Code.MissingPow else Code.UnexpectedPow
    else if k == 11 then OctetsCode(Get(f, SIG), 64, Code.BadFieldType)
    else if k == 12 then OctetsCode(Get(f, PREV_HASH), 32, Code.BadFieldType)
    else Code.BadCosig
  }

  function NumberCode(field: Option<Value>, otherwise: Code): Code {
    if field.Some? && field.value.UInt? then otherwise else Absent(field, Code.BadFieldType)
  }

  function TextCode(field: Option<Value>, otherwise: Code): Code {
    if field.Some? && field.value.Text? then otherwise else Absent(field, Code.BadFieldType)
  }

  function OctetsCode(field: Option<Value>, length: nat, otherwise: Code): Code {
    if field.Some? && field.value.Bytes? && |field.value.bytes| == length then otherwise
    else Absent(field, Code.BadFieldType)
  }

  /** A record with two defects is refused for the first of them. */
  ghost predicate FirstDefect(r: Rules, f: Fields, k: nat) {
    k < 14 && !Meets(r, f, k) && forall j :: 0 <= j < k ==> Meets(r, f, j)
  }

  function Of<T>(judged: Judged<T>): Outcome<Code> {
    if judged.Ok? then Pass else Fail(judged.error)
  }

  function Equals(judged: Judged<u64>, n: u64, otherwise: Code): Outcome<Code> {
    if judged.Ok? then Need(judged.value == n, otherwise) else Fail(judged.error)
  }

  /** The steps of parsing, by number. */
  function Stage(r: Rules, f: Fields, k: nat): Outcome<Code> {
    if k == 0 then Equals(UintIn(f, VERSION), SUPPORTED_VERSION, Code.UnsupportedVersion)
    else if k == 1 then Equals(UintIn(f, SUITE), LAUNCH_SUITE, Code.UnknownSuite)
    else if k == 2 then Of(OpIn(f))
    else if k == 3 then Of(NameIn(r, f))
    else if k == 4 then Of(TldIn(r, f))
    else if k == 5 then Of(OwnerIn(r, f))
    else if k == 6 then Of(SeqIn(f))
    else if k == 7 then Of(TermIn(f))
    else if k == 8 then Of(EntriesIn(r, TextOf(Get(f, NAME)), TextOf(Get(f, TLD)), f))
    else if k == 9 then Of(ProofIn(f))
    else if k == 10 then if OpIn(f).Ok? && ProofIn(f).Ok? then ProofRule(OpIn(f).value, ProofIn(f).value) else Pass
    else if k == 11 then Of(BytesIn(f, SIG, 64))
    else if k == 12 then Of(BytesIn(f, PREV_HASH, 32))
    else Of(CoSigIn(f))
  }

  ghost predicate Matches(r: Rules, f: Fields, k: nat) {
    Stage(r, f, k) == if Meets(r, f, k) then Pass else Fail(DefectCode(r, f, k))
  }

  lemma {:induction false} NumberStages(r: Rules, f: Fields)
    ensures Matches(r, f, 0) && Matches(r, f, 1) && Matches(r, f, 6)
  {
    hide Get, Lit;
  }

  lemma {:induction false} TextStages(r: Rules, f: Fields)
    ensures Matches(r, f, 3) && Matches(r, f, 4)
    ensures NameIn(r, f).Ok? ==> NameIn(r, f).value == TextOf(Get(f, NAME))
    ensures TldIn(r, f).Ok? ==> TldIn(r, f).value == TextOf(Get(f, TLD))
  {
    hide Get, Lit;
  }

  lemma {:induction false} OpStage(r: Rules, f: Fields)
    ensures Matches(r, f, 2)
  {
    hide Get, Lit, ParseOp, OpName;
    if Get(f, OP).Some? && Get(f, OP).value.Text? {
      var text := Get(f, OP).value.text;
      forall op ensures ParseOp(text) == Some(op) <==> text == Lit(OpName(op)) {
        OpNamed(text, op);
      }
    }
  }

  lemma {:induction false} OctetStages(r: Rules, f: Fields)
    ensures Matches(r, f, 5) && Matches(r, f, 11) && Matches(r, f, 12) && Matches(r, f, 13)
  {
    hide Get, Lit;
  }

  lemma {:induction false} TermStage(r: Rules, f: Fields)
    ensures Matches(r, f, 7)
  {
    hide Get, Lit;
  }

  lemma {:induction false} EntriesStage(r: Rules, f: Fields)
    ensures Matches(r, f, 8)
  {
    hide Get, Lit, AliasesIn, GoodAmong;
    match Get(f, RECORDS)
    case Some(Array(items)) => AliasesInIff(r, TextOf(Get(f, NAME)), TextOf(Get(f, TLD)), |items|, items);
    case _ =>
  }

  lemma {:induction false} ClaimIff(proof: Fields, claim: Claim)
    ensures ClaimIn(proof) == Ok(claim) <==> GoodProof(proof, claim)
    ensures ClaimIn(proof).Err? ==> ClaimIn(proof) == Err(Code.BadPowShape)
  {
    hide Get, Lit;
  }

  lemma {:induction false} ProofStage(r: Rules, f: Fields)
    ensures Matches(r, f, 9)
  {
    match Get(f, POW_PROOF)
    case Some(Map(entries)) =>
      var proof := FieldMap(entries);
      if ClaimIn(proof).Ok? {
        ClaimIff(proof, ClaimIn(proof).value);
      }
      forall claim | GoodProof(proof, claim) ensures ClaimIn(proof) == Ok(claim) {
        ClaimIff(proof, claim);
      }
      ClaimIff(proof, Claim(0, ZERO_NONCE));
      hide ClaimIn, GoodProof, Get, Lit, FieldMap;
    case _ => hide ClaimIn, GoodProof, Get, Lit, FieldMap;
  }

  lemma {:induction false} ProofRuleStage(r: Rules, f: Fields)
    requires Meets(r, f, 2) && Meets(r, f, 9)
    ensures Matches(r, f, 10)
  {
    OpStage(r, f);
    ProofStage(r, f);
    hide OpName;
    var text := Get(f, OP).value.text;
    OpNamed(text, OpIn(f).value);
    OpNamed(text, Register);
    OpNamed(text, Renew);
    hide Get, Lit, FieldMap, ParseOp, ClaimIn, GoodProof;
  }

  /** The first step that fails, from `k` on. */
  ghost function FirstFailing(r: Rules, f: Fields, k: nat): nat
    decreases 14 - k
  {
    if k >= 14 || Stage(r, f, k).Fail? then k else FirstFailing(r, f, k + 1)
  }

  lemma {:induction false} FirstFails(r: Rules, f: Fields, k: nat)
    requires k <= 14
    ensures var n := FirstFailing(r, f, k);
            k <= n <= 14 && (n < 14 ==> Stage(r, f, n).Fail?) && forall j :: k <= j < n ==> Stage(r, f, j).Pass?
    decreases 14 - k
  {
    hide Stage;
    if k < 14 && Stage(r, f, k).Pass? {
      FirstFails(r, f, k + 1);
    }
  }

  lemma {:induction false} ParseFails(r: Rules, entries: seq<Entry>)
    ensures Parse(r, Map(entries)).Err? ==>
              var k := FirstFailing(r, FieldMap(entries), 0);
              k < 14 && Stage(r, FieldMap(entries), k) == Fail(Parse(r, Map(entries)).error)
  {
    var f := FieldMap(entries);
    hide Matches, Meets, DefectCode;
    TextStages(r, f);
    FirstFails(r, f, 0);
    var k := FirstFailing(r, f, 0);
    hide FieldMap, Get, UintIn, OpIn, NameIn, TldIn, OwnerIn, SeqIn, TermIn, EntriesIn, ProofIn, ProofRule, BytesIn,
         CoSigIn, TextOf, FirstFailing;
    assert k > 0 ==> Stage(r, f, 0).Pass?;
    assert k > 1 ==> Stage(r, f, 1).Pass?;
    assert k > 2 ==> Stage(r, f, 2).Pass?;
    assert k > 3 ==> Stage(r, f, 3).Pass?;
    assert k > 4 ==> Stage(r, f, 4).Pass?;
    assert k > 5 ==> Stage(r, f, 5).Pass?;
    assert k > 6 ==> Stage(r, f, 6).Pass?;
    assert k > 7 ==> Stage(r, f, 7).Pass?;
    assert k > 8 ==> Stage(r, f, 8).Pass?;
    assert k > 9 ==> Stage(r, f, 9).Pass?;
    assert k > 10 ==> Stage(r, f, 10).Pass?;
    assert k > 11 ==> Stage(r, f, 11).Pass?;
    assert k > 12 ==> Stage(r, f, 12).Pass?;
    assert k > 13 ==> Stage(r, f, 13).Pass?;
  }

  lemma {:induction false} StageMatches(r: Rules, f: Fields, k: nat)
    requires k < 14 && forall j :: 0 <= j < k ==> Meets(r, f, j)
    ensures Matches(r, f, k)
  {
    hide Stage, Meets, DefectCode, Matches;
    if k == 0 || k == 1 || k == 6 {
      NumberStages(r, f);
    } else if k == 2 {
      OpStage(r, f);
    } else if k == 3 || k == 4 {
      TextStages(r, f);
    } else if k == 5 || k == 11 || k == 12 || k == 13 {
      OctetStages(r, f);
    } else if k == 7 {
      TermStage(r, f);
    } else if k == 8 {
      EntriesStage(r, f);
    } else if k == 9 {
      ProofStage(r, f);
    } else {
      ProofRuleStage(r, f);
    }
  }

  lemma {:induction false} FailingIsDefect(r: Rules, f: Fields, k: nat)
    requires k < 14 && Stage(r, f, k).Fail? && forall j :: 0 <= j < k ==> Stage(r, f, j).Pass?
    ensures FirstDefect(r, f, k) && Stage(r, f, k) == Fail(DefectCode(r, f, k))
  {
    hide Stage, Meets, DefectCode;
    var n: nat := 0;
    while n < k
      invariant n <= k && forall j :: 0 <= j < n ==> Meets(r, f, j)
    {
      StageMatches(r, f, n);
      n := n + 1;
    }
    StageMatches(r, f, k);
  }

  /** What is no record is refused for the first of its defects, in the order of the specification: size,
      strict form, a map, then field by field. Whatever has none of them shows what a record may show. */
  lemma {:induction false} StructureRefused(r: Rules, p: Primitives, bytes: Octets, known: Known, now: u64,
                                            windowCount: u64)
    ensures var verdict := Judge(r, p, bytes, known, now, windowCount);
            if |bytes| > 4_096 then verdict == Reject(Code.TooLarge)
            else
              match Decode(bytes)
              case Err(_) => verdict == Reject(Code.NonCanonical)
              case Ok(Map(entries)) =>
                || (exists k :: FirstDefect(r, FieldMap(entries), k)
                                && verdict == Reject(DefectCode(r, FieldMap(entries), k)))
                || (exists x :: Shows(r, entries, x) && (!TextKeys(entries) ==> verdict == Reject(Code.NonCanonical)))
              case _ => verdict == Reject(Code.NotAMap)
  {
    if Decode(bytes).Ok? {
      StrictDecodingIsCanonical(bytes);
      if Decode(bytes).value.Map? {
        var entries := Decode(bytes).value.entries;
        var f := FieldMap(entries);
        SigningInputIs(bytes, entries);
        if Parse(r, Map(entries)).Ok? {
          ParsesIff(r, Map(entries), Parse(r, Map(entries)).value);
        } else {
          ParseFails(r, entries);
          FirstFails(r, f, 0);
          FailingIsDefect(r, f, FirstFailing(r, f, 0));
        }
      }
    }
    hide Decode, Encode, Parse, EncodeCore, SigningInput, SigningOctets, JudgeFirst, JudgeNext, FieldMap, TextKeys,
         FirstDefect, DefectCode, ShowsWhat, ShowsWhen, ShowsEntries, ShowsProof, ShowsSignatures, FirstFailing, Stage;
  }
}
