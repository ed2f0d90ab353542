/** Evidence of equivocation (client/src/verify.rs): two records of one owner, one name and one sequence
    number. What the ledger takes as parameters, made of the verifier's own parts. */
module Equivocation {
  import opened Base
  import opened Utf8
  import opened Cbor
  import opened CborCanonical
  import opened CborMembers
  import opened Domain
  import opened Record
  import opened RecordFacts
  import opened Chain
  import opened Verify
  import opened VerifyChain
  import opened Preimages
  import opened VerifySound
  import opened EvidenceText
  import opened Evidence
  import opened EvidenceRuns

  // ----- the two functions the ledger calls -----

  /** One half of a report: strictly encoded and well structured. */
  function Half(r: Rules, bytes: Octets): Option<ParsedRecord> {
    match Decode(bytes)
    case Err(_) => None
    case Ok(decoded) =>
      if Encode(decoded) != Ok(bytes) then None
      else
        match Parse(r, decoded)
        case Err(_) => None
        case Ok(record) => Some(record)
  }

  /** The signature that makes a record its owner's: on a TRANSFER the recipient's. */
  predicate Attributed(r: Rules, record: ParsedRecord) {
    match EncodeCore(record.entries)
    case Err(_) => false
    case Ok(core) =>
      var signature := if record.op == Transfer then record.coSig else Some(record.sig);
      signature.Some? && r.checks(record.ownerKey, SigningInput(core, LAUNCH_SUITE_BYTE), signature.value)
  }

  predicate SameSlot(x: ParsedRecord, y: ParsedRecord) {
    x.name == y.name && x.tld == y.tld && x.seqNo == y.seqNo && x.ownerKey == y.ownerKey
  }

  predicate IsEvidence(r: Rules, blake: Blake, a: Octets, b: Octets) {
    && a != b && |a| <= MAX_RECORD_BYTES && |b| <= MAX_RECORD_BYTES
    && Half(r, a).Some? && Half(r, b).Some?
    && SameSlot(Half(r, a).value, Half(r, b).value) && RecordHash(blake, a) != RecordHash(blake, b)
    && Attributed(r, Half(r, a).value) && Attributed(r, Half(r, b).value)
  }

  function Decimal(n: nat): Octets {
    if n < 10 then ['0' as int + n] else Decimal(n / 10) + ['0' as int + n % 10]
  }

  const SPACE: byte := ' ' as int

  /** Owner, domain, name and position, as one line of text. */
  function KeyText(record: ParsedRecord): Octets {
    Hex(record.ownerKey) + ([SPACE] + (record.tld + ([SPACE] + (record.name + ([SPACE] + Decimal(record.seqNo))))))
  }

  function EquivocationKey(r: Rules, bytes: Octets): Option<Octets> {
    match Decode(bytes)
    case Err(_) => None
    case Ok(decoded) =>
      match Parse(r, decoded)
      case Err(_) => None
      case Ok(record) => Some(KeyText(record))
  }

  // ----- what evidence is -----

  /** Strict decoding makes the re-encoding test idle, so a half is exactly what has a key. */
  lemma {:induction false} HalfHasKey(r: Rules, bytes: Octets)
    ensures Half(r, bytes).Some? <==> EquivocationKey(r, bytes).Some?
    ensures Half(r, bytes).Some? ==> EquivocationKey(r, bytes).value == KeyText(Half(r, bytes).value)
  {
    if Decode(bytes).Ok? {
      StrictDecodingIsCanonical(bytes);
    }
    hide Parse, KeyText;
  }

  /** Evidence is about two different records, whichever comes first, and about one fact. */
  lemma {:induction false} EvidenceIsOneFact(r: Rules, blake: Blake, a: Octets, b: Octets)
    requires IsEvidence(r, blake, a, b)
    ensures IsEvidence(r, blake, b, a) && !IsEvidence(r, blake, a, a)
    ensures EquivocationKey(r, a).Some? && EquivocationKey(r, a) == EquivocationKey(r, b)
  {
    hide Half, EquivocationKey, Attributed;
    HalfHasKey(r, a);
    HalfHasKey(r, b);
  }

  /** The key that the record names accepts, over the record without its signatures, the signature that makes
      it that key's own: the counter-signature of a TRANSFER, the signature of any other. */
  ghost predicate OwnerSigned(r: Rules, x: ParsedRecord) {
    if x.op.Transfer? then x.coSig.Some? && SignedBy(r, x.ownerKey, x.entries, x.coSig.value)
    else SignedBy(r, x.ownerKey, x.entries, x.sig)
  }

  /** Octets that decode to a record that shows these things, signed by the owner it names. */
  ghost predicate SignedHalf(r: Rules, bytes: Octets, x: ParsedRecord) {
    && |bytes| <= 4_096 && Decode(bytes) == Ok(Map(x.entries)) && TextKeys(x.entries)
    && Shows(r, x.entries, x) && OwnerSigned(r, x)
  }

  lemma {:induction false} SignedHalfIff(r: Rules, bytes: Octets, x: ParsedRecord)
    ensures SignedHalf(r, bytes, x) <==> |bytes| <= MAX_RECORD_BYTES && Half(r, bytes) == Some(x) && Attributed(r, x)
  {
    if Decode(bytes).Ok? {
      StrictDecodingIsCanonical(bytes);
      ParsesIff(r, Decode(bytes).value, x);
      if Decode(bytes).value.Map? {
        SigningInputIs(bytes, Decode(bytes).value.entries);
      }
    }
    hide Decode, Encode, EncodeCore, SigningInput, SigningOctets, Parse, TextKeys, ShowsWhat, ShowsWhen, ShowsEntries,
         ShowsProof, ShowsSignatures;
  }

  /** Two byte strings are evidence exactly when they decode to two records of one owner, one name and one
      position, with different hashes, and that owner has signed each of them. */
  lemma {:induction false} EvidenceIff(r: Rules, blake: Blake, a: Octets, b: Octets)
    ensures IsEvidence(r, blake, a, b)
       <==> exists x, y ::
              && SignedHalf(r, a, x) && SignedHalf(r, b, y)
              && x.ownerKey == y.ownerKey && x.name == y.name && x.tld == y.tld && x.seqNo == y.seqNo
              && blake(HashingOctets(a)) != blake(HashingOctets(b))
  {
    HashIs(blake, a);
    HashIs(blake, b);
    hide Half, Attributed, SignedHalf, HashingOctets, RecordHash;
    if Half(r, a).Some? && Half(r, b).Some? {
      SignedHalfIff(r, a, Half(r, a).value);
      SignedHalfIff(r, b, Half(r, b).value);
    }
    forall x | SignedHalf(r, a, x) ensures |a| <= MAX_RECORD_BYTES && Half(r, a) == Some(x) && Attributed(r, x) {
      SignedHalfIff(r, a, x);
    }
    forall y | SignedHalf(r, b, y) ensures |b| <= MAX_RECORD_BYTES && Half(r, b) == Some(y) && Attributed(r, y) {
      SignedHalfIff(r, b, y);
    }
  }

  /** The number a row of decimal digits stands for. */
  function FromDecimal(digits: Octets): int {
    if |digits| == 0 then 0 else 10 * FromDecimal(digits[..|digits| - 1]) + digits[|digits| - 1] - '0' as int
  }

  /** Digits only, no more of them than needed, and they stand for the number. */
  ghost predicate Numeral(digits: Octets, n: nat) {
    && |digits| > 0 && (forall i :: 0 <= i < |digits| ==> '0' as int <= digits[i] <= '9' as int)
    && (|digits| > 1 ==> digits[0] != '0' as int) && FromDecimal(digits) == n
  }

  lemma {:induction false} DecimalIs(n: nat)
    ensures Numeral(Decimal(n), n) && (n > 0 ==> Decimal(n)[0] != '0' as int)
    decreases n
  {
    if n >= 10 {
      DecimalIs(n / 10);
      assert Decimal(n)[..|Decimal(n)| - 1] == Decimal(n / 10);
    } else {
      assert Decimal(n)[..0] == [];
    }
  }

  /** The key of octets: the owner in hex, the domain, the name and the position, with a space between; there is
      one exactly when they decode to a record. */
  lemma {:induction false} KeyIs(r: Rules, bytes: Octets, x: ParsedRecord)
    requires Decode(bytes) == Ok(Map(x.entries)) && Shows(r, x.entries, x)
    ensures exists digits :: Numeral(digits, x.seqNo)
              && EquivocationKey(r, bytes)
                 == Some(Hex(x.ownerKey) + [0x20] + x.tld + [0x20] + x.name + [0x20] + digits)
  {
    ParsesIff(r, Map(x.entries), x);
    DecimalIs(x.seqNo);
    hide Decode, Parse, Shows, Hex, Decimal, Numeral;
    var digits := Decimal(x.seqNo);
    assert KeyText(x) == Hex(x.ownerKey) + [0x20] + x.tld + [0x20] + x.name + [0x20] + digits;
  }

  // ----- what a key identifies -----

  ghost predicate Unspaced(s: Octets) {
    forall i :: 0 <= i < |s| ==> s[i] != SPACE
  }

  lemma {:induction false} CutAtSpace(a: Octets, x: Octets, b: Octets, y: Octets)
    requires Unspaced(a) && Unspaced(b) && a + ([SPACE] + x) == b + ([SPACE] + y)
    ensures a == b && x == y
  {
    var s, t := a + ([SPACE] + x), b + ([SPACE] + y);
    assert s[|a|] == SPACE && t[|b|] == SPACE;
    assert forall k :: 0 <= k < |b| ==> t[k] == b[k];
    assert forall k :: 0 <= k < |a| ==> s[k] == a[k];
    assert s[..|a|] == a && t[..|b|] == b && s[|a| + 1..] == x && t[|b| + 1..] == y;
  }

  lemma {:induction false} DecimalInjective(m: nat, n: nat)
    requires Decimal(m) == Decimal(n)
    ensures m == n
    decreases m
  {
    var x, y := Decimal(m), Decimal(n);
    assert x[|x| - 1] == '0' as int + m % 10 && y[|y| - 1] == '0' as int + n % 10;
    if m >= 10 {
      assert x[..|x| - 1] == Decimal(m / 10);
      DecimalLong(m / 10);
      assert n >= 10;
      assert y[..|y| - 1] == Decimal(n / 10);
      DecimalInjective(m / 10, n / 10);
    } else if n >= 10 {
      DecimalLong(n / 10);
    }
  }

  lemma {:induction false} DecimalLong(n: nat)
    ensures |Decimal(n)| >= 1
  {
  }

  lemma {:induction false} HexUnspaced(bytes: Octets)
    ensures Unspaced(Hex(bytes))
  {
    if |bytes| > 0 {
      HexUnspaced(bytes[..|bytes| - 1]);
    }
  }

  /** The key is the fact: with names and domains that hold no space, two records have one key exactly when
      owner, domain, name and position are the same. */
  lemma {:induction false} KeyIsFact(x: ParsedRecord, y: ParsedRecord)
    requires Unspaced(x.tld) && Unspaced(y.tld) && Unspaced(x.name) && Unspaced(y.name)
    ensures KeyText(x) == KeyText(y) <==> SameSlot(x, y)
  {
    hide Hex, Decimal, Unspaced;
    if KeyText(x) == KeyText(y) {
      HexUnspaced(x.ownerKey);
      HexUnspaced(y.ownerKey);
      CutAtSpace(Hex(x.ownerKey), x.tld + ([SPACE] + (x.name + ([SPACE] + Decimal(x.seqNo)))),
                 Hex(y.ownerKey), y.tld + ([SPACE] + (y.name + ([SPACE] + Decimal(y.seqNo)))));
      CutAtSpace(x.tld, x.name + ([SPACE] + Decimal(x.seqNo)), y.tld, y.name + ([SPACE] + Decimal(y.seqNo)));
      CutAtSpace(x.name, Decimal(x.seqNo), y.name, Decimal(y.seqNo));
      UnhexHex(x.ownerKey);
      UnhexHex(y.ownerKey);
      DecimalInjective(x.seqNo, y.seqNo);
    }
  }

  // ----- forks of a chain -----

  /** What a record needs to be parsed at all. */
  ghost predicate WellFormed(r: Rules, steps: seq<Step>, i: nat, bytes: Octets)
    requires i < |steps|
  {
    && |bytes| <= MAX_RECORD_BYTES && !r.smallOrder(OwnerAfter(steps[i])) && i <= MAX_SEQ
    && AllAdmissible(r, steps[i].name, steps[i].tld, EntriesAt(steps, i))
  }

  /** A record of a chain is a half that is its owner's. */
  lemma {:induction false} RecordIsHalf(r: Rules, p: Primitives, steps: seq<Step>, records: seq<Octets>, i: nat)
    requires IsChain(p, steps, records) && i < |records| && OneGrammar(r, p) && OwnKeys(r, steps[i], records[i])
    requires WellFormed(r, steps, i, records[i])
    ensures Half(r, records[i]).Some? && Attributed(r, Half(r, records[i]).value)
    ensures var record := Half(r, records[i]).value;
            && record.name == steps[i].name && record.tld == steps[i].tld && record.seqNo == i
            && record.ownerKey == OwnerAfter(steps[i])
  {
    var d, entries, signature, coSignature := RecordStands(p, steps, records, i);
    var claim := ClaimStands(p, steps, records, i, d, entries, signature, coSignature);
    ParsesStands(r, p, steps, records, i, d, entries, signature, coSignature, claim);
    assert |steps| == |records|;
    InputIs(records[i], entries);
    hide IsChain, Decode, FieldMap, Says, EncodeCore, Parse, AllAdmissible, FromBytes, EntriesField, Canon, EntriesAt,
         OwnKeys, OneGrammar, Claimed, InputOf, Attested, Half, Attributed;
    HalfIs(r, records[i], entries, ParsedOf(d, entries, signature, coSignature, claim));
    AttestedIs(r, steps[i], records[i], entries, ParsedOf(d, entries, signature, coSignature, claim));
  }

  lemma {:induction false} HalfIs(r: Rules, bytes: Octets, entries: seq<Entry>, record: ParsedRecord)
    requires Decode(bytes) == Ok(Map(entries)) && Parse(r, Map(entries)) == Ok(record)
    ensures Half(r, bytes) == Some(record)
  {
    StrictDecodingIsCanonical(bytes);
    hide Parse, Decode, Encode;
  }

  lemma {:induction false} AttestedIs(r: Rules, s: Step, bytes: Octets, entries: seq<Entry>, record: ParsedRecord)
    requires Attested(s, entries, record.sig, record.coSig) && record.entries == entries && record.op == OpOf(s)
    requires record.ownerKey == OwnerAfter(s) && OwnKeys(r, s, bytes)
    requires InputOf(bytes) == SigningInput(EncodeCore(entries).value, LAUNCH_SUITE_BYTE)
    ensures Attributed(r, record)
  {
    hide EncodeCore, SigningInput, InputOf;
    var input := SigningInput(EncodeCore(entries).value, LAUNCH_SUITE_BYTE);
    if s.ToTransfer? {
      assert s.recipient.sign(input) == record.coSig;
    }
  }

  /** Forks are evidence: two different records that one owner put at one position of one name, on whatever
      chains, prove it by themselves. */
  lemma {:induction false} ForksAreEvidence(r: Rules, p: Primitives, steps: seq<Step>, records: seq<Octets>,
                                            others: seq<Step>, otherRecords: seq<Octets>, i: nat)
    requires OneGrammar(r, p) && IsChain(p, steps, records) && IsChain(p, others, otherRecords)
    requires i < |records| && i < |otherRecords|
    requires OwnKeys(r, steps[i], records[i]) && OwnKeys(r, others[i], otherRecords[i])
    requires WellFormed(r, steps, i, records[i]) && WellFormed(r, others, i, otherRecords[i])
    requires steps[i].name == others[i].name && steps[i].tld == others[i].tld
             && OwnerAfter(steps[i]) == OwnerAfter(others[i])
    ensures IsEvidence(r, p.blake, records[i], otherRecords[i])
       <==> RecordHash(p.blake, records[i]) != RecordHash(p.blake, otherRecords[i])
  {
    RecordIsHalf(r, p, steps, records, i);
    RecordIsHalf(r, p, others, otherRecords, i);
    hide IsChain, Half, Attributed, OneGrammar, OwnKeys, AllAdmissible, EntriesAt, RecordHash;
  }

  // ----- the ledger over these functions -----

  /** The ledger's two functions, for a grammar whose names and domains hold no quote and no newline. */
  function LedgerChecks(r: Rules, blake: Blake): Checks {
    Checks((a, b) => IsEvidence(r, blake, a, b), a => LedgerKey(r, a))
  }

  function LedgerKey(r: Rules, bytes: Octets): Option<FactKey> {
    match EquivocationKey(r, bytes)
    case Some(text) => if QuoteFree(text) && ValidUtf8(text) then Some(text) else None
    case None => None
  }

  lemma {:induction false} ConcatQuoteFree(a: Octets, b: Octets)
    requires QuoteFree(a) && QuoteFree(b)
    ensures QuoteFree(a + b)
  {
    forall i | 0 <= i < |a + b| ensures Plain(a + b, i) {
      if i < |a| {
        assert Plain(a, i);
      } else {
        assert Plain(b, i - |a|);
      }
    }
  }

  lemma {:induction false} DecimalQuoteFree(n: nat)
    ensures QuoteFree(Decimal(n))
  {
    if n >= 10 {
      DecimalQuoteFree(n / 10);
      ConcatQuoteFree(Decimal(n / 10), ['0' as int + n % 10]);
    }
  }

  lemma {:induction false} KeyQuoteFree(record: ParsedRecord)
    requires QuoteFree(record.name) && QuoteFree(record.tld)
    ensures QuoteFree(KeyText(record))
  {
    hide QuoteFree, Hex, Decimal;
    SpaceQuoteFree();
    UnhexHex(record.ownerKey);
    DecimalQuoteFree(record.seqNo);
    var last := [SPACE] + Decimal(record.seqNo);
    ConcatQuoteFree([SPACE], Decimal(record.seqNo));
    ConcatQuoteFree(record.name, last);
    ConcatQuoteFree([SPACE], record.name + last);
    ConcatQuoteFree(record.tld, [SPACE] + (record.name + last));
    ConcatQuoteFree([SPACE], record.tld + ([SPACE] + (record.name + last)));
    ConcatQuoteFree(Hex(record.ownerKey), [SPACE] + (record.tld + ([SPACE] + (record.name + last))));
  }

  lemma {:induction false} SpaceQuoteFree()
    ensures QuoteFree([SPACE]) && ValidUtf8([SPACE])
  {
    AsciiValid([SPACE]);
  }

  lemma {:induction false} DecimalValid(n: nat)
    ensures ValidUtf8(Decimal(n))
  {
    AsciiValid(['0' as int + n % 10]);
    if n >= 10 {
      DecimalValid(n / 10);
      ConcatValid(Decimal(n / 10), ['0' as int + n % 10]);
    }
  }

  lemma {:induction false} KeyValid(record: ParsedRecord)
    ensures ValidUtf8(KeyText(record))
  {
    hide ValidUtf8, Hex, Decimal;
    SpaceQuoteFree();
    HexAscii(record.ownerKey);
    DecimalValid(record.seqNo);
    var last := [SPACE] + Decimal(record.seqNo);
    ConcatValid([SPACE], Decimal(record.seqNo));
    ConcatValid(record.name, last);
    ConcatValid([SPACE], record.name + last);
    ConcatValid(record.tld, [SPACE] + (record.name + last));
    ConcatValid([SPACE], record.tld + ([SPACE] + (record.name + last)));
    ConcatValid(Hex(record.ownerKey), [SPACE] + (record.tld + ([SPACE] + (record.name + last))));
  }

  /** From builder to ledger: an owner's fork, detected, is recorded unless the ledger knows the fact or has
      spent its budget for detections. */
  lemma {:induction false} ForkIsRecorded(r: Rules, p: Primitives, steps: seq<Step>, records: seq<Octets>,
                                          others: seq<Step>,
                                          otherRecords: seq<Octets>, i: nat, limits: Limits, s: State)
    requires OneGrammar(r, p) && IsChain(p, steps, records) && IsChain(p, others, otherRecords)
    requires i < |records| && i < |otherRecords|
    requires OwnKeys(r, steps[i], records[i]) && OwnKeys(r, others[i], otherRecords[i])
    requires WellFormed(r, steps, i, records[i]) && WellFormed(r, others, i, otherRecords[i])
    requires steps[i].name == others[i].name && steps[i].tld == others[i].tld
             && OwnerAfter(steps[i]) == OwnerAfter(others[i])
    requires RecordHash(p.blake, records[i]) != RecordHash(p.blake, otherRecords[i])
    requires QuoteFree(steps[i].name) && QuoteFree(steps[i].tld)
    ensures EquivocationKey(r, records[i]).Some?
    ensures var key := EquivocationKey(r, records[i]).value;
            Admit(LedgerChecks(r, p.blake), limits, s, records[i], otherRecords[i], Detected).result
            == Ok(if Evidence.Holds(s.entries, key) then Duplicate
                  else if CountOf(s.entries, Detected) >= limits.detected then Full else Recorded)
  {
    ForksAreEvidence(r, p, steps, records, others, otherRecords, i);
    RecordIsHalf(r, p, steps, records, i);
    HalfHasKey(r, records[i]);
    KeyQuoteFree(Half(r, records[i]).value);
    KeyValid(Half(r, records[i]).value);
    hide IsChain, IsEvidence, Half, OneGrammar, OwnKeys, WellFormed, EquivocationKey, Attributed, Evidence.Holds,
         CountOf;
  }
}
