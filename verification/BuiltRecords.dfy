/** What the six builders make (client/src/record.rs), field by field on the wire, and exactly when they make
    it. */
module BuiltRecords {
  import opened Base
  import opened Ordering
  import opened Utf8
  import opened Cbor
  import opened CborMembers
  import opened CborWire
  import opened Domain
  import opened Pow
  import opened Preimages
  import opened Record
  import opened RecordFacts
  import opened ProofBinding
  import opened Chain
  import opened Encodable
  import opened Renewal

  // ----- a record on the wire -----

  /** The fields of a record by name, each with its value; a counter-signature only where there is one. */
  function RecordFields(op: Name, name: Str, tld: Str, ownerKey: Octets, seqNo: u64, notBefore: u64, notAfter: u64,
                      records: Value, proof: Value, prevHash: Octets, sig: Octets, coSig: Option<Signature>)
    : seq<(Name, Value)>
  {
    [("version", UInt(1)), ("suite", UInt(1)), ("op", Text(Lit(op))), ("name", Text(name)), ("tld", Text(tld)),
     ("ownerKey", Bytes(ownerKey)), ("seq", UInt(seqNo)), ("notBefore", UInt(notBefore)), ("notAfter", UInt(notAfter)),
     ("records", records), ("powProof", proof), ("prevHash", Bytes(prevHash)), ("sig", Bytes(sig))]
    + if coSig.Some? then [("coSig", Bytes(coSig.value))] else []
  }

  function Field(name: Name, value: Value): Entry {
    Entry(TextKey(Lit(name)), value)
  }

  /** A proof of work: the algorithm, the claimed difficulty, the nonce. */
  function ProofItem(bits: u32, nonce: Octets): Value {
    Map([Field("alg", Text(Lit("argon2id-v19-m65536-t2-p1"))), Field("bits", UInt(bits)), Field("nonce", Bytes(nonce))])
  }

  function KindText(e: RecordEntry): Name {
    match e.value
    case Peer(_) => "peer"
    case Ipns(_) => "ipns"
    case ContentId(_) => "cid"
    case Txt(_) => "txt"
    case Alias(_, _) => "alias"
  }

  function ValueItem(e: RecordEntry): Value {
    match e.value
    case Peer(key) => Bytes(key)
    case Ipns(text) => Text(text)
    case ContentId(bytes) => Bytes(bytes)
    case Txt(text) => Text(text)
    case Alias(name, tld) => Text(AliasText(name, tld))
  }

  /** An entry: its time to live, an hour unless it says so, its type and its value. */
  function EntryItem(e: RecordEntry): Value {
    Map([Field("ttl", UInt(if e.ttl.Some? then e.ttl.value else 3_600)), Field("type", Text(Lit(KindText(e)))),
         Field("value", ValueItem(e))])
  }

  function EntryItems(list: seq<RecordEntry>): (r: seq<Value>)
    ensures |r| == |list| && forall i :: 0 <= i < |list| ==> r[i] == EntryItem(list[i])
  {
    seq(|list|, i requires 0 <= i < |list| => EntryItem(list[i]))
  }

  // ----- which entries can be put into a record -----

  ghost predicate Fine(e: RecordEntry) {
    && (e.ttl.Some? ==> 60 <= e.ttl.value <= 86_400)
    && match e.value
       case Ipns(text) => 1 <= CharCount(text) <= 128 && |text| <= 512
       case ContentId(bytes) => 1 <= |bytes| <= 64
       case Txt(text) => 1 <= |text| <= 255 && forall i :: 0 <= i < |text| ==> text[i] >= 0x20
       case _ => true
  }

  /** At most 32 of them, each fine, an alias only alone. */
  ghost predicate AllFine(list: seq<RecordEntry>) {
    && |list| <= 32
    && forall i :: 0 <= i < |list| ==> Fine(list[i]) && (list[i].value.Alias? ==> |list| == 1)
  }

  lemma {:induction false} EntryMapIff(e: RecordEntry)
    ensures EntryMap(e).Ok? <==> Fine(e)
  {
    hide CharCount, Lit, Members;
  }

  lemma {:induction false} KindsAre(e: RecordEntry)
    requires TypedValue(e.value).Ok?
    ensures TypedValue(e.value).value == (KindText(e), ValueItem(e))
  {
    hide CharCount, Lit, AliasText;
  }

  /** What the wire gives back of an entry. */
  lemma {:induction false} EntryCanon(e: RecordEntry)
    requires EntryMap(e).Ok?
    ensures Canon(EntryMap(e).value) == EntryItem(e)
  {
    KindsAre(e);
    hide CharCount, AliasText, TypedValue, KindText, ValueItem;
    var ttl: u64 := if e.ttl.Some? then e.ttl.value else DEFAULT_TTL;
    var wire := [Field("ttl", UInt(ttl)), Field("type", Text(Lit(KindText(e)))), Field("value", ValueItem(e))];
    var members := Members([TYPE, VALUE, TTL], [Text(Lit(KindText(e))), ValueItem(e), UInt(ttl)]);
    assert EntryMap(e).value == Map(members);
    assert members == [wire[1], wire[2], wire[0]];
    ScalarValue(e);
    ThreeSorted(wire);
  }

  lemma {:induction false} ScalarValue(e: RecordEntry)
    ensures ValueItem(e).Text? || ValueItem(e).Bytes?
  {
  }

  /** Three scalar fields, in whatever order they are listed. */
  lemma {:induction false} ThreeSorted(wire: seq<Entry>)
    requires |wire| == 3 && Increasing(EntryKey, wire)
    requires forall e :: e in wire ==> e.value.Text? || e.value.Bytes? || e.value.UInt?
    ensures Canon(Map([wire[1], wire[2], wire[0]])) == Map(wire)
  {
    var members := [wire[1], wire[2], wire[0]];
    forall i | 0 <= i < 3 ensures CanonEntries(members)[i] == members[i] {
      assert members[i] in wire;
      FlatEntry(members[i]);
    }
    assert CanonEntries(members) == members;
    IncreasingDistinct(EntryKey, wire);
    hide EntryKey, Less;
    var sorted := Sort(EntryKey, members);
    assert EntryKey(wire[0]) != EntryKey(wire[1]) && EntryKey(wire[1]) != EntryKey(wire[2])
           && EntryKey(wire[0]) != EntryKey(wire[2]);
    assert Distinct(EntryKey, members);
    SortIncreasing(EntryKey, members);
    forall e ensures e in sorted <==> e in wire {
      SortMembers(EntryKey, members, e);
    }
    IncreasingUnique(EntryKey, sorted, wire);
  }

  lemma {:induction false} EntryMapsAre(list: seq<RecordEntry>)
    ensures EntryMaps(list).Ok? <==> forall i :: 0 <= i < |list| ==> Fine(list[i])
    ensures EntryMaps(list).Ok? ==> CanonItems(EntryMaps(list).value) == EntryItems(list)
    ensures EntryMaps(list).Err? ==> EntryMaps(list) == Err(BadEntry)
  {
    hide EntryMap, Fine, EntryItem, Canon;
    if |list| > 0 {
      var front, last := list[..|list| - 1], list[|list| - 1];
      EntryMapsAre(front);
      EntryMapIff(last);
      RefusedEntry(last);
      if EntryMaps(list).Ok? {
        EntryCanon(last);
        var items := EntryMaps(front).value;
        assert (items + [EntryMap(last).value])[..|items|] == items;
        assert CanonItems(items + [EntryMap(last).value]) == EntryItems(front) + [EntryItem(last)];
        assert EntryItems(list) == EntryItems(front) + [EntryItem(last)];
      }
    }
  }

  lemma {:induction false} RefusedEntry(e: RecordEntry)
    ensures EntryMap(e).Err? ==> EntryMap(e) == Err(BadEntry)
  {
    hide CharCount, Lit, Members;
  }

  lemma {:induction false} AliasesCounted(list: seq<RecordEntry>)
    ensures AliasCount(list) <= |list|
    ensures AliasCount(list) > 0 <==> exists i :: 0 <= i < |list| && list[i].value.Alias?
  {
    if |list| > 0 {
      AliasesCounted(list[..|list| - 1]);
    }
  }

  /** Entries are put into a record exactly when all of them are fine, and as they are written here. */
  lemma {:induction false} EntriesFieldIff(list: seq<RecordEntry>)
    ensures EntriesField(list).Ok? <==> AllFine(list)
    ensures EntriesField(list).Ok? ==> Canon(EntriesField(list).value) == Array(EntryItems(list))
    ensures |list| > 32 ==> EntriesField(list) == Err(TooManyEntries(|list|))
    ensures |list| <= 32 && !AllFine(list) ==> EntriesField(list) == Err(BadEntry)
  {
    EntryMapsAre(list);
    AliasesCounted(list);
    hide EntryMaps, Fine, EntryItem, CanonItems;
  }

  // ----- what a record holds -----

  lemma {:induction false} ProofIsItem(bits: u32, nonce: Nonce)
    ensures Map(Proof(bits, nonce)) == ProofItem(bits, nonce)
  {
    assert Proof(bits, nonce) == [Member(ALG, Text(AlgorithmText())), Member(BITS, UInt(bits)),
                                  Member(NONCE, Bytes(nonce))];
  }

  /** The signatures in these octets are what their signers make over the octets' own signing input. */
  ghost predicate SignedAs(bytes: Octets, signer: Identity, coSigner: Option<Identity>, sig: Signature,
                           coSig: Option<Signature>)
  {
    match Decode(bytes)
    case Ok(Map(entries)) =>
      && signer.sign(SigningOctets(entries)) == Some(sig)
      && (match coSigner
          case Some(co) => coSig.Some? && co.sign(SigningOctets(entries)) == coSig
          case None => coSig.None?)
    case _ => false
  }

  lemma {:induction false} EmittedHolds(d: Draft, signer: Identity, coSigner: Option<Identity>, bytes: Octets,
                                        op: Name)
    returns (sig: Signature, coSig: Option<Signature>)
    requires Emitted(d, signer, coSigner, bytes) && op == OpText(d.op)
    ensures HoldsExactly(bytes, RecordFields(op, d.name, d.tld, d.ownerKey, d.seqNo, d.notBefore, d.notAfter,
                                           Canon(d.records), Canon(d.proof), d.prevHash, sig, coSig))
    ensures SignedAs(bytes, signer, coSigner, sig, coSig)
  {
    hide Encode, Decode, Skeleton, Signed, DraftValues, OpText, SigningInput, SigningOctets, EncodeCore, RecordFields;
    sig, coSig :| EmittedWith(d, signer, coSigner, bytes, sig, coSig);
    ReadsBack(d, sig, coSig, bytes);
    var entries := Sorted(Signed(Skeleton(d), sig, coSig));
    SkeletonSigned(d, sig, coSig);
    CoreSurvives(Skeleton(d), Signed(Skeleton(d), sig, coSig));
    SigningInputIs(bytes, entries);
    RecordHeld(d, sig, coSig, op);
  }

  lemma {:induction false} RecordHeld(d: Draft, sig: Signature, coSig: Option<Signature>, op: Name)
    requires Encode(Map(Signed(Skeleton(d), sig, coSig))).Ok? && op == OpText(d.op)
    ensures HoldsExactly(Encode(Map(Signed(Skeleton(d), sig, coSig))).value,
                         RecordFields(op, d.name, d.tld, d.ownerKey, d.seqNo, d.notBefore, d.notAfter, Canon(d.records),
                                    Canon(d.proof), d.prevHash, sig, coSig))
  {
    hide Encode, Decode, Skeleton, Signed, OpText, Lit, HoldsExactly, Sort;
    NamesDiffer(coSig);
    SignedIsMembers(d, sig, coSig);
    var names, values := NamesOf(coSig), ValuesOf(d, sig, coSig);
    var fields := RecordFields(op, d.name, d.tld, d.ownerKey, d.seqNo, d.notBefore, d.notAfter, Canon(d.records),
                             Canon(d.proof), d.prevHash, sig, coSig);
    FieldsAre(d, sig, coSig, op);
    MembersHeld(names, values, fields);
  }

  lemma {:induction false} FieldsAre(d: Draft, sig: Signature, coSig: Option<Signature>, op: Name)
    requires op == OpText(d.op)
    ensures var names, values := NamesOf(coSig), ValuesOf(d, sig, coSig);
            var fields := RecordFields(op, d.name, d.tld, d.ownerKey, d.seqNo, d.notBefore, d.notAfter,
                                       Canon(d.records), Canon(d.proof), d.prevHash, sig, coSig);
            && |fields| == |names| && forall i :: 0 <= i < |names| ==>
                 fields[i].0 == names[i] && fields[i].1 == Canon(values[i])
  {
    SignedFieldsAre(d, sig, op);
    var names, values := NamesOf(None), ValuesOf(d, sig, None);
    var fields := RecordFields(op, d.name, d.tld, d.ownerKey, d.seqNo, d.notBefore, d.notAfter, Canon(d.records),
                               Canon(d.proof), d.prevHash, sig, None);
    if coSig.Some? {
      AnotherField(d, sig, coSig.value, op, fields);
      hide RecordFields, DraftValues, Canon;
      assert NamesOf(coSig) == names + [CO_SIG];
      assert ValuesOf(d, sig, coSig) == values + [Bytes(coSig.value)];
      FlatValue(coSig.value);
    }
  }

  lemma {:induction false} FlatValue(b: Octets)
    ensures Canon(Bytes(b)) == Bytes(b)
  {
  }

  lemma {:induction false} AnotherField(d: Draft, sig: Signature, coSig: Signature, op: Name,
                                        fields: seq<(Name, Value)>)
    requires fields == RecordFields(op, d.name, d.tld, d.ownerKey, d.seqNo, d.notBefore, d.notAfter,
                                    Canon(d.records), Canon(d.proof), d.prevHash, sig, None)
    ensures RecordFields(op, d.name, d.tld, d.ownerKey, d.seqNo, d.notBefore, d.notAfter, Canon(d.records),
                         Canon(d.proof), d.prevHash, sig, Some(coSig))
         == fields + [("coSig", Bytes(coSig))]
  {
    hide Canon, Lit;
  }

  lemma {:induction false} SignedFieldsAre(d: Draft, sig: Signature, op: Name)
    requires op == OpText(d.op)
    ensures var names, values := SIGNED_NAMES, ValuesOf(d, sig, None);
            var fields := RecordFields(op, d.name, d.tld, d.ownerKey, d.seqNo, d.notBefore, d.notAfter,
                                       Canon(d.records), Canon(d.proof), d.prevHash, sig, None);
            && |fields| == |names| && forall i :: 0 <= i < |names| ==>
                 fields[i].0 == names[i] && fields[i].1 == Canon(values[i])
  {
    hide OpText, Lit;
  }

  /** Where a record carries its entries. */
  lemma {:induction false} RecordsHeld(bytes: Octets, op: Name, name: Str, tld: Str, ownerKey: Octets, seqNo: u64,
                                       notBefore: u64, notAfter: u64, records: Value, proof: Value, prevHash: Octets,
                                       sig: Octets, coSig: Option<Signature>)
    requires HoldsExactly(bytes, RecordFields(op, name, tld, ownerKey, seqNo, notBefore, notAfter, records, proof,
                                              prevHash, sig, coSig))
    ensures FieldIn(bytes, RECORDS) == Some(records)
  {
    var fields := RecordFields(op, name, tld, ownerKey, seqNo, notBefore, notAfter, records, proof, prevHash, sig,
                               coSig);
    assert fields[9] == (RECORDS, records);
    hide Decode, FieldMap, Lit, RecordFields;
  }

  // ----- the six builders -----

  /** A registration: position 0, no predecessor, a term of 31,536,000 seconds from now, the entries it was
      asked for, a proof of the difficulty it was asked for or else of the required one. */
  lemma {:induction false} RegisterHolds(p: Primitives, s: Step, bytes: Octets) returns (nonce: Nonce, sig: Signature)
    requires s.ToRegister? && First(p, s) == Ok(bytes)
    ensures var bits := if s.bits.Some? then s.bits.value else RequiredBits(CharCount(s.name), s.windowCount);
            && s.now + 31_536_000 < U64_LIMIT && bits < U32_LIMIT
            && HoldsExactly(bytes, RecordFields("REGISTER", s.name, s.tld, s.identity.publicKey, 0, s.now,
                                              s.now + 31_536_000, Array(EntryItems(s.entries)),
                                              ProofItem(bits, nonce), seq(32, _ => 0), sig, None))
    ensures SignedAs(bytes, s.identity, None, sig, None)
  {
    hide First, Emitted, FieldIn, FromBytes, CharCount, RequiredBits, EntriesField, Proof, HoldsExactly, RecordFields,
         SignedAs, Canon, EntryItems;
    var d := FirstCarries(p, s, bytes);
    nonce :| d.proof == Map(Proof(BitsOf(s), nonce));
    ProofCanonical(BitsOf(s), nonce);
    ProofIsItem(BitsOf(s), nonce);
    EntriesFieldIff(s.entries);
    var coSig: Option<Signature>;
    sig, coSig := EmittedHolds(d, s.identity, None, bytes, "REGISTER");
    SignedAlone(bytes, s.identity, sig, coSig);
    assert ZERO_HASH == seq(32, _ => 0);
  }

  lemma {:induction false} SignedAlone(bytes: Octets, signer: Identity, sig: Signature, coSig: Option<Signature>)
    requires SignedAs(bytes, signer, None, sig, coSig)
    ensures coSig == None
  {
    hide Decode, SigningOctets;
  }

  /** A renewal: a year more than whichever is later, the expiry or now; the entries it found. */
  lemma {:induction false} RenewHolds(p: Primitives, prev: Predecessor, s: Step, bytes: Octets)
    returns (nonce: Nonce, sig: Signature)
    requires s.ToRenew? && Next(p, prev, s) == Ok(bytes)
    ensures var end := (if prev.notAfter > s.now then prev.notAfter else s.now) + 31_536_000;
            var bits := RequiredBits(CharCount(s.name), s.windowCount);
            && prev.seqNo + 1 < U64_LIMIT && end < U64_LIMIT
            && HoldsExactly(bytes, RecordFields("RENEW", s.name, s.tld, s.identity.publicKey, prev.seqNo + 1, s.now,
                                              end, Canon(Array(prev.entries)), ProofItem(bits, nonce), prev.hash, sig,
                                              None))
    ensures SignedAs(bytes, s.identity, None, sig, None)
  {
    hide Next, Emitted, FieldIn, FromBytes, CharCount, RequiredBits, EntriesField, Proof, HoldsExactly, RecordFields,
         SignedAs, Canon, EntryItems;
    var d := NextCarries(p, prev, s, bytes);
    nonce :| d.proof == Map(Proof(BitsOf(s), nonce));
    ProofCanonical(BitsOf(s), nonce);
    ProofIsItem(BitsOf(s), nonce);
    var coSig: Option<Signature>;
    sig, coSig := EmittedHolds(d, s.identity, None, bytes, "RENEW");
    SignedAlone(bytes, s.identity, sig, coSig);
  }

  /** An update: the entries it was asked for, the expiry it found. */
  lemma {:induction false} UpdateHolds(p: Primitives, prev: Predecessor, s: Step, bytes: Octets)
    returns (sig: Signature)
    requires s.ToUpdate? && Next(p, prev, s) == Ok(bytes)
    ensures && prev.seqNo + 1 < U64_LIMIT
            && HoldsExactly(bytes, RecordFields("UPDATE", s.name, s.tld, s.identity.publicKey, prev.seqNo + 1, s.now,
                                              prev.notAfter, Array(EntryItems(s.entries)), Null, prev.hash, sig, None))
    ensures SignedAs(bytes, s.identity, None, sig, None)
  {
    hide Next, Emitted, FieldIn, FromBytes, CharCount, RequiredBits, EntriesField, Proof, HoldsExactly, RecordFields,
         SignedAs, Canon, EntryItems;
    var d := NextCarries(p, prev, s, bytes);
    EntriesFieldIff(s.entries);
    NullCanon();
    var coSig: Option<Signature>;
    sig, coSig := EmittedHolds(d, s.identity, None, bytes, "UPDATE");
    SignedAlone(bytes, s.identity, sig, coSig);
  }

  /** A transfer: the recipient's key, the entries and the expiry it found, signed by the one and then by the
      other. */
  lemma {:induction false} TransferHolds(p: Primitives, prev: Predecessor, s: Step, bytes: Octets)
    returns (sig: Signature, coSig: Signature)
    requires s.ToTransfer? && Next(p, prev, s) == Ok(bytes)
    ensures && prev.seqNo + 1 < U64_LIMIT
            && HoldsExactly(bytes, RecordFields("TRANSFER", s.name, s.tld, s.recipient.publicKey, prev.seqNo + 1, s.now,
                                              prev.notAfter, Canon(Array(prev.entries)), Null, prev.hash, sig,
                                              Some(coSig)))
    ensures SignedAs(bytes, s.identity, Some(s.recipient), sig, Some(coSig))
  {
    hide Next, Emitted, FieldIn, FromBytes, CharCount, RequiredBits, EntriesField, Proof, HoldsExactly, RecordFields,
         SignedAs, Canon, EntryItems;
    var d := NextCarries(p, prev, s, bytes);
    NullCanon();
    var both: Option<Signature>;
    sig, both := EmittedHolds(d, s.identity, Some(s.recipient), bytes, "TRANSFER");
    SignedByBoth(bytes, s.identity, s.recipient, sig, both);
    coSig := both.value;
  }

  /** A relinquishment ends at once, a revocation when the name would have; both drop the entries. */
  lemma {:induction false} EndHolds(p: Primitives, prev: Predecessor, s: Step, bytes: Octets)
    returns (sig: Signature)
    requires (s.ToRelinquish? || s.ToRevoke?) && Next(p, prev, s) == Ok(bytes)
    ensures && prev.seqNo + 1 < U64_LIMIT
            && HoldsExactly(bytes, RecordFields(if s.ToRelinquish? then "RELINQUISH" else "REVOKE", s.name, s.tld,
                                              s.identity.publicKey, prev.seqNo + 1, s.now,
                                              if s.ToRelinquish? then s.now else prev.notAfter, Array([]), Null,
                                              prev.hash, sig, None))
    ensures SignedAs(bytes, s.identity, None, sig, None)
  {
    hide Next, Emitted, FieldIn, FromBytes, CharCount, RequiredBits, EntriesField, Proof, HoldsExactly, RecordFields,
         SignedAs, Canon, EntryItems;
    var d := NextCarries(p, prev, s, bytes);
    NullCanon();
    var coSig: Option<Signature>;
    sig, coSig := EmittedHolds(d, s.identity, None, bytes, if s.ToRelinquish? then "RELINQUISH" else "REVOKE");
    SignedAlone(bytes, s.identity, sig, coSig);
  }

  lemma {:induction false} NullCanon()
    ensures Canon(Null) == Null && Canon(Array([])) == Array([])
  {
  }

  lemma {:induction false} SignedByBoth(bytes: Octets, signer: Identity, coSigner: Identity, sig: Signature,
                                        coSig: Option<Signature>)
    requires SignedAs(bytes, signer, Some(coSigner), sig, coSig)
    ensures coSig.Some?
  {
    hide Decode, SigningOctets;
  }

  // ----- when they make it -----

  /** Refused only by whoever was to sign, or for want of a nonce within the limit. */
  ghost predicate Attempted(r: Result<Octets, BuildError>) {
    r.Ok? || r == Err(Signing) || r == Err(PowExhausted)
  }

  /** The predecessor answers at this instant: not revoked, not settling, 300 seconds old, and in its term or,
      for a renewal, in the thirty days after. */
  ghost predicate Ready(prev: Predecessor, now: u64, renewal: bool) {
    && !prev.revoked && prev.notBefore <= now
    && (prev.op.Transfer? ==> prev.notBefore + 1_209_600 <= now)
    && (prev.notBefore + 300 <= now || now == U64_LIMIT - 1)
    && prev.notAfter + 2_592_000 < U64_LIMIT
    && now < prev.notAfter + (if renewal then 2_592_000 else 0)
  }

  lemma {:induction false} ProveOutcome(p: Primitives, record: seq<Entry>, bits: u32, signer: Identity, limit: u64)
    ensures var r := ProveAndSign(p, record, bits, signer, None, limit);
            Attempted(r) || EncodingRefusal(r)
  {
    hide Encode, Solve, WithProof, Proof, Signed;
  }

  lemma {:induction false} SignOutcome(record: seq<Entry>, signer: Identity, coSigner: Option<Identity>)
    ensures var r := Sign(record, signer, coSigner);
            Attempted(r) || EncodingRefusal(r)
  {
    hide Encode, Signed;
  }

  /** Why a registration is refused before anything is attempted. */
  ghost predicate RegisterRefused(p: Primitives, s: Step, e: BuildError)
    requires s.ToRegister?
  {
    if e == InvalidName then !p.nameAllowed(s.name, s.tld)
    else if e == BuildError.Overflow then s.now + 31_536_000 >= U64_LIMIT
    else if e == BadEntry then
      || !AllFine(s.entries)
      || (s.bits.Some? && s.bits.value < RequiredBits(CharCount(s.name), s.windowCount))
    else e == TooManyEntries(|s.entries|) && |s.entries| > 32
  }

  /** A registration is attempted exactly when the name is allowed, the difficulty asked for is no less than the
      required one, the year ahead fits 64 bits and the entries are fine; otherwise it is refused for one of
      these. */
  lemma {:induction false} RegisterIff(p: Primitives, s: Step)
    requires s.ToRegister? && StepInMemory(s)
    ensures Attempted(First(p, s))
       <==> && p.nameAllowed(s.name, s.tld)
            && (s.bits.Some? ==> s.bits.value >= RequiredBits(CharCount(s.name), s.windowCount))
            && s.now + 31_536_000 < U64_LIMIT && AllFine(s.entries)
    ensures !Attempted(First(p, s)) ==> RegisterRefused(p, s, First(p, s).error)
  {
    hide CharCount, RequiredBits, EntriesField, AllFine, First, StepInMemory, Canon, EntryItems, Attempted,
         EncodingRefusal;
    FirstEncodes(p, s);
    EntriesFieldIff(s.entries);
    RegisterSteps(p, s);
    Refused(First(p, s));
  }

  lemma {:induction false} Refused(r: Result<Octets, BuildError>)
    ensures r.Err? && (r.error.InvalidName? || r.error.BadEntry? || r.error.Overflow? || r.error.TooManyEntries?) ==>
              !Attempted(r)
  {
  }

  /** A registration is attempted after these tests, in this order. */
  lemma {:induction false} RegisterSteps(p: Primitives, s: Step)
    requires s.ToRegister?
    ensures var r, least := First(p, s), RequiredBits(CharCount(s.name), s.windowCount);
            if !p.nameAllowed(s.name, s.tld) then r == Err(InvalidName)
            else if s.bits.Some? && s.bits.value < least then r == Err(BadEntry)
            else if s.now + 31_536_000 >= U64_LIMIT then r == Err(BuildError.Overflow)
            else if EntriesField(s.entries).Err? then r == Err(EntriesField(s.entries).error)
            else Attempted(r) || EncodingRefusal(r)
  {
    hide CharCount, RequiredBits, EntriesField, Skeleton, Proof, ProveAndSign, Attempted, EncodingRefusal;
    if && EntriesField(s.entries).Ok? && s.now + 31_536_000 < U64_LIMIT && p.nameAllowed(s.name, s.tld)
       && (s.bits.Some? ==> s.bits.value >= RequiredBits(CharCount(s.name), s.windowCount))
    {
      RegisterAttempt(p, s);
    }
  }

  lemma {:induction false} RegisterAttempt(p: Primitives, s: Step)
    requires s.ToRegister? && EntriesField(s.entries).Ok? && s.now + 31_536_000 < U64_LIMIT
    requires p.nameAllowed(s.name, s.tld)
    requires s.bits.Some? ==> s.bits.value >= RequiredBits(CharCount(s.name), s.windowCount)
    ensures Attempted(First(p, s)) || EncodingRefusal(First(p, s))
  {
    hide CharCount, RequiredBits, EntriesField, Skeleton, Proof, ProveAndSign, Attempted, EncodingRefusal, InMemory;
    BitsFit(CharCount(s.name), s.windowCount);
    var bits: u32 := if s.bits.Some? then s.bits.value else RequiredBits(CharCount(s.name), s.windowCount);
    var draft := Draft(Register, s.name, s.tld, s.identity.publicKey, 0, s.now, s.now + TERM_SECONDS,
                       EntriesField(s.entries).value, Map(Proof(bits, ZERO_NONCE)), ZERO_HASH);
    assert First(p, s) == ProveAndSign(p, Skeleton(draft), bits, s.identity, None, s.limit);
    hide First;
    ProveOutcome(p, Skeleton(draft), bits, s.identity, s.limit);
  }

  lemma {:induction false} BitsFit(length: nat, windowCount: u64)
    ensures RequiredBits(length, windowCount) < U32_LIMIT
  {
    RateTerm(length, windowCount, 1);
  }

  /** Carried entries: at most 32 maps that name their type, an alias only alone. */
  ghost predicate Carriable(list: seq<Value>) {
    |list| <= 32 && forall i :: 0 <= i < |list| ==> NamesType(list[i]) && (TypeIs(list[i], "alias") ==> |list| == 1)
  }

  ghost predicate NamesType(item: Value) {
    && item.Map?
    && Get(FieldMap(item.entries), "type").Some? && Get(FieldMap(item.entries), "type").value.Text?
  }

  ghost predicate TypeIs(item: Value, kind: Name) {
    item.Map? && Get(FieldMap(item.entries), "type") == Some(Text(Lit(kind)))
  }

  /** What a successor needs beyond a predecessor that answers. */
  ghost predicate Permitted(prev: Predecessor, s: Step)
    requires !s.ToRegister?
  {
    match s
    case ToRenew(_, _, _, now, _, _) =>
      && now >= prev.notAfter - 5_184_000 && Carriable(prev.entries)
      && (if prev.notAfter > now then prev.notAfter else now) + 31_536_000 < U64_LIMIT
    case ToUpdate(_, _, _, _, entries) => AllFine(entries)
    case ToTransfer(_, _, _, _, now) => prev.notAfter >= now + 1_209_600 && Carriable(prev.entries)
    case _ => true
  }

  /** Why a successor is refused before anything is attempted. */
  ghost predicate SuccessorRefused(p: Primitives, prev: Predecessor, s: Step, e: BuildError)
    requires !s.ToRegister?
  {
    if e.InvalidName? then !p.nameAllowed(s.name, s.tld)
    else if e.Settling? then
      prev.op.Transfer? && e.settlesAt == prev.notBefore + 1_209_600 && s.now < e.settlesAt
    else if e.TooSoon? then s.now < prev.notBefore + 300
    else if e.NotRenewable? then prev.revoked || (s.ToRenew? && s.now >= prev.notAfter + 2_592_000)
    else if e.NotLive? then s.now < prev.notBefore || (!s.ToRenew? && s.now >= prev.notAfter)
    else if e.OutsideRenewalWindow? then s.ToRenew? && s.now < prev.notAfter - 5_184_000
    else if e.Unsettled? then s.ToTransfer? && prev.notAfter < s.now + 1_209_600
    else if e.TooManyEntries? then e.found > 32 && e.found == if s.ToUpdate? then |s.entries| else |prev.entries|
    else if e.BadEntry? then if s.ToUpdate? then !AllFine(s.entries) else !Carriable(prev.entries)
    else if e.Overflow? then
      || prev.seqNo + 1 >= U64_LIMIT || prev.notAfter + 2_592_000 >= U64_LIMIT
      || (prev.op.Transfer? && prev.notBefore + 1_209_600 >= U64_LIMIT)
      || (s.ToRenew? && (if prev.notAfter > s.now then prev.notAfter else s.now) + 31_536_000 >= U64_LIMIT)
    else false
  }

  lemma {:induction false} PreambleIff(p: Primitives, prev: Predecessor, s: Step)
    requires !s.ToRegister?
    ensures var r := Preamble(prev, s.now, s.ToRenew?);
            && (r.Pass? <==> Ready(prev, s.now, s.ToRenew?))
            && (r.Fail? ==> SuccessorRefused(p, prev, s, r.error) && !Attempted(Err(r.error)))
  {
  }

  /** A successor is attempted after these tests, in this order. */
  lemma {:induction false} SuccessorSteps(p: Primitives, prev: Predecessor, s: Step)
    requires !s.ToRegister?
    ensures var r, ready := Next(p, prev, s), Preamble(prev, s.now, s.ToRenew?);
            if !p.nameAllowed(s.name, s.tld) then r == Err(InvalidName)
            else if ready.Fail? then r == Err(ready.error)
            else if s.ToRenew? && s.now < prev.notAfter - 5_184_000 then r == Err(OutsideRenewalWindow)
            else if s.ToRenew? && Max(prev.notAfter, s.now) + 31_536_000 >= U64_LIMIT then r == Err(BuildError.Overflow)
            else if s.ToTransfer? && prev.notAfter - s.now < 1_209_600 then r == Err(Unsettled)
            else if prev.seqNo + 1 >= U64_LIMIT then r == Err(BuildError.Overflow)
            else if s.ToUpdate? && EntriesField(s.entries).Err? then r == Err(EntriesField(s.entries).error)
            else if (s.ToRenew? || s.ToTransfer?) && CarriedField(prev.entries).Err? then
              r == Err(CarriedField(prev.entries).error)
            else Attempted(r) || EncodingRefusal(r)
  {
    hide CharCount, EntriesField, CarriedField, Skeleton, Proof, ProveAndSign, Sign, Preamble, Attempted,
         EncodingRefusal;
    if prev.seqNo + 1 < U64_LIMIT {
      match s
      case ToRenew(identity, name, tld, now, windowCount, limit) =>
        if CarriedField(prev.entries).Ok? && Max(prev.notAfter, now) + TERM_SECONDS < U64_LIMIT {
          var bits: u32 := RequiredBits(CharCount(name), windowCount);
          var d := Draft(Renew, name, tld, identity.publicKey, prev.seqNo + 1, now,
                         Max(prev.notAfter, now) + TERM_SECONDS, CarriedField(prev.entries).value,
                         Map(Proof(bits, ZERO_NONCE)), prev.hash);
          ProveOutcome(p, Skeleton(d), bits, identity, limit);
        }
      case ToUpdate(identity, name, tld, now, entries) =>
        if EntriesField(entries).Ok? {
          var d := Draft(Update, name, tld, identity.publicKey, prev.seqNo + 1, now, prev.notAfter,
                         EntriesField(entries).value, Null, prev.hash);
          SignOutcome(Skeleton(d), identity, None);
        }
      case ToTransfer(identity, recipient, name, tld, now) =>
        if CarriedField(prev.entries).Ok? {
          var d := Draft(Transfer, name, tld, recipient.publicKey, prev.seqNo + 1, now, prev.notAfter,
                         CarriedField(prev.entries).value, Null, prev.hash);
          SignOutcome(Skeleton(d), identity, Some(recipient));
        }
      case ToRelinquish(identity, name, tld, now) =>
        var d := Draft(Relinquish, name, tld, identity.publicKey, prev.seqNo + 1, now, now, Array([]), Null, prev.hash);
        SignOutcome(Skeleton(d), identity, None);
      case ToRevoke(identity, name, tld, now) =>
        var d := Draft(Revoke, name, tld, identity.publicKey, prev.seqNo + 1, now, prev.notAfter, Array([]), Null,
                       prev.hash);
        SignOutcome(Skeleton(d), identity, None);
    }
  }

  // ----- carried entries -----

  /** The maps among these values carry no key twice. */
  ghost predicate Keyed(list: seq<Value>) {
    forall i :: 0 <= i < |list| && list[i].Map? ==> Distinct(EntryKey, list[i].entries)
  }

  lemma {:induction false} CarriedAliasesAre(list: seq<Value>)
    requires Keyed(list)
    ensures CarriedAliases(list).Ok? <==> forall i :: 0 <= i < |list| ==> NamesType(list[i])
    ensures CarriedAliases(list).Err? ==> CarriedAliases(list) == Err(BadEntry)
    ensures CarriedAliases(list).Ok? ==>
              && CarriedAliases(list).value <= |list|
              && (CarriedAliases(list).value > 0 <==> exists i :: 0 <= i < |list| && TypeIs(list[i], "alias"))
  {
    hide FieldMap, Kind, EntryKey;
    if |list| > 0 {
      var front, last := list[..|list| - 1], list[|list| - 1];
      CarriedAliasesAre(front);
      if last.Map? {
        KindIs(last.entries);
      }
    }
  }

  lemma {:induction false} CarriedFieldIff(list: seq<Value>)
    requires Keyed(list)
    ensures CarriedField(list).Ok? <==> Carriable(list)
    ensures |list| > 32 ==> CarriedField(list) == Err(TooManyEntries(|list|))
    ensures |list| <= 32 && !Carriable(list) ==> CarriedField(list) == Err(BadEntry)
  {
    CarriedAliasesAre(list);
    hide CarriedAliases, NamesType, TypeIs, Keyed;
  }

  /** Decoding leaves the items of a list in order. */
  lemma {:induction false} ItemsInOrder(bytes: Octets, entries: seq<Entry>, e: Entry)
    requires Decode(bytes) == Ok(Map(entries)) && e in entries && e.value.Array?
    ensures forall i :: 0 <= i < |e.value.items| ==> Machine(e.value.items[i]) && InOrder(e.value.items[i])
  {
    DecodedEntries(bytes, entries);
    hide Decode, EntryKey, Less, Wire;
    var j :| 0 <= j < |entries| && entries[j] == e;
    assert MachineEntry(entries[j]) && InOrderEntry(entries[j]);
    ListInOrder(e.value);
  }

  lemma {:induction false} ListInOrder(v: Value)
    requires Machine(v) && InOrder(v) && v.Array?
    ensures forall i :: 0 <= i < |v.items| ==> Machine(v.items[i]) && InOrder(v.items[i])
  {
  }

  lemma {:induction false} OrderedKeyed(v: Value)
    requires Machine(v) && InOrder(v) && v.Map?
    ensures Distinct(EntryKey, v.entries)
  {
    InOrderIncreasing(v.entries);
    assert Map(v.entries) == v;
    IncreasingDistinct(EntryKey, v.entries);
  }

  /** What decoded bytes list carries no key twice. */
  lemma {:induction false} PredecessorKeyed(blake: Blake, bytes: Octets)
    requires FromBytes(blake, bytes).Ok?
    ensures Keyed(FromBytes(blake, bytes).value.entries)
  {
    hide FieldMap, Decode, Machine, InOrder, EntryKey, Lit;
    var entries := Decode(bytes).value.entries;
    FieldMapFound(entries, Lit(RECORDS));
    if Lit(RECORDS) in FieldMap(entries) {
      var field := Entry(TextKey(Lit(RECORDS)), FieldMap(entries)[Lit(RECORDS)]);
      ItemsInOrder(bytes, entries, field);
      var list := field.value.items;
      forall i | 0 <= i < |list| && list[i].Map? ensures Distinct(EntryKey, list[i].entries) {
        OrderedKeyed(list[i]);
      }
    }
  }

  // ----- the condition -----

  /** A successor of decoded bytes is attempted exactly when the name is allowed, the predecessor answers, the
      position fits 64 bits and its own operation permits it; otherwise it is refused for one of these. */
  lemma {:induction false} SuccessorIff(p: Primitives, before: Octets, s: Step)
    requires !s.ToRegister? && StepInMemory(s) && FromBytes(p.blake, before).Ok?
    ensures var prev := FromBytes(p.blake, before).value;
            var r := Next(p, prev, s);
            && (Attempted(r)
                <==> && p.nameAllowed(s.name, s.tld) && Ready(prev, s.now, s.ToRenew?) && prev.seqNo + 1 < U64_LIMIT
                     && Permitted(prev, s))
            && (!Attempted(r) ==> SuccessorRefused(p, prev, s, r.error))
  {
    NextEncodes(p, before, s);
    PredecessorKeyed(p.blake, before);
    var prev := FromBytes(p.blake, before).value;
    hide FromBytes, Keyed, StepInMemory, Next, CarriedField, EntriesField;
    CarriedFieldIff(prev.entries);
    SuccessorJudged(p, prev, s);
  }

  lemma {:induction false} SuccessorJudged(p: Primitives, prev: Predecessor, s: Step)
    requires !s.ToRegister? && !EncodingRefusal(Next(p, prev, s))
    requires CarriedField(prev.entries).Ok? <==> Carriable(prev.entries)
    requires |prev.entries| > 32 ==> CarriedField(prev.entries) == Err(TooManyEntries(|prev.entries|))
    requires |prev.entries| <= 32 && !Carriable(prev.entries) ==> CarriedField(prev.entries) == Err(BadEntry)
    ensures var r := Next(p, prev, s);
            && (Attempted(r)
                <==> && p.nameAllowed(s.name, s.tld) && Ready(prev, s.now, s.ToRenew?) && prev.seqNo + 1 < U64_LIMIT
                     && Permitted(prev, s))
            && (!Attempted(r) ==> SuccessorRefused(p, prev, s, r.error))
  {
    SuccessorSteps(p, prev, s);
    PreambleIff(p, prev, s);
    if s.ToUpdate? {
      EntriesFieldIff(s.entries);
    }
    hide Next, Preamble, Ready, EntriesField, CarriedField, AllFine, Carriable, EncodingRefusal, Canon, EntryItems;
  }
}
