/** The builders' encoding refusals are unreachable: every record they draft can be encoded, and so can
    the preimage of its salt. */
module Encodable {
  import opened Base
  import opened Ordering
  import opened Utf8
  import opened Cbor
  import opened CborCanonical
  import opened CborEquality
  import opened CborFits
  import opened CborMembers
  import opened Domain
  import opened Pow
  import opened SaltBinding
  import opened Record
  import opened RecordFacts
  import opened ProofBinding
  import opened Chain

  // ----- the parts of a record -----

  lemma {:induction false} ProofFits(bits: u32, nonce: Nonce, depth: nat)
    requires depth < MAX_DEPTH
    ensures Fits(Map(Proof(bits, nonce)), depth)
  {
    hide Fits;
    ProofNames();
    var values := [Text(AlgorithmText()), UInt(bits), Bytes(nonce)];
    forall i | 0 <= i < |values| ensures Fits(values[i], depth + 1) {
      ScalarFits(values[i], depth + 1);
    }
    MembersFit([ALG, BITS, NONCE], values, depth);
  }

  lemma {:induction false} ClaimFits(bits: u32, depth: nat)
    requires depth < MAX_DEPTH
    ensures Fits(Map([Member(ALG, Text(AlgorithmText())), Member(BITS, UInt(bits))]), depth)
  {
    hide Fits;
    ProofNames();
    var names, values := [ALG, BITS], [Text(AlgorithmText()), UInt(bits)];
    assert [ALG, BITS, NONCE][..2] == names;
    forall i | 0 <= i < |values| ensures Fits(values[i], depth + 1) {
      ScalarFits(values[i], depth + 1);
    }
    MembersFit(names, values, depth);
    assert Members(names, values) == [Member(ALG, Text(AlgorithmText())), Member(BITS, UInt(bits))];
  }

  /** Names that fit in memory, and fields that fit one level down. */
  ghost predicate DraftFits(d: Draft) {
    |d.name| < U64_LIMIT && |d.tld| < U64_LIMIT && Fits(d.records, 1) && Fits(d.proof, 1)
  }

  lemma {:induction false} DraftValuesFit(d: Draft)
    requires DraftFits(d)
    ensures forall i :: 0 <= i < |DraftValues(d)| ==> Fits(DraftValues(d)[i], 1)
  {
    hide Fits;
    var values := DraftValues(d);
    forall i | 0 <= i < |values| ensures Fits(values[i], 1) {
      if i == 9 {
        assert values[9] == d.records;
      } else if i == 10 {
        assert values[10] == d.proof;
      } else {
        ScalarFits(values[i], 1);
      }
    }
  }

  lemma {:induction false} SkeletonFits(d: Draft)
    requires DraftFits(d)
    ensures Encode(Map(Skeleton(d))).Ok?
  {
    hide Fits;
    NamesDiffer(None);
    DraftValuesFit(d);
    MembersFit(RECORD_NAMES, DraftValues(d), 0);
    FitsWhole(Map(Skeleton(d)));
  }

  lemma {:induction false} FitsWhole(v: Value)
    ensures Fits(v, 0) <==> Encode(v).Ok?
  {
  }

  lemma {:induction false} SignedFits(d: Draft, signature: Signature, coSignature: Option<Signature>)
    requires DraftFits(d)
    ensures Encode(Map(Signed(Skeleton(d), signature, coSignature))).Ok?
  {
    hide Fits, Signed, Skeleton;
    NamesDiffer(coSignature);
    DraftValuesFit(d);
    SignedIsMembers(d, signature, coSignature);
    var values := ValuesOf(d, signature, coSignature);
    forall i | 0 <= i < |values| ensures Fits(values[i], 1) {
      if i < 12 {
        assert values[i] == DraftValues(d)[i];
      } else {
        ScalarFits(values[i], 1);
      }
    }
    MembersFit(NamesOf(coSignature), values, 0);
    FitsWhole(Map(Signed(Skeleton(d), signature, coSignature)));
  }

  /** Signing a draft that fits fails only when a signer does. */
  lemma {:induction false} SignEncodes(d: Draft, signer: Identity, coSigner: Option<Identity>)
    requires DraftFits(d)
    ensures Sign(Skeleton(d), signer, coSigner).Ok? || Sign(Skeleton(d), signer, coSigner) == Err(Signing)
  {
    hide Signed, Skeleton, DraftFits, Encode;
    SkeletonFits(d);
    forall s: Signature, c: Option<Signature> ensures Encode(Map(Signed(Skeleton(d), s, c))).Ok? {
      SignedFits(d, s, c);
    }
  }

  lemma {:induction false} StripToFields(xs: seq<Entry>, ys: seq<Entry>)
    requires |xs| == |ys| && forall i :: 0 <= i < |xs| ==> StripsTo(xs[i], ys[i])
    ensures Strip(xs) == Ok(ys)
  {
    hide StripField;
    if |xs| > 0 {
      StripToFields(xs[..|xs| - 1], ys[..|ys| - 1]);
      assert StripsTo(xs[|xs| - 1], ys[|ys| - 1]);
      assert ys == ys[..|ys| - 1] + [ys[|ys| - 1]];
    }
  }

  lemma {:induction false} KeptAsIs(d: Draft, i: nat)
    requires i < 12 && i != 10
    ensures StripsTo(Skeleton(d)[i], Skeleton(d)[i])
  {
    NamesDiffer(Some(ZERO_SIGNATURE));
    assert COSIGNED_NAMES[i] == RECORD_NAMES[i] && COSIGNED_NAMES[10] == POW_PROOF && COSIGNED_NAMES[12] == SIG;
    LitInjective(RECORD_NAMES[i], POW_PROOF);
    LitInjective(RECORD_NAMES[i], SIG);
  }

  const ZERO_SIGNATURE: Signature := seq(64, _ => 0)

  /** The salt of a draft that fits can be derived. */
  lemma {:induction false} SaltDerives(d: Draft, bits: u32, nonce: Nonce)
    requires DraftFits(d) && d.proof == Map(Proof(bits, nonce))
    ensures SaltPreimage(Skeleton(d)).Ok?
  {
    var claim := Map([Member(ALG, Text(AlgorithmText())), Member(BITS, UInt(bits))]);
    var stripped := d.(proof := claim);
    ClaimFits(bits, 1);
    ProofStripped(bits, nonce);
    LitInjective(SIG, POW_PROOF);
    hide Fits, Proof, StripProof, AlgorithmText;
    SkeletonFits(stripped);
    var xs, ys := Skeleton(d), Skeleton(stripped);
    assert RECORD_NAMES[10] == POW_PROOF;
    forall i | 0 <= i < |xs| ensures StripsTo(xs[i], ys[i]) {
      if i == 10 {
        assert xs[10] == Member(POW_PROOF, d.proof) && ys[10] == Member(POW_PROOF, claim);
      } else {
        KeptAsIs(d, i);
        assert xs[i] == ys[i];
      }
    }
    StripToFields(xs, ys);
  }

  lemma {:induction false} ProveEncodes(p: Primitives, d: Draft, bits: u32, signer: Identity, limit: u64)
    requires DraftFits(d) && d.proof == Map(Proof(bits, ZERO_NONCE))
    ensures var r := ProveAndSign(p, Skeleton(d), bits, signer, None, limit);
            r.Ok? || r == Err(Signing) || r == Err(PowExhausted)
  {
    hide Skeleton, Proof, Sign, SaltPreimage;
    SaltDerives(d, bits, ZERO_NONCE);
    var nonce := Solve(p.sha, p.argon, Skeleton(d), bits, limit);
    if nonce.Ok? {
      var proof := Map(Proof(bits, nonce.value));
      ProofFits(bits, nonce.value, 1);
      ProofPut(d, proof);
      SignEncodes(d.(proof := proof), signer, None);
    }
  }

  // ----- the entries field -----

  /** Names that fit in memory: what any string of the source does. */
  predicate InMemory(e: RecordEntry) {
    e.value.Alias? ==> |e.value.name| + |e.value.tld| + 1 < U64_LIMIT
  }

  lemma {:induction false} EntryNamesDiffer()
    ensures Different([TYPE, VALUE, TTL])
  {
    assert |TYPE| == 4 && |VALUE| == 5 && |TTL| == 3;
  }

  lemma {:induction false} EntryFits(e: RecordEntry)
    requires InMemory(e) && EntryMap(e).Ok?
    ensures Fits(EntryMap(e).value, 2)
  {
    hide Fits, CharCount;
    EntryNamesDiffer();
    var (kind, value) := TypedValue(e.value).value;
    var ttl := if e.ttl.Some? then e.ttl.value else DEFAULT_TTL;
    var values := [Text(Lit(kind)), value, UInt(ttl)];
    assert Scalar(value);
    forall i | 0 <= i < |values| ensures Fits(values[i], 3) {
      ScalarFits(values[i], 3);
    }
    MembersFit([TYPE, VALUE, TTL], values, 2);
  }

  lemma {:induction false} EntryMapsFit(list: seq<RecordEntry>)
    requires EntryMaps(list).Ok? && forall e :: e in list ==> InMemory(e)
    ensures |EntryMaps(list).value| == |list| && forall v :: v in EntryMaps(list).value ==> Fits(v, 2)
  {
    hide EntryMap, Fits;
    if |list| > 0 {
      EntryMapsFit(list[..|list| - 1]);
      EntryFits(list[|list| - 1]);
    }
  }

  lemma {:induction false} TypedFieldFits(list: seq<RecordEntry>)
    requires EntriesField(list).Ok? && forall e :: e in list ==> InMemory(e)
    ensures Fits(EntriesField(list).value, 1)
  {
    hide Fits, EntryMaps;
    EntryMapsFit(list);
    ArrayFits(EntryMaps(list).value, 1);
  }

  lemma {:induction false} FieldFits(bytes: Octets, entries: seq<Entry>, e: Entry)
    requires Decode(bytes) == Ok(Map(entries)) && e in entries
    ensures Fits(e.value, 1)
  {
    StrictDecodingIsCanonical(bytes);
    assert EncodeMap(entries, 0).Ok?;
    var sorted := Sort(EntryKey, entries);
    SortMembers(EntryKey, entries, e);
    var j :| 0 <= j < |sorted| && sorted[j] == e;
    EntryEncodes(sorted, 1, j);
  }

  /** Entries carried from decoded bytes fit where they came from. */
  lemma {:induction false} CarriedFits(blake: Blake, bytes: Octets)
    requires FromBytes(blake, bytes).Ok?
    ensures Fits(Array(FromBytes(blake, bytes).value.entries), 1)
  {
    hide Decode, FieldMap, Fits;
    var entries := Decode(bytes).value.entries;
    FieldMapFound(entries, Lit(RECORDS));
    if Lit(RECORDS) in FieldMap(entries) {
      FieldFits(bytes, entries, Entry(TextKey(Lit(RECORDS)), FieldMap(entries)[Lit(RECORDS)]));
    } else {
      ArrayFits([], 1);
    }
  }

  // ----- the builders -----

  /** The encoding refusals of a builder. */
  predicate EncodingRefusal(r: Result<Octets, BuildError>) {
    r.Err? && (r.error.EncodeFailed? || r.error.SaltFailed?)
  }

  predicate StepInMemory(s: Step) {
    && |s.name| < U64_LIMIT && |s.tld| < U64_LIMIT
    && (s.ToRegister? || s.ToUpdate? ==> forall i :: 0 <= i < |s.entries| ==> InMemory(s.entries[i]))
  }

  /** A registration is never refused for its encoding. */
  lemma {:induction false} FirstEncodes(p: Primitives, s: Step)
    requires s.ToRegister? && StepInMemory(s)
    ensures !EncodingRefusal(First(p, s))
  {
    hide ProveAndSign, Skeleton, Proof, EntryMaps, CharCount, Fits;
    if EntriesField(s.entries).Ok? && s.now + TERM_SECONDS < U64_LIMIT {
      var bits: u32 := if s.bits.Some? then s.bits.value else RequiredBits(CharCount(s.name), s.windowCount);
      TypedFieldFits(s.entries);
      ProofFits(bits, ZERO_NONCE, 1);
      var draft := Draft(Register, s.name, s.tld, s.identity.publicKey, 0, s.now, s.now + TERM_SECONDS,
                         EntriesField(s.entries).value, Map(Proof(bits, ZERO_NONCE)), ZERO_HASH);
      ProveEncodes(p, draft, bits, s.identity, s.limit);
    }
    MapsRefuse(s.entries);
  }

  lemma {:induction false} MapsRefuse(list: seq<RecordEntry>)
    ensures EntriesField(list).Err? ==> EntriesField(list).error.BadEntry? || EntriesField(list).error.TooManyEntries?
  {
    EntryMapsRefuse(list);
  }

  lemma {:induction false} EntryMapsRefuse(list: seq<RecordEntry>)
    ensures EntryMaps(list).Err? ==> EntryMaps(list).error.BadEntry?
  {
    if |list| > 0 {
      EntryMapsRefuse(list[..|list| - 1]);
    }
  }

  lemma {:induction false} CarriedRefuses(list: seq<Value>)
    ensures CarriedAliases(list).Err? ==> CarriedAliases(list).error.BadEntry?
  {
    if |list| > 0 {
      CarriedRefuses(list[..|list| - 1]);
    }
  }

  lemma {:induction false} EndFits(depth: nat)
    requires depth <= MAX_DEPTH
    ensures Fits(Null, depth) && Fits(Array([]), depth)
  {
    ScalarFits(Null, depth);
    ArrayFits([], depth);
  }

  lemma {:induction false} ChecksRefuse(prev: Predecessor, now: u64, allowGrace: bool)
    ensures Preamble(prev, now, allowGrace).Fail? ==> !EncodingRefusal(Err(Preamble(prev, now, allowGrace).error))
    ensures RenewalCheck(prev, now).Fail? ==> !EncodingRefusal(Err(RenewalCheck(prev, now).error))
  {
  }

  lemma {:induction false} CarriedFieldIs(list: seq<Value>)
    ensures match CarriedField(list)
            case Ok(v) => v == Array(list)
            case Err(e) => !EncodingRefusal(Err(e))
  {
    hide CarriedAliases;
    CarriedRefuses(list);
  }

  lemma {:induction false} RenewEncodes(p: Primitives, prev: Predecessor, s: Step)
    requires s.ToRenew? && StepInMemory(s) && Fits(Array(prev.entries), 1)
    ensures !EncodingRefusal(Next(p, prev, s))
  {
    hide ProveAndSign, Skeleton, Proof, CharCount, Fits, RenewalCheck, CarriedField;
    ChecksRefuse(prev, s.now, true);
    CarriedFieldIs(prev.entries);
    if RenewalCheck(prev, s.now).Pass? && prev.seqNo + 1 < U64_LIMIT {
      RenewalFits(prev, s.now);
      var bits: u32 := RequiredBits(CharCount(s.name), s.windowCount);
      ProofFits(bits, ZERO_NONCE, 1);
      var draft := Draft(Renew, s.name, s.tld, s.identity.publicKey, prev.seqNo + 1, s.now,
                         Max(prev.notAfter, s.now) + TERM_SECONDS, Array(prev.entries), Map(Proof(bits, ZERO_NONCE)),
                           prev.hash);
      ProveEncodes(p, draft, bits, s.identity, s.limit);
    }
  }

  lemma {:induction false} RenewalFits(prev: Predecessor, now: u64)
    requires RenewalCheck(prev, now).Pass?
    ensures Max(prev.notAfter, now) + TERM_SECONDS < U64_LIMIT
  {
  }

  lemma {:induction false} UpdateEncodes(p: Primitives, prev: Predecessor, s: Step)
    requires s.ToUpdate? && StepInMemory(s)
    ensures !EncodingRefusal(Next(p, prev, s))
  {
    hide Sign, Skeleton, Fits, Preamble, EntriesField;
    ChecksRefuse(prev, s.now, false);
    MapsRefuse(s.entries);
    EndFits(1);
    if EntriesField(s.entries).Ok? && prev.seqNo + 1 < U64_LIMIT {
      TypedFieldFits(s.entries);
      var d := Draft(Update, s.name, s.tld, s.identity.publicKey, prev.seqNo + 1, s.now, prev.notAfter,
                     EntriesField(s.entries).value, Null, prev.hash);
      SignEncodes(d, s.identity, None);
    }
  }

  lemma {:induction false} TransferEncodes(p: Primitives, prev: Predecessor, s: Step)
    requires s.ToTransfer? && StepInMemory(s) && Fits(Array(prev.entries), 1)
    ensures !EncodingRefusal(Next(p, prev, s))
  {
    hide Sign, Skeleton, Fits, Preamble, CarriedField;
    ChecksRefuse(prev, s.now, false);
    CarriedFieldIs(prev.entries);
    EndFits(1);
    if prev.seqNo + 1 < U64_LIMIT {
      var d := Draft(Transfer, s.name, s.tld, s.recipient.publicKey, prev.seqNo + 1, s.now, prev.notAfter,
                     Array(prev.entries), Null, prev.hash);
      SignEncodes(d, s.identity, Some(s.recipient));
    }
  }

  lemma {:induction false} EndEncodes(p: Primitives, prev: Predecessor, s: Step)
    requires (s.ToRelinquish? || s.ToRevoke?) && StepInMemory(s)
    ensures !EncodingRefusal(Next(p, prev, s))
  {
    hide Sign, Skeleton, Fits, Preamble;
    ChecksRefuse(prev, s.now, false);
    EndFits(1);
    if prev.seqNo + 1 < U64_LIMIT {
      var end := if s.ToRelinquish? then s.now else prev.notAfter;
      var d := Draft(OpOf(s), s.name, s.tld, s.identity.publicKey, prev.seqNo + 1, s.now, end, Array([]), Null,
                     prev.hash);
      SignEncodes(d, s.identity, None);
    }
  }

  /** No successor built on decoded bytes is ever refused for its encoding: the two errors the source keeps
      for that are unreachable. */
  lemma {:induction false} NextEncodes(p: Primitives, before: Octets, s: Step)
    requires !s.ToRegister? && StepInMemory(s) && FromBytes(p.blake, before).Ok?
    ensures !EncodingRefusal(Next(p, FromBytes(p.blake, before).value, s))
  {
    hide Next, FromBytes, StepInMemory;
    CarriedFits(p.blake, before);
    var prev := FromBytes(p.blake, before).value;
    match s
    case ToRenew(_, _, _, _, _, _) => RenewEncodes(p, prev, s);
    case ToUpdate(_, _, _, _, _) => UpdateEncodes(p, prev, s);
    case ToTransfer(_, _, _, _, _) => TransferEncodes(p, prev, s);
    case _ => EndEncodes(p, prev, s);
  }
}
