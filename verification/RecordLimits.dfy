/** How long the records are that the builders emit, and the ceilings they do not look at: the record
    size, the sequence number, and the name they were built for. */
module RecordLimits {
  import opened Base
  import opened Utf8
  import opened Cbor
  import opened CborFits
  import opened CborMembers
  import opened Domain
  import opened Pow
  import opened Record
  import opened RecordFacts
  import opened Chain
  import opened Verify

  // ----- how long a record is -----

  /** The octets of field names, version, suite, owner key, hash link and signature. */
  const FIXED_LENGTH: nat := 226
  const COSIGNATURE_LENGTH: nat := 72

  /** The octets of a record, by name, domain, numbers, entries and proof. */
  function RecordLength(d: Draft, cosigned: bool): nat {
    FIXED_LENGTH + |OpText(d.op)| + StringLength(|d.name|) + StringLength(|d.tld|)
    + HeadLength(d.seqNo) + HeadLength(d.notBefore) + HeadLength(d.notAfter)
    + EncodedLength(d.records) + EncodedLength(d.proof)
    + if cosigned then COSIGNATURE_LENGTH else 0
  }

  lemma {:induction false} MembersLengthUpTo(names: seq<Name>, values: seq<Value>, n: nat)
    requires |names| == |values| && n < |names|
    ensures MembersLength(names[..n + 1], values[..n + 1])
         == MembersLength(names[..n], values[..n]) + StringLength(|names[n]|) + EncodedLength(values[n])
  {
    hide MembersLength, EncodedLength, StringLength;
    MembersLengthStep(names[..n], values[..n], names[n], values[n]);
    assert names[..n] + [names[n]] == names[..n + 1] && values[..n] + [values[n]] == values[..n + 1];
  }

  lemma {:induction false} DraftLength(d: Draft)
    ensures MembersLength(RECORD_NAMES, DraftValues(d)) + 70 + 1 == RecordLength(d, false)
  {
    hide MembersLength, EncodedLength, StringLength;
    var names, values := RECORD_NAMES, DraftValues(d);
    MembersLengthUpTo(names, values, 0);
    MembersLengthUpTo(names, values, 1);
    MembersLengthUpTo(names, values, 2);
    MembersLengthUpTo(names, values, 3);
    MembersLengthUpTo(names, values, 4);
    MembersLengthUpTo(names, values, 5);
    MembersLengthUpTo(names, values, 6);
    MembersLengthUpTo(names, values, 7);
    MembersLengthUpTo(names, values, 8);
    MembersLengthUpTo(names, values, 9);
    MembersLengthUpTo(names, values, 10);
    MembersLengthUpTo(names, values, 11);
    assert names[..12] == names && values[..12] == values && names[..0] == [] && values[..0] == [];
    NoMembersLength();
    ScalarLengths(d);
    assert |VERSION| == 7 && |SUITE| == 5 && |OP| == 2 && |NAME| == 4 && |TLD| == 3 && |OWNER_KEY| == 8 && |SEQ| == 3;
    assert |NOT_BEFORE| == 9 && |NOT_AFTER| == 8 && |RECORDS| == 7 && |POW_PROOF| == 8 && |PREV_HASH| == 8;
    ShortStrings();
  }

  lemma {:induction false} NoMembersLength()
    ensures MembersLength([], []) == 0
  {
  }

  lemma {:induction false} ShortStrings()
    ensures forall n: nat :: n < 24 ==> StringLength(n) == n + 1
  {
  }

  lemma {:induction false} ScalarLengths(d: Draft)
    ensures EncodedLength(UInt(SUPPORTED_VERSION)) == 1 && EncodedLength(UInt(LAUNCH_SUITE)) == 1
    ensures EncodedLength(Text(Lit(OpText(d.op)))) == |OpText(d.op)| + 1
    ensures EncodedLength(Text(d.name)) == StringLength(|d.name|) && EncodedLength(Text(d.tld)) == StringLength(|d.tld|)
    ensures EncodedLength(Bytes(d.ownerKey)) == 34 && EncodedLength(Bytes(d.prevHash)) == 34
    ensures EncodedLength(UInt(d.seqNo)) == HeadLength(d.seqNo)
    ensures EncodedLength(UInt(d.notBefore)) == HeadLength(d.notBefore)
    ensures EncodedLength(UInt(d.notAfter)) == HeadLength(d.notAfter)
  {
    assert |OpText(d.op)| <= 10;
  }

  /** Every record a builder emits is exactly that long. */
  lemma {:induction false} EmittedLength(d: Draft, signer: Identity, coSigner: Option<Identity>, bytes: Octets)
    requires Emitted(d, signer, coSigner, bytes)
    ensures |bytes| == RecordLength(d, coSigner.Some?)
  {
    hide EncodedLength, EntriesLength, Skeleton, RecordLength, Encode, MembersLength;
    var signature: Signature, coSignature: Option<Signature> :| EmittedWith(d, signer, coSigner, bytes, signature,
                                                                            coSignature);
    var skeleton, signed := Skeleton(d), Signed(Skeleton(d), signature, coSignature);
    var one := skeleton + [Member(SIG, Bytes(signature))];
    PushLength(skeleton, Member(SIG, Bytes(signature)));
    SignatureLength(signature);
    if coSignature.Some? {
      PushLength(one, Member(CO_SIG, Bytes(coSignature.value)));
      SignatureLength(coSignature.value);
      assert signed == one + [Member(CO_SIG, Bytes(coSignature.value))];
    } else {
      assert signed == one;
    }
    SkeletonLength(d);
    DraftLength(d);
    CosignedLength(d);
    EncodedMapLength(signed, bytes);
  }

  lemma {:induction false} SkeletonLength(d: Draft)
    ensures EntriesLength(Skeleton(d)) == MembersLength(RECORD_NAMES, DraftValues(d)) && |Skeleton(d)| == 12
  {
    MembersAreLong(RECORD_NAMES, DraftValues(d));
  }

  lemma {:induction false} CosignedLength(d: Draft)
    ensures RecordLength(d, true) == RecordLength(d, false) + COSIGNATURE_LENGTH
  {
  }

  lemma {:induction false} EncodedMapLength(entries: seq<Entry>, bytes: Octets)
    requires Encode(Map(entries)) == Ok(bytes)
    ensures |bytes| == HeadLength(|entries|) + EntriesLength(entries)
  {
    EncodesToLength(Map(entries), 0);
  }

  lemma {:induction false} SignatureLength(s: Signature)
    ensures EntryLength(Member(SIG, Bytes(s))) == 70 && EntryLength(Member(CO_SIG, Bytes(s))) == COSIGNATURE_LENGTH
  {
    assert |SIG| == 3 && |CO_SIG| == 5;
  }

  // ----- the parts that vary -----

  function KindLength(v: EntryValue): nat {
    match v
    case Peer(_) => 4
    case Ipns(_) => 4
    case ContentId(_) => 3
    case Txt(_) => 3
    case Alias(_, _) => 5
  }

  function ValueLength(v: EntryValue): nat {
    match v
    case Peer(_) => 32
    case Ipns(text) => |text|
    case ContentId(bytes) => |bytes|
    case Txt(text) => |text|
    case Alias(name, tld) => |name| + 1 + |tld|
  }

  /** The octets of an entry, as it was asked for. */
  function EntrySize(e: RecordEntry): nat {
    17 + KindLength(e.value) + StringLength(ValueLength(e.value))
    + HeadLength(if e.ttl.Some? then e.ttl.value else DEFAULT_TTL)
  }

  function EntriesSize(list: seq<RecordEntry>): nat
  {
    if |list| == 0 then 0 else EntriesSize(list[..|list| - 1]) + EntrySize(list[|list| - 1])
  }

  /** The octets of a proof, by the difficulty it claims. */
  function ProofSize(bits: u32): nat {
    60 + HeadLength(bits)
  }

  lemma {:induction false} ThreeMembers(names: seq<Name>, values: seq<Value>)
    requires |names| == |values| == 3
    ensures EncodedLength(Map(Members(names, values)))
         == 1 + StringLength(|names[0]|) + EncodedLength(values[0]) + StringLength(|names[1]|)
           + EncodedLength(values[1])
            + StringLength(|names[2]|) + EncodedLength(values[2])
  {
    hide MembersLength, EntriesLength, StringLength;
    MembersAreLong(names, values);
    MembersLengthUpTo(names, values, 0);
    MembersLengthUpTo(names, values, 1);
    MembersLengthUpTo(names, values, 2);
    assert names[..3] == names && values[..3] == values && names[..0] == [] && values[..0] == [];
    NoMembersLength();
  }

  lemma {:induction false} ProofIsLong(bits: u32, nonce: Nonce)
    ensures EncodedLength(Map(Proof(bits, nonce))) == ProofSize(bits)
  {
    ThreeMembers([ALG, BITS, NONCE], [Text(AlgorithmText()), UInt(bits), Bytes(nonce)]);
    assert |POW_ALGORITHM| == 25 && |AlgorithmText()| == 25 && |ALG| == 3 && |BITS| == 4 && |NONCE| == 5;
  }

  lemma {:induction false} EntryIsLong(e: RecordEntry)
    requires EntryMap(e).Ok?
    ensures EncodedLength(EntryMap(e).value) == EntrySize(e)
  {
    hide CharCount, Lit;
    var (kind, value) := TypedValue(e.value).value;
    var ttl := if e.ttl.Some? then e.ttl.value else DEFAULT_TTL;
    ThreeMembers([TYPE, VALUE, TTL], [Text(Lit(kind)), value, UInt(ttl)]);
    assert |TYPE| == 4 && |VALUE| == 5 && |TTL| == 3 && |ALIAS| == 5;
    assert |kind| == KindLength(e.value);
  }

  lemma {:induction false} ItemsLengthPush(items: seq<Value>, last: Value)
    ensures ItemsLength(items + [last]) == ItemsLength(items) + EncodedLength(last)
  {
    hide EncodedLength;
    if |items| > 0 {
      ItemsLengthPush(items[1..], last);
      assert (items + [last])[1..] == items[1..] + [last];
    } else {
      assert [last][1..] == [];
    }
  }

  lemma {:induction false} EntryMapsAreLong(list: seq<RecordEntry>)
    requires EntryMaps(list).Ok?
    ensures |EntryMaps(list).value| == |list| && ItemsLength(EntryMaps(list).value) == EntriesSize(list)
  {
    hide EntryMap, EntrySize, EncodedLength;
    if |list| > 0 {
      EntryMapsAreLong(list[..|list| - 1]);
      EntryIsLong(list[|list| - 1]);
      ItemsLengthPush(EntryMaps(list[..|list| - 1]).value, EntryMap(list[|list| - 1]).value);
    }
  }

  /** The octets of the entries field a registration or an update writes. */
  lemma {:induction false} EntriesFieldIsLong(list: seq<RecordEntry>)
    requires EntriesField(list).Ok?
    ensures EncodedLength(EntriesField(list).value) == HeadLength(|list|) + EntriesSize(list)
  {
    hide EntryMaps, EntriesSize, ItemsLength;
    EntryMapsAreLong(list);
  }

  // ----- what every step writes -----

  function StepProofSize(s: Step): nat {
    if s.ToRegister? || s.ToRenew? then ProofSize(BitsOf(s)) else 1
  }

  /** The octets of what a step writes, by what it was asked and what its predecessor's facts are. */
  function StepLength(s: Step, seqNo: nat, notAfter: nat, entriesLength: nat): nat {
    FIXED_LENGTH + |OpText(OpOf(s))| + StringLength(|s.name|) + StringLength(|s.tld|)
    + HeadLength(seqNo) + HeadLength(s.now) + HeadLength(notAfter) + entriesLength + StepProofSize(s)
    + if s.ToTransfer? then COSIGNATURE_LENGTH else 0
  }

  function TypedLength(list: seq<RecordEntry>): nat {
    HeadLength(|list|) + EntriesSize(list)
  }

  function RegisterLength(s: Step): nat
    requires s.ToRegister?
  {
    StepLength(s, 0, s.now + TERM_SECONDS, TypedLength(s.entries))
  }

  function SuccessorLength(prev: Predecessor, s: Step): nat {
    StepLength(s, prev.seqNo + 1, NewExpiry(prev, s),
               if s.ToUpdate? then TypedLength(s.entries)
               else if s.ToRenew? || s.ToTransfer? then EncodedLength(Array(prev.entries))
               else 1)
  }

  lemma {:induction false} DraftedLength(d: Draft, s: Step)
    requires Drafted(d, s)
    ensures RecordLength(d, CoSigner(s).Some?) == StepLength(s, d.seqNo, d.notAfter, EncodedLength(d.records))
  {
    hide Proof, BitsOf, StringLength, HeadLength, ProofSize;
    if s.ToRegister? || s.ToRenew? {
      var nonce: Nonce :| d.proof == Map(Proof(BitsOf(s), nonce));
      ProofIsLong(BitsOf(s), nonce);
    }
  }

  /** A registration exceeds the ceiling exactly when its name, domain, entries and claim are long enough. */
  lemma {:induction false} RegisterSize(p: Primitives, s: Step, bytes: Octets)
    requires s.ToRegister? && First(p, s) == Ok(bytes)
    ensures |bytes| == RegisterLength(s)
  {
    hide First, FromBytes, FieldIn, Emitted, RecordLength, StepLength, EncodedLength, EntriesField;
    var d := FirstCarries(p, s, bytes);
    EmittedLength(d, Signer(s), CoSigner(s), bytes);
    DraftedLength(d, s);
    EntriesFieldIsLong(s.entries);
  }

  lemma {:induction false} SuccessorSize(p: Primitives, prev: Predecessor, s: Step, bytes: Octets)
    requires !s.ToRegister? && Next(p, prev, s) == Ok(bytes)
    ensures |bytes| == SuccessorLength(prev, s)
  {
    hide Next, FromBytes, FieldIn, Emitted, RecordLength, StepLength, EncodedLength, EntriesField;
    var d := NextCarries(p, prev, s, bytes);
    EmittedLength(d, Signer(s), CoSigner(s), bytes);
    DraftedLength(d, s);
    if s.ToUpdate? {
      EntriesFieldIsLong(s.entries);
    }
    NoEntriesLength();
  }

  lemma {:induction false} NoEntriesLength()
    ensures EncodedLength(Array([])) == 1
  {
  }

  /** Ending operations always fit: only entries can make a record too long for names of a label's length. */
  lemma {:induction false} EndingFits(p: Primitives, prev: Predecessor, s: Step, bytes: Octets)
    requires (s.ToRelinquish? || s.ToRevoke?) && Next(p, prev, s) == Ok(bytes)
    requires |s.name| + |s.tld| <= 3_000
    ensures |bytes| <= MAX_RECORD_BYTES
  {
    hide Next, OpText;
    SuccessorSize(p, prev, s, bytes);
    OpTextShort(OpOf(s));
  }

  lemma {:induction false} OpTextShort(op: Op)
    ensures 5 <= |OpText(op)| <= 10
  {
  }

  // ----- names and positions -----

  /** A chain carries one name and one domain exactly when every step was asked for that name. */
  lemma {:induction false} OneNameIff(p: Primitives, steps: seq<Step>, records: seq<Octets>)
    requires IsChain(p, steps, records)
    ensures (forall i :: 0 <= i < |records| ==> FieldIn(records[i], NAME) == FieldIn(records[0], NAME)
                                                && FieldIn(records[i], TLD) == FieldIn(records[0], TLD))
       <==> (forall i :: 0 <= i < |steps| ==> steps[i].name == steps[0].name && steps[i].tld == steps[0].tld)
  {
    assert |steps| == |records| > 0;
    hide IsChain, FieldIn;
    ChainOwner(p, steps, records, 0);
    forall i | 0 <= i < |records|
      ensures FieldIn(records[i], NAME) == FieldIn(records[0], NAME) <==> steps[i].name == steps[0].name
      ensures FieldIn(records[i], TLD) == FieldIn(records[0], TLD) <==> steps[i].tld == steps[0].tld
    {
      ChainOwner(p, steps, records, i);
    }
  }

  /** A successor is emitted above the largest sequence number exactly when its predecessor is at or above
      it. */
  lemma {:induction false} SeqAboveIff(p: Primitives, before: Octets, s: Step, after: Octets)
    requires Follows(p, before, s, after)
    ensures FromBytes(p.blake, after).Ok?
    ensures FromBytes(p.blake, after).value.seqNo > MAX_SEQ <==> FromBytes(p.blake, before).value.seqNo >= MAX_SEQ
  {
    hide Next, FromBytes, FieldIn, Emitted;
    var d := NextCarries(p, FromBytes(p.blake, before).value, s, after);
  }
}
