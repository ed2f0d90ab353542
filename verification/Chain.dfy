/** Runs of the builders: what holds of every record of every chain that successful builders produce
    (client/src/record.rs). */
module Chain {
  import opened Base
  import opened Utf8
  import opened Cbor
  import opened CborMembers
  import opened Domain
  import opened Pow
  import opened SaltBinding
  import opened Record
  import opened RecordFacts
  import opened ProofBinding

  /** One call of a builder. */
  datatype Step =
    | ToRegister(identity: Identity, name: Str, tld: Str, now: u64, entries: seq<RecordEntry>, windowCount: u64,
                 bits: Option<u32>, limit: u64)
    | ToRenew(identity: Identity, name: Str, tld: Str, now: u64, windowCount: u64, limit: u64)
    | ToUpdate(identity: Identity, name: Str, tld: Str, now: u64, entries: seq<RecordEntry>)
    | ToTransfer(identity: Identity, recipient: Identity, name: Str, tld: Str, now: u64)
    | ToRelinquish(identity: Identity, name: Str, tld: Str, now: u64)
    | ToRevoke(identity: Identity, name: Str, tld: Str, now: u64)

  function First(p: Primitives, s: Step): Result<Octets, BuildError>
    requires s.ToRegister?
  {
    BuildRegister(p, s.identity, s.name, s.tld, s.now, s.entries, s.windowCount, s.bits, s.limit)
  }

  function Next(p: Primitives, prev: Predecessor, s: Step): Result<Octets, BuildError>
    requires !s.ToRegister?
  {
    match s
    case ToRenew(identity, name, tld, now, windowCount, limit) =>
      BuildRenew(p, identity, prev, name, tld, now, windowCount, limit)
    case ToUpdate(identity, name, tld, now, entries) => BuildUpdate(p, identity, prev, name, tld, now, entries)
    case ToTransfer(identity, recipient, name, tld, now) => BuildTransfer(p, identity, recipient, prev, name, tld, now)
    case ToRelinquish(identity, name, tld, now) => BuildRelinquish(p, identity, prev, name, tld, now)
    case ToRevoke(identity, name, tld, now) => BuildRevoke(p, identity, prev, name, tld, now)
  }

  function OpOf(s: Step): Op {
    match s
    case ToRegister(_, _, _, _, _, _, _, _) => Register
    case ToRenew(_, _, _, _, _, _) => Renew
    case ToUpdate(_, _, _, _, _) => Update
    case ToTransfer(_, _, _, _, _) => Transfer
    case ToRelinquish(_, _, _, _) => Relinquish
    case ToRevoke(_, _, _, _) => Revoke
  }

  function Signer(s: Step): Identity {
    s.identity
  }

  function CoSigner(s: Step): Option<Identity> {
    if s.ToTransfer? then Some(s.recipient) else None
  }

  /** Who owns the name once the step is recorded: a transfer names its recipient. */
  function OwnerAfter(s: Step): Digest32 {
    if s.ToTransfer? then s.recipient.publicKey else s.identity.publicKey
  }

  /** `after` was built on the facts that `before` decodes to. */
  ghost predicate Follows(p: Primitives, before: Octets, s: Step, after: Octets) {
    && !s.ToRegister?
    && FromBytes(p.blake, before).Ok?
    && Next(p, FromBytes(p.blake, before).value, s) == Ok(after)
  }

  /** Every chain the builders can produce: a registration, then successors, each built on the one before. */
  ghost predicate IsChain(p: Primitives, steps: seq<Step>, records: seq<Octets>) {
    && |steps| == |records| > 0
    && steps[0].ToRegister? && First(p, steps[0]) == Ok(records[0])
    && forall i {:trigger records[i]} :: 0 < i < |records| ==> Follows(p, records[i - 1], steps[i], records[i])
  }

  // ----- one step -----

  /** What the bytes carry in a field. */
  function FieldIn(bytes: Octets, name: Name): Option<Value> {
    match Decode(bytes)
    case Ok(Map(entries)) => Get(FieldMap(entries), name)
    case _ => None
  }

  /** What a successful builder call put into its record. */
  ghost predicate Carried(p: Primitives, d: Draft, s: Step, bytes: Octets) {
    && FromBytes(p.blake, bytes).Ok?
    && (var facts := FromBytes(p.blake, bytes).value;
        && facts.seqNo == d.seqNo && facts.op == d.op == OpOf(s)
        && facts.notBefore == d.notBefore == s.now && facts.notAfter == d.notAfter
        && facts.hash == RecordHash(p.blake, bytes) && facts.revoked == (d.op == Revoke))
    && FieldIn(bytes, PREV_HASH) == Some(Bytes(d.prevHash))
    && FieldIn(bytes, RECORDS) == Some(Canon(d.records))
    && FieldIn(bytes, OWNER_KEY) == Some(Bytes(OwnerAfter(s)))
    && FieldIn(bytes, NAME) == Some(Text(s.name)) && FieldIn(bytes, TLD) == Some(Text(s.tld))
    && Emitted(d, Signer(s), CoSigner(s), bytes)
  }

  /** The difficulty a step claims. */
  function BitsOf(s: Step): u32
    requires s.ToRegister? || s.ToRenew?
  {
    if s.ToRegister? && s.bits.Some? then s.bits.value else RequiredBits(CharCount(s.name), s.windowCount)
  }

  /** A draft says what its step was asked for, and carries a proof exactly when the operation needs one. */
  ghost predicate Drafted(d: Draft, s: Step) {
    && d.op == OpOf(s) && d.notBefore == s.now && d.ownerKey == OwnerAfter(s) && d.name == s.name && d.tld == s.tld
    && (if s.ToRegister? || s.ToRenew? then exists nonce: Nonce :: d.proof == Map(Proof(BitsOf(s), nonce))
        else d.proof == Null)
  }

  lemma {:induction false} EmittedCarries(p: Primitives, d: Draft, s: Step, bytes: Octets)
    requires Emitted(d, Signer(s), CoSigner(s), bytes) && d.records.Array? && Drafted(d, s)
    ensures Carried(p, d, s, bytes)
  {
    hide Encode, Decode, FieldMap, Sorted, Signed, Skeleton, Get, CanonItems;
    var signature, coSignature :| EmittedWith(d, Signer(s), CoSigner(s), bytes, signature, coSignature);
    ReadsBack(d, signature, coSignature, bytes);
    FactsReadBack(p.blake, d, signature, coSignature, bytes);
  }

  lemma {:induction false} FirstCarries(p: Primitives, s: Step, bytes: Octets) returns (d: Draft)
    requires s.ToRegister? && First(p, s) == Ok(bytes)
    ensures Carried(p, d, s, bytes) && Drafted(d, s)
    ensures d.seqNo == 0 && d.notAfter == s.now + TERM_SECONDS && d.prevHash == ZERO_HASH
    ensures EntriesField(s.entries) == Ok(d.records)
  {
    hide ProveAndSign, Skeleton, Carried, Emitted, Proof, EntryMaps, CharCount, Solve;
    var records := EntriesField(s.entries).value;
    var bits: u32 := if s.bits.Some? then s.bits.value else RequiredBits(CharCount(s.name), s.windowCount);
    var draft := Draft(Register, s.name, s.tld, s.identity.publicKey, 0, s.now, s.now + TERM_SECONDS, records,
                       Map(Proof(bits, ZERO_NONCE)), ZERO_HASH);
    ProveEmits(p, draft, bits, s.identity, None, s.limit);
    var nonce: Nonce := Solve(p.sha, p.argon, Skeleton(draft), bits, s.limit).value;
    d := draft.(proof := Map(Proof(BitsOf(s), nonce)));
    EmittedCarries(p, d, s, bytes);
  }

  /** The new expiry: a renewal extends, a relinquishment ends at once, anything else keeps it. */
  function NewExpiry(prev: Predecessor, s: Step): nat {
    if s.ToRenew? then Max(prev.notAfter, s.now) + TERM_SECONDS
    else if s.ToRelinquish? then s.now
    else prev.notAfter
  }

  /** Carried operations repeat the entries, ending operations drop them. */
  ghost predicate EntriesOf(prev: Predecessor, s: Step, records: Value) {
    && records.Array?
    && (s.ToRenew? || s.ToTransfer? ==> records == Array(prev.entries))
    && (s.ToRelinquish? || s.ToRevoke? ==> records == Array([]))
    && (s.ToUpdate? ==> EntriesField(s.entries) == Ok(records))
  }

  lemma {:induction false} NextCarries(p: Primitives, prev: Predecessor, s: Step, bytes: Octets) returns (d: Draft)
    requires !s.ToRegister? && Next(p, prev, s) == Ok(bytes)
    ensures Carried(p, d, s, bytes) && Drafted(d, s)
    ensures d.seqNo == prev.seqNo + 1 && d.notAfter == NewExpiry(prev, s) && d.prevHash == prev.hash
    ensures EntriesOf(prev, s, d.records)
  {
    hide ProveAndSign, Sign, Skeleton, Carried, Emitted, Proof, EntryMaps, CharCount, Solve, CarriedAliases;
    var seqNo := prev.seqNo + 1;
    match s
    case ToRenew(identity, name, tld, now, windowCount, limit) =>
      var bits: u32 := RequiredBits(CharCount(name), windowCount);
      var draft := Draft(Renew, name, tld, identity.publicKey, seqNo, now, Max(prev.notAfter, now) + TERM_SECONDS,
                         Array(prev.entries), Map(Proof(bits, ZERO_NONCE)), prev.hash);
      ProveEmits(p, draft, bits, identity, None, limit);
      var nonce: Nonce := Solve(p.sha, p.argon, Skeleton(draft), bits, limit).value;
      d := draft.(proof := Map(Proof(BitsOf(s), nonce)));
      EmittedCarries(p, d, s, bytes);
    case ToUpdate(identity, name, tld, now, entries) =>
      d := Draft(Update, name, tld, identity.publicKey, seqNo, now, prev.notAfter, EntriesField(entries).value, Null,
                 prev.hash);
      SignEmits(d, identity, None);
      EmittedCarries(p, d, s, bytes);
    case ToTransfer(identity, recipient, name, tld, now) =>
      d := Draft(Transfer, name, tld, recipient.publicKey, seqNo, now, prev.notAfter, Array(prev.entries), Null,
                 prev.hash);
      SignEmits(d, identity, Some(recipient));
      EmittedCarries(p, d, s, bytes);
    case ToRelinquish(identity, name, tld, now) =>
      d := Draft(Relinquish, name, tld, identity.publicKey, seqNo, now, now, Array([]), Null, prev.hash);
      SignEmits(d, identity, None);
      EmittedCarries(p, d, s, bytes);
    case ToRevoke(identity, name, tld, now) =>
      d := Draft(Revoke, name, tld, identity.publicKey, seqNo, now, prev.notAfter, Array([]), Null, prev.hash);
      SignEmits(d, identity, None);
      EmittedCarries(p, d, s, bytes);
  }

  /** The entries handed to a registration or an update are what the record carries. */
  lemma {:induction false} RegisteredEntries(p: Primitives, s: Step, bytes: Octets)
    requires s.ToRegister? && First(p, s) == Ok(bytes)
    ensures EntriesField(s.entries).Ok? && FieldIn(bytes, RECORDS) == Some(Canon(EntriesField(s.entries).value))
  {
    hide First, FromBytes, Emitted, FieldIn, EntriesField;
    var d := FirstCarries(p, s, bytes);
  }

  lemma {:induction false} UpdatedEntries(p: Primitives, prev: Predecessor, s: Step, bytes: Octets)
    requires s.ToUpdate? && Next(p, prev, s) == Ok(bytes)
    ensures EntriesField(s.entries).Ok? && FieldIn(bytes, RECORDS) == Some(Canon(EntriesField(s.entries).value))
  {
    hide Next, FromBytes, Emitted, FieldIn, EntriesField;
    var d := NextCarries(p, prev, s, bytes);
  }

  /** What the time checks of a successful call amount to. */
  ghost predicate InTime(prev: Predecessor, s: Step) {
    && !prev.revoked
    && (prev.op == Transfer ==> s.now >= prev.notBefore + SETTLEMENT_SECONDS)
    && s.now >= Saturating(prev.notBefore + MIN_INTERVAL_SECONDS) && s.now >= prev.notBefore
    && prev.notAfter + GRACE_SECONDS < U64_LIMIT
    && (if s.ToRenew? then
          && s.now < prev.notAfter + GRACE_SECONDS && s.now >= prev.notAfter - RENEWAL_WINDOW_SECONDS
          && Max(prev.notAfter, s.now) + TERM_SECONDS < U64_LIMIT
        else
          s.now < prev.notAfter)
    && (s.ToTransfer? ==> prev.notAfter - s.now >= SETTLEMENT_SECONDS)
  }

  lemma {:induction false} NextInTime(p: Primitives, prev: Predecessor, s: Step)
    requires !s.ToRegister? && Next(p, prev, s).Ok?
    ensures InTime(prev, s)
  {
    hide ProveAndSign, Sign, Skeleton, Proof, EntryMaps, RequiredBits, CharCount, CarriedAliases;
  }

  // ----- every record of every chain -----

  /** One term and one renewal window, however many renewals occur. */
  const LONGEST_TERM: nat := 36_720_000

  /** What holds of the facts of any record of any chain. */
  ghost predicate Sane(f: Predecessor) {
    && f.notBefore <= f.notAfter <= f.notBefore + LONGEST_TERM
    && f.revoked == (f.op == Revoke)
    && (f.op == Transfer ==> f.notAfter - f.notBefore >= SETTLEMENT_SECONDS)
    && (f.op == Relinquish ==> f.notAfter == f.notBefore)
    && (f.op != Relinquish ==> f.notAfter > f.notBefore)
  }

  lemma {:induction false} NextSane(p: Primitives, prev: Predecessor, s: Step, bytes: Octets)
    requires !s.ToRegister? && Next(p, prev, s) == Ok(bytes)
    requires Sane(prev)
    ensures FromBytes(p.blake, bytes).Ok? && Sane(FromBytes(p.blake, bytes).value)
    ensures FromBytes(p.blake, bytes).value.notBefore == s.now >= prev.notBefore + MIN_INTERVAL_SECONDS
  {
    hide Next, FromBytes, Emitted, FieldIn;
    NextInTime(p, prev, s);
    var d := NextCarries(p, prev, s, bytes);
  }

  lemma {:induction false} ChainSane(p: Primitives, steps: seq<Step>, records: seq<Octets>, i: nat)
    requires IsChain(p, steps, records) && i < |records|
    ensures FromBytes(p.blake, records[i]).Ok? && Sane(FromBytes(p.blake, records[i]).value)
    ensures FromBytes(p.blake, records[i]).value.seqNo == i
  {
    hide First, Next, FromBytes, Emitted, FieldIn;
    if i == 0 {
      var d := FirstCarries(p, steps[0], records[0]);
    } else {
      ChainSane(p, steps, records, i - 1);
      assert Follows(p, records[i - 1], steps[i], records[i]);
      var prev := FromBytes(p.blake, records[i - 1]).value;
      NextSane(p, prev, steps[i], records[i]);
      var d := NextCarries(p, prev, steps[i], records[i]);
    }
  }

  /** How neighbours of a chain relate: position, hash link, spacing, expiry and the frozen states. */
  ghost predicate Neighbours(p: Primitives, before: Octets, after: Octets) {
    && FromBytes(p.blake, before).Ok? && FromBytes(p.blake, after).Ok?
    && (var f, g := FromBytes(p.blake, before).value, FromBytes(p.blake, after).value;
        && g.seqNo == f.seqNo + 1
        && FieldIn(after, PREV_HASH) == Some(Bytes(RecordHash(p.blake, before)))
        && g.notBefore >= f.notBefore + MIN_INTERVAL_SECONDS
        && (g.notAfter < f.notAfter ==> g.op == Relinquish)
        && f.op != Revoke
        && (f.op == Transfer ==> g.notBefore >= f.notBefore + SETTLEMENT_SECONDS)
        && (f.op == Relinquish ==> g.op == Renew && g.notBefore < f.notAfter + GRACE_SECONDS)
        && (g.op != Renew ==> g.notBefore < f.notAfter)
        && g.op != Register)
  }

  /** Bounded term, spacing, hash links, terminal and frozen states, over every chain. */
  lemma {:induction false} ChainInvariant(p: Primitives, steps: seq<Step>, records: seq<Octets>, i: nat)
    requires IsChain(p, steps, records) && i < |records|
    ensures FromBytes(p.blake, records[i]).Ok? && Sane(FromBytes(p.blake, records[i]).value)
    ensures FromBytes(p.blake, records[i]).value.seqNo == i
    ensures FromBytes(p.blake, records[i]).value.op == OpOf(steps[i])
    ensures i == 0 ==> FieldIn(records[0], PREV_HASH) == Some(Bytes(ZERO_HASH))
    ensures i > 0 ==> Neighbours(p, records[i - 1], records[i])
  {
    hide First, Next, Emitted, FieldIn;
    ChainSane(p, steps, records, i);
    if i == 0 {
      var d := FirstCarries(p, steps[0], records[0]);
    } else {
      ChainSane(p, steps, records, i - 1);
      assert Follows(p, records[i - 1], steps[i], records[i]);
      var prev := FromBytes(p.blake, records[i - 1]).value;
      HashOf(p.blake, records[i - 1]);
      hide FromBytes;
      NextInTime(p, prev, steps[i]);
      NextSane(p, prev, steps[i], records[i]);
      var d := NextCarries(p, prev, steps[i], records[i]);
    }
  }

  lemma {:induction false} HashOf(blake: Blake, bytes: Octets)
    requires FromBytes(blake, bytes).Ok?
    ensures FromBytes(blake, bytes).value.hash == RecordHash(blake, bytes)
  {
    hide Decode, FieldMap;
  }

  /** Only a relinquishment lowers the expiry, however far apart two records of a chain are. */
  lemma {:induction false} ExpiryGrows(p: Primitives, steps: seq<Step>, records: seq<Octets>, i: nat, j: nat)
    requires IsChain(p, steps, records) && i <= j < |records|
    requires forall k :: i < k <= j ==> !steps[k].ToRelinquish?
    ensures FromBytes(p.blake, records[i]).Ok? && FromBytes(p.blake, records[j]).Ok?
    ensures FromBytes(p.blake, records[i]).value.notAfter <= FromBytes(p.blake, records[j]).value.notAfter
    ensures FromBytes(p.blake, records[i]).value.notBefore + MIN_INTERVAL_SECONDS * (j - i)
         <= FromBytes(p.blake, records[j]).value.notBefore
    decreases j
  {
    hide FromBytes, IsChain, FieldIn;
    ChainInvariant(p, steps, records, i);
    if i < j {
      ExpiryGrows(p, steps, records, i, j - 1);
      ChainInvariant(p, steps, records, j);
    }
  }

  /** Records are 300 seconds apart, so no chain is longer than 64-bit time has room for. */
  lemma {:induction false} ChainSpacing(p: Primitives, steps: seq<Step>, records: seq<Octets>, i: nat)
    requires IsChain(p, steps, records) && i < |records|
    ensures FromBytes(p.blake, records[i]).Ok?
    ensures MIN_INTERVAL_SECONDS * i <= FromBytes(p.blake, records[i]).value.notBefore
    ensures MIN_INTERVAL_SECONDS * i < U64_LIMIT
  {
    hide FromBytes, IsChain, FieldIn;
    ChainInvariant(p, steps, records, i);
    if i > 0 {
      ChainSpacing(p, steps, records, i - 1);
    }
  }

  /** Signature coverage along every chain. */
  lemma {:induction false} ChainCovered(p: Primitives, steps: seq<Step>, records: seq<Octets>, i: nat)
    requires IsChain(p, steps, records) && i < |records|
    ensures Decode(records[i]).Ok? && Decode(records[i]).value.Map?
    ensures Covered(Decode(records[i]).value.entries, Signer(steps[i]), CoSigner(steps[i]))
  {
    hide First, Next, FromBytes, Emitted, FieldIn, Decode, Covered;
    var d: Draft;
    if i == 0 {
      d := FirstCarries(p, steps[0], records[0]);
    } else {
      assert Follows(p, records[i - 1], steps[i], records[i]);
      d := NextCarries(p, FromBytes(p.blake, records[i - 1]).value, steps[i], records[i]);
    }
    SignaturesCover(d, Signer(steps[i]), CoSigner(steps[i]), records[i]);
  }

  /** The proof in a decoded record meets at least the difficulty the schedule asks for this name. */
  ghost predicate PaidFor(p: Primitives, bytes: Octets, required: nat) {
    && Decode(bytes).Ok? && Decode(bytes).value.Map?
    && exists bits: u32, nonce: Nonce :: bits >= required && Proven(p, Decode(bytes).value.entries, bits, nonce)
  }

  /** Every REGISTER and RENEW a builder emits carries a proof that holds against its own salt. */
  lemma {:induction false} FirstPaidFor(p: Primitives, s: Step, bytes: Octets)
    requires s.ToRegister? && First(p, s) == Ok(bytes)
    ensures PaidFor(p, bytes, RequiredBits(CharCount(s.name), s.windowCount))
    ensures exists nonce :: Proven(p, Decode(bytes).value.entries, BitsOf(s), nonce)
  {
    hide ProveAndSign, Skeleton, Proof, EntryMaps, CharCount, Decode, Proven;
    var bits: u32 := if s.bits.Some? then s.bits.value else RequiredBits(CharCount(s.name), s.windowCount);
    var draft := Draft(Register, s.name, s.tld, s.identity.publicKey, 0, s.now, s.now + TERM_SECONDS,
                       EntriesField(s.entries).value, Map(Proof(bits, ZERO_NONCE)), ZERO_HASH);
    ProofHolds(p, draft, bits, s.identity, s.limit, bytes);
    assert bits == BitsOf(s);
  }

  lemma {:induction false} RenewalPaidFor(p: Primitives, prev: Predecessor, s: Step, bytes: Octets)
    requires s.ToRenew? && Next(p, prev, s) == Ok(bytes)
    ensures PaidFor(p, bytes, RequiredBits(CharCount(s.name), s.windowCount))
    ensures exists nonce :: Proven(p, Decode(bytes).value.entries, BitsOf(s), nonce)
  {
    hide ProveAndSign, Skeleton, Proof, CharCount, Decode, Proven, CarriedAliases;
    var bits: u32 := RequiredBits(CharCount(s.name), s.windowCount);
    var draft := Draft(Renew, s.name, s.tld, s.identity.publicKey, prev.seqNo + 1, s.now,
                       Max(prev.notAfter, s.now) + TERM_SECONDS, Array(prev.entries), Map(Proof(bits, ZERO_NONCE)),
                         prev.hash);
    ProofHolds(p, draft, bits, s.identity, s.limit, bytes);
    assert bits == BitsOf(s);
  }

  /** Every record of a chain names what its step was asked for: the operation's owner, label and domain.
      Only a transfer names a key other than the signer's, and that key has signed as well. */
  lemma {:induction false} ChainOwner(p: Primitives, steps: seq<Step>, records: seq<Octets>, i: nat)
    requires IsChain(p, steps, records) && i < |records|
    ensures FieldIn(records[i], OWNER_KEY) == Some(Bytes(OwnerAfter(steps[i])))
    ensures FieldIn(records[i], NAME) == Some(Text(steps[i].name))
            && FieldIn(records[i], TLD) == Some(Text(steps[i].tld))
    ensures OwnerAfter(steps[i]) == Signer(steps[i]).publicKey
            || (CoSigner(steps[i]).Some? && OwnerAfter(steps[i]) == CoSigner(steps[i]).value.publicKey)
  {
    hide First, Next, FromBytes, Emitted, FieldIn;
    if i == 0 {
      var d := FirstCarries(p, steps[0], records[0]);
    } else {
      assert Follows(p, records[i - 1], steps[i], records[i]);
      var d := NextCarries(p, FromBytes(p.blake, records[i - 1]).value, steps[i], records[i]);
    }
  }

  // ----- terminal and frozen states, on any predecessor -----

  /** Nothing follows a REVOKE; nothing follows a TRANSFER before it settles; an expired name takes only a
      renewal, and only in grace. */
  lemma {:induction false} Frozen(p: Primitives, prev: Predecessor, s: Step)
    requires !s.ToRegister?
    ensures prev.revoked ==> Next(p, prev, s).Err?
    ensures prev.op == Transfer && s.now < prev.notBefore + SETTLEMENT_SECONDS ==> Next(p, prev, s).Err?
    ensures s.now >= prev.notAfter ==> s.ToRenew? || Next(p, prev, s).Err?
    ensures s.now >= prev.notAfter + GRACE_SECONDS ==> Next(p, prev, s).Err?
  {
    hide Next;
    if Next(p, prev, s).Ok? {
      NextInTime(p, prev, s);
    }
  }

  /** The first instant at which a renewal is neither too soon, nor unsettled, nor before its window. */
  function EarliestRenewal(f: Predecessor): nat {
    Max(f.notBefore + (if f.op == Transfer then SETTLEMENT_SECONDS else MIN_INTERVAL_SECONDS),
        f.notAfter - RENEWAL_WINDOW_SECONDS)
  }

  /** No dead ends: from a state a chain can reach, some instant passes every time check of a renewal
      exactly when the name is not revoked and the new expiry fits 64 bits. */
  lemma {:induction false} RenewableIff(f: Predecessor)
    requires Sane(f)
    ensures (exists now: u64 :: RenewalCheck(f, now).Pass?)
       <==> f.op != Revoke && Max(f.notAfter, EarliestRenewal(f)) + TERM_SECONDS < U64_LIMIT
  {
    var earliest := EarliestRenewal(f);
    if f.op != Revoke && Max(f.notAfter, earliest) + TERM_SECONDS < U64_LIMIT {
      assert RenewalCheck(f, earliest).Pass?;
    }
    if now: u64 :| RenewalCheck(f, now).Pass? {
      assert now >= Saturating(f.notBefore + MIN_INTERVAL_SECONDS);
    }
  }

  // ----- entries survive -----

  /** A decoded field is in canonical form already. */
  lemma {:induction false} DecodedField(bytes: Octets, name: Name)
    requires FieldIn(bytes, name).Some?
    ensures Canon(FieldIn(bytes, name).value) == FieldIn(bytes, name).value
  {
    hide Decode, FieldMap, Sorted;
    var entries := Decode(bytes).value.entries;
    DecodedIsCanonical(bytes);
    CanonOfMap(entries);
    DecodedFieldsOf(bytes, entries);
  }

  lemma {:induction false} DecodedFieldsOf(bytes: Octets, entries: seq<Entry>)
    requires Decode(bytes) == Ok(Map(entries)) && Sorted(entries) == entries
    ensures FieldMap(entries) == CanonFields(FieldMap(entries))
  {
    hide Decode, Encode, FieldMap, Sorted;
    DecodedIsCanonical(bytes);
    DecodedFields(entries);
  }

  /** RENEW and TRANSFER repeat the `records` field of their predecessor, whatever bytes it came in: same
      value, same octets, entry types nobody knows included. Only a predecessor without the field gains
      an empty one. */
  lemma {:induction false} EntriesSurvive(p: Primitives, before: Octets, s: Step, after: Octets)
    requires Follows(p, before, s, after) && (s.ToRenew? || s.ToTransfer?)
    ensures FieldIn(after, RECORDS) == FieldIn(before, RECORDS) <==> FieldIn(before, RECORDS).Some?
    ensures FieldIn(before, RECORDS) == None ==> FieldIn(after, RECORDS) == Some(Array([]))
    ensures FieldIn(before, RECORDS).Some? ==>
              FieldIn(after, RECORDS).Some?
                && Encode(FieldIn(after, RECORDS).value) == Encode(FieldIn(before, RECORDS).value)
  {
    hide Next, Emitted, Encode, CanonItems;
    var prev := FromBytes(p.blake, before).value;
    PredecessorEntries(p.blake, before);
    hide FromBytes, FieldIn;
    var d := NextCarries(p, prev, s, after);
    if FieldIn(before, RECORDS).Some? {
      DecodedField(before, RECORDS);
    } else {
      assert prev.entries == [];
      CanonNothing();
    }
  }

  lemma {:induction false} CanonNothing()
    ensures Canon(Array([])) == Array([])
  {
  }

  lemma {:induction false} PredecessorEntries(blake: Blake, bytes: Octets)
    requires FromBytes(blake, bytes).Ok?
    ensures AsEntries(FieldIn(bytes, RECORDS)) == Some(FromBytes(blake, bytes).value.entries)
  {
    hide Decode, FieldMap;
  }

  /** Along every chain the field changes only at UPDATE, RELINQUISH and REVOKE, and is empty after the
      last two. */
  lemma {:induction false} ChainEntries(p: Primitives, steps: seq<Step>, records: seq<Octets>, i: nat)
    requires IsChain(p, steps, records) && 0 < i < |records|
    ensures steps[i].ToUpdate? || steps[i].ToRelinquish? || steps[i].ToRevoke?
            || FieldIn(records[i], RECORDS) == FieldIn(records[i - 1], RECORDS)
    ensures steps[i].ToRelinquish? || steps[i].ToRevoke? ==> FieldIn(records[i], RECORDS) == Some(Array([]))
  {
    hide First, Next, FromBytes, Emitted, FieldIn;
    assert Follows(p, records[i - 1], steps[i], records[i]);
    var d := NextCarries(p, FromBytes(p.blake, records[i - 1]).value, steps[i], records[i]);
    CanonNothing();
    var before: Draft;
    if i == 1 {
      before := FirstCarries(p, steps[0], records[0]);
    } else {
      assert Follows(p, records[i - 2], steps[i - 1], records[i - 1]);
      before := NextCarries(p, FromBytes(p.blake, records[i - 2]).value, steps[i - 1], records[i - 1]);
    }
    if steps[i].ToRenew? || steps[i].ToTransfer? {
      EntriesSurvive(p, records[i - 1], steps[i], records[i]);
    }
  }
}
