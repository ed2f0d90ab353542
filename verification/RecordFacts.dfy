/** What an emitted record says: reading it back, what its signatures cover, what its proof is bound to. */
module RecordFacts {
  import opened Base
  import opened Utf8
  import opened Cbor
  import opened CborMembers
  import opened Domain
  import opened Pow
  import opened Record

  const SIGNED_NAMES: seq<Name> := RECORD_NAMES + [SIG]
  const COSIGNED_NAMES: seq<Name> := RECORD_NAMES + [SIG, CO_SIG]

  function NamesOf(coSignature: Option<Signature>): seq<Name> {
    if coSignature.Some? then COSIGNED_NAMES else SIGNED_NAMES
  }

  function ValuesOf(d: Draft, signature: Signature, coSignature: Option<Signature>): (r: seq<Value>)
    ensures |r| == |NamesOf(coSignature)|
  {
    DraftValues(d) + [Bytes(signature)] + if coSignature.Some? then [Bytes(coSignature.value)] else []
  }

  lemma {:induction false} NamesDiffer(coSignature: Option<Signature>)
    ensures Different(RECORD_NAMES) && Different(NamesOf(coSignature))
  {
    assert Different(COSIGNED_NAMES);
    assert COSIGNED_NAMES[..12] == RECORD_NAMES && COSIGNED_NAMES[..13] == SIGNED_NAMES;
  }

  lemma {:induction false} SignedIsMembers(d: Draft, signature: Signature, coSignature: Option<Signature>)
    ensures Signed(Skeleton(d), signature, coSignature) == Members(NamesOf(coSignature),
                                                                   ValuesOf(d, signature, coSignature))
  {
  }

  /** The field values a record was drafted with. */
  ghost predicate Says(fields: Fields, d: Draft, signature: Signature, coSignature: Option<Signature>) {
    && Get(fields, VERSION) == Some(UInt(SUPPORTED_VERSION)) && Get(fields, SUITE) == Some(UInt(LAUNCH_SUITE))
    && Get(fields, OP) == Some(Text(Lit(OpText(d.op))))
    && Get(fields, NAME) == Some(Text(d.name)) && Get(fields, TLD) == Some(Text(d.tld))
    && Get(fields, OWNER_KEY) == Some(Bytes(d.ownerKey)) && Get(fields, SEQ) == Some(UInt(d.seqNo))
    && Get(fields, NOT_BEFORE) == Some(UInt(d.notBefore)) && Get(fields, NOT_AFTER) == Some(UInt(d.notAfter))
    && Get(fields, RECORDS) == Some(Canon(d.records)) && Get(fields, POW_PROOF) == Some(Canon(d.proof))
    && Get(fields, PREV_HASH) == Some(Bytes(d.prevHash)) && Get(fields, SIG) == Some(Bytes(signature))
    && Get(fields, CO_SIG) == (if coSignature.Some? then Some(Bytes(coSignature.value)) else None)
  }

  lemma {:induction false} CarriedSays(fields: Fields, d: Draft, signature: Signature, coSignature: Option<Signature>)
    requires Carries(fields, NamesOf(coSignature), CanonAll(ValuesOf(d, signature, coSignature)))
    requires coSignature.None? ==> Get(fields, CO_SIG) == None
    ensures Says(fields, d, signature, coSignature)
  {
    hide CanonItems, Get;
    var names, values := NamesOf(coSignature), ValuesOf(d, signature, coSignature);
    assert forall i :: 0 <= i < |names| ==> Get(fields, names[i]) == Some(Canon(values[i]));
    assert Get(fields, names[0]) == Some(Canon(values[0])) && Get(fields, names[1]) == Some(Canon(values[1]));
    assert Get(fields, names[2]) == Some(Canon(values[2])) && Get(fields, names[3]) == Some(Canon(values[3]));
    assert Get(fields, names[4]) == Some(Canon(values[4])) && Get(fields, names[5]) == Some(Canon(values[5]));
    assert Get(fields, names[6]) == Some(Canon(values[6])) && Get(fields, names[7]) == Some(Canon(values[7]));
    assert Get(fields, names[8]) == Some(Canon(values[8])) && Get(fields, names[9]) == Some(Canon(values[9]));
    assert Get(fields, names[10]) == Some(Canon(values[10])) && Get(fields, names[11]) == Some(Canon(values[11]));
    assert Get(fields, names[12]) == Some(Canon(values[12]));
    if coSignature.Some? {
      assert Get(fields, names[13]) == Some(Canon(values[13]));
    }
  }

  lemma {:induction false} NoCoSignature()
    ensures CO_SIG !in SIGNED_NAMES
  {
  }

  /** An emitted record decodes to exactly what it was drafted with. */
  lemma {:induction false} ReadsBack(d: Draft, signature: Signature, coSignature: Option<Signature>, bytes: Octets)
    requires Encode(Map(Signed(Skeleton(d), signature, coSignature))) == Ok(bytes)
    ensures Decode(bytes) == Ok(Map(Sorted(Signed(Skeleton(d), signature, coSignature))))
    ensures Says(FieldMap(Sorted(Signed(Skeleton(d), signature, coSignature))), d, signature, coSignature)
  {
    hide Encode, Decode, Says, Carries, FieldMap, Sorted, DraftValues, Signed, Skeleton;
    NamesDiffer(coSignature);
    SignedIsMembers(d, signature, coSignature);
    var names, values := NamesOf(coSignature), ValuesOf(d, signature, coSignature);
    DecodedFields(Members(names, values));
    MembersDecode(names, values);
    NoCoSignature();
    CarriedSays(FieldMap(Sorted(Members(names, values))), d, signature, coSignature);
  }

  lemma {:induction false} OpReadsBack(op: Op)
    ensures ParseOp(Lit(OpText(op))) == Some(op)
    ensures Lit(OpText(op)) == Lit(OpText(Revoke)) <==> op == Revoke
  {
    LitInjective(OpText(op), OpText(Register));
    LitInjective(OpText(op), OpText(Renew));
    LitInjective(OpText(op), OpText(Update));
    LitInjective(OpText(op), OpText(Transfer));
    LitInjective(OpText(op), OpText(Relinquish));
    LitInjective(OpText(op), OpText(Revoke));
  }

  /** The facts a successor derives from an emitted record are the drafted ones. */
  lemma {:induction false} FactsReadBack(blake: Blake, d: Draft, signature: Signature, coSignature: Option<Signature>,
                                         bytes: Octets)
    requires Encode(Map(Signed(Skeleton(d), signature, coSignature))) == Ok(bytes) && d.records.Array?
    ensures FromBytes(blake, bytes)
         == Ok(Predecessor(d.seqNo, d.op, d.notBefore, d.notAfter, RecordHash(blake, bytes), d.op == Revoke,
                           CanonItems(d.records.items)))
  {
    hide Encode, Decode, FieldMap, Sorted, Signed, Skeleton, Get, ParseOp, OpText, CanonItems;
    ReadsBack(d, signature, coSignature, bytes);
    OpReadsBack(d.op);
  }

  // ----- what the builders emit -----

  /** These bytes are this draft, signed over its skeleton by the signer and, if there is one, the
      co-signer, both over the same input. */
  ghost predicate Emitted(d: Draft, signer: Identity, coSigner: Option<Identity>, bytes: Octets) {
    exists signature: Signature, coSignature: Option<Signature> ::
      EmittedWith(d, signer, coSigner, bytes, signature, coSignature)
  }

  ghost predicate EmittedWith(d: Draft, signer: Identity, coSigner: Option<Identity>, bytes: Octets,
                              signature: Signature, coSignature: Option<Signature>)
  {
    && Encode(Map(Skeleton(d))).Ok?
    && Encode(Map(Signed(Skeleton(d), signature, coSignature))) == Ok(bytes)
    && var input := SigningInput(Encode(Map(Skeleton(d))).value, LAUNCH_SUITE_BYTE);
       && signer.sign(input) == Some(signature)
       && (match coSigner
           case None => coSignature == None
           case Some(co) => coSignature.Some? && co.sign(input) == coSignature)
  }

  lemma {:induction false} SignEmits(d: Draft, signer: Identity, coSigner: Option<Identity>)
    requires Sign(Skeleton(d), signer, coSigner).Ok?
    ensures Emitted(d, signer, coSigner, Sign(Skeleton(d), signer, coSigner).value)
  {
    hide Encode, Skeleton, Signed;
    var input := SigningInput(Encode(Map(Skeleton(d))).value, LAUNCH_SUITE_BYTE);
    var signature := signer.sign(input).value;
    var coSignature := if coSigner.Some? then coSigner.value.sign(input) else None;
    assert EmittedWith(d, signer, coSigner, Sign(Skeleton(d), signer, coSigner).value, signature, coSignature);
  }

  /** Putting a proof into a skeleton changes that field only. */
  lemma {:induction false} ProofPut(d: Draft, proof: Value)
    ensures WithProof(Skeleton(d), proof) == Skeleton(d.(proof := proof))
  {
    NamesDiffer(None);
    assert RECORD_NAMES[10] == POW_PROOF;
    var a, b := WithProof(Skeleton(d), proof), Skeleton(d.(proof := proof));
    forall i | 0 <= i < |a| ensures a[i] == b[i] {
      LitInjective(RECORD_NAMES[i], POW_PROOF);
      if i != 10 {
        assert RECORD_NAMES[i] != RECORD_NAMES[10];
      }
    }
  }

  lemma {:induction false} ProveEmits(p: Primitives, d: Draft, bits: u32, signer: Identity,
                                      coSigner: Option<Identity>, limit: u64)
    requires ProveAndSign(p, Skeleton(d), bits, signer, coSigner, limit).Ok?
    ensures var nonce := Solve(p.sha, p.argon, Skeleton(d), bits, limit);
            && nonce.Ok?
            && Emitted(d.(proof := Map(Proof(bits, nonce.value))), signer, coSigner,
                       ProveAndSign(p, Skeleton(d), bits, signer, coSigner, limit).value)
  {
    hide Solve, Sign, Skeleton, Proof, Emitted, WithProof;
    var nonce := Solve(p.sha, p.argon, Skeleton(d), bits, limit).value;
    ProofPut(d, Map(Proof(bits, nonce)));
    SignEmits(d.(proof := Map(Proof(bits, nonce))), signer, coSigner);
  }

  // ----- signature coverage -----

  /** The signatures in the decoded record cover its own core: strip `sig` and `coSig`, encode, prefix,
      and the result is what both were made over. */
  ghost predicate Covered(record: seq<Entry>, signer: Identity, coSigner: Option<Identity>) {
    && EncodeCore(record).Ok?
    && var input := SigningInput(EncodeCore(record).value, LAUNCH_SUITE_BYTE);
       && (exists s :: signer.sign(input) == Some(s) && Get(FieldMap(record), SIG) == Some(Bytes(s)))
       && (match coSigner
           case None => Get(FieldMap(record), CO_SIG) == None
           case Some(co) => exists s :: co.sign(input) == Some(s) && Get(FieldMap(record), CO_SIG) == Some(Bytes(s)))
  }

  lemma {:induction false} SkeletonSigned(d: Draft, signature: Signature, coSignature: Option<Signature>)
    ensures Signs(Skeleton(d), Signed(Skeleton(d), signature, coSignature))
  {
    NamesDiffer(coSignature);
    var record, signed := Skeleton(d), Signed(Skeleton(d), signature, coSignature);
    forall i | 0 <= i < |record| ensures !IsSignature(record[i]) {
      LitInjective(RECORD_NAMES[i], SIG);
      LitInjective(RECORD_NAMES[i], CO_SIG);
      assert COSIGNED_NAMES[i] == RECORD_NAMES[i] && COSIGNED_NAMES[12] == SIG && COSIGNED_NAMES[13] == CO_SIG;
      NamesDiffer(Some(signature));
    }
    forall e ensures e in record <==> e in signed && !IsSignature(e) {
      if e in signed {
        var i :| 0 <= i < |signed| && signed[i] == e;
        assert i < |record| ==> record[i] == e;
      }
    }
  }

  /** Signature coverage, for every record a builder emits. */
  lemma {:induction false} SignaturesCover(d: Draft, signer: Identity, coSigner: Option<Identity>, bytes: Octets)
    requires Emitted(d, signer, coSigner, bytes)
    ensures Decode(bytes).Ok? && Decode(bytes).value.Map?
    ensures Covered(Decode(bytes).value.entries, signer, coSigner)
  {
    hide Encode, Decode, FieldMap, Sorted, Signed, Skeleton, Get, EncodeCore, SigningInput;
    var signature, coSignature :| EmittedWith(d, signer, coSigner, bytes, signature, coSignature);
    ReadsBack(d, signature, coSignature, bytes);
    SkeletonSigned(d, signature, coSignature);
    CoreSurvives(Skeleton(d), Signed(Skeleton(d), signature, coSignature));
  }
}
