/** The proof in an emitted record holds against the salt anyone recomputes from the record. */
module ProofBinding {
  import opened Base
  import opened Ordering
  import opened Utf8
  import opened Cbor
  import opened CborMembers
  import opened Pow
  import opened SaltBinding
  import opened Record
  import opened RecordFacts

  lemma {:induction false} StripPointwise(xs: seq<Entry>, ys: seq<Entry>)
    requires |xs| == |ys| && forall i :: 0 <= i < |xs| ==> StripField(xs[i]) == StripField(ys[i])
    ensures Strip(xs) == Strip(ys)
  {
    hide StripField;
    if |xs| > 0 {
      StripPointwise(xs[..|xs| - 1], ys[..|ys| - 1]);
      assert StripField(xs[|xs| - 1]) == StripField(ys[|ys| - 1]);
    }
  }

  lemma {:induction false} ProofNames()
    ensures Different([ALG, BITS, NONCE])
    ensures Lit(ALG) != Lit(NONCE) && Lit(BITS) != Lit(NONCE)
  {
    assert |Lit(ALG)| == 3 && |Lit(BITS)| == 4 && |Lit(NONCE)| == 5;
  }

  lemma {:induction false} StripProofOne(kept: seq<Entry>, front: seq<Entry>, name: Name, value: Value)
    requires StripProof(front) == Ok(kept)
    ensures StripProof(front + [Member(name, value)])
         == Ok(if Lit(name) == Lit(NONCE) then kept else kept + [Member(name, value)])
  {
    hide Lit;
    var longer := front + [Member(name, value)];
    assert longer[..|longer| - 1] == front;
  }

  /** Without its nonce a proof says only what was claimed. */
  lemma {:induction false} ProofStripped(bits: u32, nonce: Nonce)
    ensures StripProof(Proof(bits, nonce)) == Ok([Member(ALG, Text(AlgorithmText())), Member(BITS, UInt(bits))])
  {
    hide AlgorithmText, Member, StripProof;
    ProofNames();
    var m1, m2, m3 := Member(ALG, Text(AlgorithmText())), Member(BITS, UInt(bits)), Member(NONCE, Bytes(nonce));
    NoProof();
    assert [] + [m1] == [m1] && [m1] + [m2] == [m1, m2];
    StripProofOne([], [], ALG, Text(AlgorithmText()));
    StripProofOne([m1], [m1], BITS, UInt(bits));
    StripProofOne([m1, m2], [m1, m2], NONCE, Bytes(nonce));
    assert Proof(bits, nonce) == [m1, m2] + [m3];
  }

  lemma {:induction false} NoProof()
    ensures StripProof([]) == Ok([])
  {
  }

  lemma {:induction false} SkeletonStrips(d: Draft, bits: u32, nonce: Nonce, other: Nonce)
    ensures Strip(Skeleton(d.(proof := Map(Proof(bits, nonce)))))
            == Strip(Skeleton(d.(proof := Map(Proof(bits, other)))))
  {
    var x, y := Skeleton(d.(proof := Map(Proof(bits, nonce)))), Skeleton(d.(proof := Map(Proof(bits, other))));
    ProofStripped(bits, nonce);
    ProofStripped(bits, other);
    assert RECORD_NAMES[10] == POW_PROOF;
    forall i | 0 <= i < |x| ensures StripField(x[i]) == StripField(y[i]) {
      hide Proof, StripProof;
      if i != 10 {
        assert x[i] == y[i];
      }
    }
    StripPointwise(x, y);
  }

  lemma {:induction false} SignedStrips(d: Draft, signature: Signature)
    ensures Strip(Signed(Skeleton(d), signature, None)) == Strip(Skeleton(d))
  {
    hide Skeleton;
    var signed := Signed(Skeleton(d), signature, None);
    assert signed[..|signed| - 1] == Skeleton(d);
    assert StripField(signed[|signed| - 1]) == Ok([]);
    if Strip(Skeleton(d)).Ok? {
      assert Strip(Skeleton(d)).value + [] == Strip(Skeleton(d)).value;
    }
  }

  lemma {:induction false} ProofIncreasing(bits: u32, nonce: Nonce)
    ensures Increasing(EntryKey, Proof(bits, nonce))
  {
    var proof := Proof(bits, nonce);
    assert EntryKey(proof[0])[0] == 0x63 && EntryKey(proof[1])[0] == 0x64 && EntryKey(proof[2])[0] == 0x65;
  }

  lemma {:induction false} FlatEntry(e: Entry)
    requires e.value.Text? || e.value.UInt? || e.value.Bytes?
    ensures CanonEntry(e) == e
  {
  }

  /** A proof is already in canonical form. */
  lemma {:induction false} ProofCanonical(bits: u32, nonce: Nonce)
    ensures Canon(Map(Proof(bits, nonce))) == Map(Proof(bits, nonce))
  {
    hide AlgorithmText, Lit;
    var proof := Proof(bits, nonce);
    assert proof[0].value.Text? && proof[1].value.UInt? && proof[2].value.Bytes?;
    forall i | 0 <= i < |proof| ensures CanonEntries(proof)[i] == proof[i] {
      FlatEntry(proof[i]);
    }
    assert CanonEntries(proof) == proof;
    ProofIncreasing(bits, nonce);
    SortIdentity(EntryKey, proof);
  }

  /** The proof of a decoded record: claimed difficulty and nonce, checked against the record's own salt. */
  ghost predicate Proven(p: Primitives, record: seq<Entry>, bits: u32, nonce: Nonce) {
    && Get(FieldMap(record), POW_PROOF) == Some(Map(Proof(bits, nonce)))
    && Salt(p.sha, record).Ok?
    && TagSatisfies(p.argon(nonce, Salt(p.sha, record).value), bits)
  }

  lemma {:induction false} SolvedTag(p: Primitives, record: seq<Entry>, bits: nat, limit: u64)
    requires Solve(p.sha, p.argon, record, bits, limit).Ok?
    ensures Salt(p.sha, record).Ok?
    ensures TagSatisfies(p.argon(Solve(p.sha, p.argon, record, bits, limit).value, Salt(p.sha, record).value), bits)
  {
    hide TagSatisfies;
    SearchSmallest(p.argon, Salt(p.sha, record).value, bits, 1, limit);
    WinsMeans(p.argon, Salt(p.sha, record).value, bits);
  }

  lemma {:induction false} WinsMeans(argon: Argon, salt: Octets, bits: nat)
    ensures forall n :: Wins(argon, salt, bits, n) <==> TagSatisfies(argon(NonceAt(n), salt), bits)
  {
  }

  /** Proof binding: the nonce found on the skeleton satisfies the tag test against the salt recomputed
      from the final, decoded record. */
  lemma {:induction false} ProofHolds(p: Primitives, d: Draft, bits: u32, signer: Identity, limit: u64, bytes: Octets)
    requires d.proof == Map(Proof(bits, ZERO_NONCE))
    requires ProveAndSign(p, Skeleton(d), bits, signer, None, limit) == Ok(bytes)
    ensures Decode(bytes).Ok? && Decode(bytes).value.Map?
    ensures exists nonce :: Proven(p, Decode(bytes).value.entries, bits, nonce)
  {
    hide Decode, Encode, Skeleton, Signed, Strip, Solve, Sorted, FieldMap, Proof, Sign, TagSatisfies;
    ProveEmits(p, d, bits, signer, None, limit);
    var nonce := Solve(p.sha, p.argon, Skeleton(d), bits, limit).value;
    var d' := d.(proof := Map(Proof(bits, nonce)));
    var signature, coSignature :| EmittedWith(d', signer, None, bytes, signature, coSignature);
    ReadsBack(d', signature, None, bytes);
    SolvedTag(p, Skeleton(d), bits, limit);
    ProofCanonical(bits, nonce);
    assert d == d.(proof := Map(Proof(bits, ZERO_NONCE)));
    SkeletonStrips(d, bits, nonce, ZERO_NONCE);
    SignedStrips(d', signature);
    var signed := Signed(Skeleton(d'), signature, None);
    assert SaltPreimage(signed) == SaltPreimage(Skeleton(d));
    PreimageOfDecoded(signed);
    assert Salt(p.sha, Sorted(signed)) == Salt(p.sha, Skeleton(d));
    assert Proven(p, Sorted(signed), bits, nonce);
  }
}
