/** What the salt binds: it can be recomputed from the decoded record, and two records with one salt
    preimage agree on everything but `sig` and the nonce. */
module SaltBinding {
  import opened Base
  import opened Ordering
  import opened Utf8
  import opened Cbor
  import opened CborCanonical
  import opened CborComplete
  import opened CborEquality
  import opened CborMembers
  import opened Domain
  import opened Pow

  /** This field of the record is that field of the preimage. */
  predicate StripsTo(f: Entry, e: Entry) {
    StripField(f) == Ok([e])
  }

  lemma {:induction false} FieldCases(f: Entry)
    ensures StripField(f).Ok? ==>
              (HasName(f, SIG) && StripField(f).value == []) || exists e: Entry :: e.key == f.key && StripsTo(f, e)
  {
    if StripField(f).Ok? && !HasName(f, SIG) {
      var e := StripField(f).value[0];
      assert e.key == f.key && StripsTo(f, e);
    }
  }

  lemma {:induction false} StripOkIff(record: seq<Entry>)
    ensures Strip(record).Ok? <==> forall f :: f in record ==> StripField(f).Ok?
  {
    hide StripField;
    if |record| > 0 {
      var front, last := record[..|record| - 1], record[|record| - 1];
      StripOkIff(front);
      assert forall f :: f in record <==> f in front || f == last;
    }
  }

  lemma {:induction false} StripMembers(record: seq<Entry>)
    requires Strip(record).Ok?
    ensures forall e :: e in Strip(record).value <==> exists f :: f in record && StripsTo(f, e)
  {
    hide StripField;
    if |record| > 0 {
      var front, last := record[..|record| - 1], record[|record| - 1];
      StripMembers(front);
      FieldCases(last);
      assert forall f :: f in record <==> f in front || f == last;
    }
  }

  lemma {:induction false} StripIncreasing(record: seq<Entry>)
    requires Strip(record).Ok? && Increasing(EntryKey, record)
    ensures Increasing(EntryKey, Strip(record).value)
  {
    hide StripField, EntryKey, Less;
    if |record| > 0 {
      var front, last := record[..|record| - 1], record[|record| - 1];
      StripIncreasing(front);
      StripMembers(front);
      FieldCases(last);
      var kept := Strip(front).value;
      forall i | 0 <= i < |kept| ensures Less(EntryKey(kept[i]), EntryKey(last)) {
        assert kept[i] in kept;
        var f :| f in front && StripsTo(f, kept[i]);
        FieldCases(f);
        SameEntryKey(f, kept[i]);
        var j :| 0 <= j < |front| && front[j] == f;
        assert record[j] == f && record[|record| - 1] == last;
      }
      forall e: Entry | e.key == last.key ensures EntryKey(e) == EntryKey(last) {
        SameEntryKey(e, last);
      }
    }
  }

  lemma {:induction false} SameEntryKey(e: Entry, f: Entry)
    requires e.key == f.key
    ensures EntryKey(e) == EntryKey(f)
  {
  }

  // ----- the proof map -----

  lemma {:induction false} StripProofOkIff(proof: seq<Entry>)
    ensures StripProof(proof).Ok? <==> TextKeys(proof)
    ensures StripProof(proof).Ok? ==>
              forall e :: e in StripProof(proof).value <==> e in proof && !HasName(e, NONCE)
  {
    if |proof| > 0 {
      var front, last := proof[..|proof| - 1], proof[|proof| - 1];
      StripProofOkIff(front);
      assert forall e :: e in proof <==> e in front || e == last;
    }
  }

  lemma {:induction false} StripProofIncreasing(proof: seq<Entry>)
    requires StripProof(proof).Ok? && Increasing(EntryKey, proof)
    ensures Increasing(EntryKey, StripProof(proof).value)
  {
    hide EntryKey, Less;
    if |proof| > 0 {
      var front, last := proof[..|proof| - 1], proof[|proof| - 1];
      StripProofIncreasing(front);
      StripProofOkIff(front);
      var kept := StripProof(front).value;
      forall i | 0 <= i < |kept| ensures Less(EntryKey(kept[i]), EntryKey(last)) {
        assert kept[i] in kept;
        var j :| 0 <= j < |front| && front[j] == kept[i];
        assert proof[j] == kept[i] && proof[|proof| - 1] == last;
      }
    }
  }

  lemma {:induction false} StripProofDistinct(proof: seq<Entry>)
    requires StripProof(proof).Ok? && Distinct(EntryKey, proof)
    ensures Distinct(EntryKey, StripProof(proof).value)
  {
    hide EntryKey;
    if |proof| > 0 {
      var front, last := proof[..|proof| - 1], proof[|proof| - 1];
      StripProofDistinct(front);
      StripProofOkIff(front);
      var kept := StripProof(front).value;
      forall i | 0 <= i < |kept| ensures EntryKey(kept[i]) != EntryKey(last) {
        assert kept[i] in kept;
        var j :| 0 <= j < |front| && front[j] == kept[i];
        assert proof[j] == kept[i] && proof[|proof| - 1] == last;
      }
    }
  }

  /** Leaving the nonce out and sorting can be done in either order. */
  lemma {:induction false} StripProofSorted(proof: seq<Entry>)
    requires TextKeys(proof) && Distinct(EntryKey, proof)
    ensures StripProof(proof).Ok? && StripProof(Sorted(proof)) == Ok(Sorted(StripProof(proof).value))
  {
    hide EntryKey, Sorted, StripProof;
    SortedTextKeys(proof);
    StripProofOkIff(proof);
    StripProofOkIff(Sorted(proof));
    var kept := StripProof(proof).value;
    var a, b := StripProof(Sorted(proof)).value, Sorted(kept);
    StripProofDistinct(proof);
    DistinctSortedIncreasing(proof);
    DistinctSortedIncreasing(kept);
    StripProofIncreasing(Sorted(proof));
    forall e ensures e in a <==> e in b {
      SortedMembers(proof, e);
      SortedMembers(kept, e);
      assert forall f :: HasName(CanonEntry(f), NONCE) <==> HasName(f, NONCE);
    }
    IncreasingUnique(EntryKey, a, b);
  }

  lemma {:induction false} DistinctSortedIncreasing(entries: seq<Entry>)
    requires Distinct(EntryKey, entries)
    ensures Increasing(EntryKey, Sorted(entries))
  {
    CanonDistinct(entries);
    SortIncreasing(EntryKey, CanonEntries(entries));
  }

  // ----- the record -----

  /** The canonical form of a field strips to the canonical form of what the field strips to. */
  lemma {:induction false} FieldCanonStrips(f: Entry)
    requires StripField(f).Ok? && WellKeyedEntry(f)
    ensures StripField(CanonEntry(f)).Ok?
    ensures forall e :: StripsTo(f, e) ==> StripsTo(CanonEntry(f), CanonEntry(e))
    ensures forall e :: StripsTo(CanonEntry(f), e) ==> exists g :: StripsTo(f, g) && e == CanonEntry(g)
  {
    hide EntryKey, Sorted, StripProof;
    if !HasName(f, SIG) {
      if HasName(f, POW_PROOF) {
        var proof := f.value.entries;
        StripProofOkIff(proof);
        StripProofSorted(proof);
        var g := Entry(f.key, Map(StripProof(proof).value));
        CanonOfMap(proof);
        CanonOfMap(StripProof(proof).value);
        assert StripsTo(f, g) && StripsTo(CanonEntry(f), CanonEntry(g));
      } else {
        assert StripsTo(f, f) && StripsTo(CanonEntry(f), CanonEntry(f));
      }
    }
  }

  lemma {:induction false} CanonOfMap(entries: seq<Entry>)
    ensures Canon(Map(entries)) == Map(Sorted(entries))
  {
  }

  lemma {:induction false} EncodesKeyed(record: seq<Entry>)
    requires Encode(Map(record)).Ok?
    ensures forall f :: f in record ==> WellKeyedEntry(f)
  {
    EncodesWellKeyed(Map(record), 0);
    forall f | f in record ensures WellKeyedEntry(f) {
      var i :| 0 <= i < |record| && record[i] == f;
    }
  }

  /** Stripping and sorting can be done in either order. */
  lemma {:induction false} StripSorted(record: seq<Entry>)
    requires Encode(Map(record)).Ok? && Strip(record).Ok? && Encode(Map(Strip(record).value)).Ok?
    ensures Strip(Sorted(record)) == Ok(Sorted(Strip(record).value))
  {
    hide EntryKey, Sorted, StripField, Strip, Encode;
    var kept := Strip(record).value;
    EncodesKeyed(record);
    StripOkIff(record);
    StripOkIff(Sorted(record));
    forall e | e in Sorted(record) ensures StripField(e).Ok? {
      SortedMembers(record, e);
      var f :| f in record && e == CanonEntry(f);
      FieldCanonStrips(f);
    }
    var a, b := Strip(Sorted(record)).value, Sorted(kept);
    StripMembers(record);
    StripMembers(Sorted(record));
    forall e ensures e in a <==> e in b {
      StripSortedMember(record, e);
      SortedMembers(kept, e);
    }
    SortedIncreasing(record);
    SortedIncreasing(kept);
    StripIncreasing(Sorted(record));
    IncreasingUnique(EntryKey, a, b);
  }

  lemma {:induction false} StripSortedMember(record: seq<Entry>, e: Entry)
    requires forall f :: f in record ==> StripField(f).Ok? && WellKeyedEntry(f)
    ensures (exists f :: f in Sorted(record) && StripsTo(f, e))
       <==> (exists f, g :: f in record && StripsTo(f, g) && e == CanonEntry(g))
  {
    hide Sorted, StripField, StripsTo, CanonEntry;
    if f :| f in Sorted(record) && StripsTo(f, e) {
      SortedMembers(record, f);
      var f' :| f' in record && f == CanonEntry(f');
      FieldCanonStrips(f');
      var g :| StripsTo(f', g) && e == CanonEntry(g);
    }
    if f, g :| f in record && StripsTo(f, g) && e == CanonEntry(g) {
      FieldCanonStrips(f);
      SortedMembers(record, CanonEntry(f));
    }
  }

  /** The preimage recomputed from the decoded record is the one the builder had. */
  lemma {:induction false} PreimageOfDecoded(record: seq<Entry>)
    requires Encode(Map(record)).Ok? && SaltPreimage(record).Ok?
    ensures SaltPreimage(Sorted(record)) == SaltPreimage(record)
  {
    hide Strip, Sorted, Encode;
    StripSorted(record);
    SortedEncodesAlike(Strip(record).value);
  }

  /** A decoded value is its own canonical form. */
  lemma {:induction false} DecodedIsCanonical(bytes: Octets)
    requires Decode(bytes).Ok?
    ensures Canon(Decode(bytes).value) == Decode(bytes).value
    ensures Encode(Decode(bytes).value) == Ok(bytes)
  {
    StrictDecodingIsCanonical(bytes);
    EncodingIsComplete(Decode(bytes).value, []);
  }

  lemma {:induction false} DecodedSalt(bytes: Octets, record: seq<Entry>)
    requires Decode(bytes) == Ok(Map(record)) && SaltPreimage(record).Ok?
    ensures Strip(record) == Ok(Sorted(Strip(record).value))
    ensures Encode(Map(Strip(record).value)).Ok?
    ensures SaltPreimage(record).value == POW_SALT_PREFIX + Encode(Map(Strip(record).value)).value
  {
    hide Strip, Sorted, Encode, Decode;
    DecodedIsCanonical(bytes);
    CanonOfMap(record);
    StripSorted(record);
  }

  lemma {:induction false} SameCut(prefix: Octets, a: Octets, b: Octets)
    requires prefix + a == prefix + b
    ensures a == b
  {
    assert (prefix + a)[|prefix|..] == a && (prefix + b)[|prefix|..] == b;
  }

  /** One preimage, one record: two decoded records with the same salt preimage hold the same fields,
      except `sig`, and the same proofs, except the nonce. */
  lemma {:induction false} SaltBinds(a: Octets, b: Octets, xs: seq<Entry>, ys: seq<Entry>)
    requires Decode(a) == Ok(Map(xs)) && Decode(b) == Ok(Map(ys))
    requires SaltPreimage(xs).Ok? && SaltPreimage(xs) == SaltPreimage(ys)
    ensures forall e :: !HasName(e, SIG) && !HasName(e, POW_PROOF) ==> (e in xs <==> e in ys)
    ensures forall p :: Member(POW_PROOF, Map(p)) in xs ==>
              exists q :: Member(POW_PROOF, Map(q)) in ys && forall e :: !HasName(e, NONCE) ==> (e in p <==> e in q)
  {
    hide Strip, Sorted, Encode, Decode, StripField, StripProof;
    DecodedSalt(a, xs);
    DecodedSalt(b, ys);
    var s, t := Strip(xs).value, Strip(ys).value;
    SameCut(POW_SALT_PREFIX, Encode(Map(s)).value, Encode(Map(t)).value);
    SameEncoding(s, t);
    StripOkIff(xs);
    StripOkIff(ys);
    StripMembers(xs);
    StripMembers(ys);
    forall e | !HasName(e, SIG) && !HasName(e, POW_PROOF) ensures e in xs <==> e in ys {
      KeptField(xs, e);
      KeptField(ys, e);
      assert e in s <==> e in t;
    }
    forall p | Member(POW_PROOF, Map(p)) in xs
      ensures exists q :: Member(POW_PROOF, Map(q)) in ys && forall e :: !HasName(e, NONCE) ==> (e in p <==> e in q) {
      var f := Member(POW_PROOF, Map(p));
      ProofField(f);
      var cut := Member(POW_PROOF, Map(StripProof(p).value));
      assert StripsTo(f, cut) && cut in s;
      var g :| g in ys && StripsTo(g, cut);
      FieldCases(g);
      ProofField(g);
      var q := g.value.entries;
      assert g == Member(POW_PROOF, Map(q));
      assert Member(POW_PROOF, Map(StripProof(q).value)) == cut;
      StripProofOkIff(p);
      StripProofOkIff(q);
    }
  }

  lemma {:induction false} SameEncoding(s: seq<Entry>, t: seq<Entry>)
    requires Encode(Map(s)).Ok? && Encode(Map(t)).Ok? && Encode(Map(s)) == Encode(Map(t))
    requires s == Sorted(s) && t == Sorted(t)
    ensures s == t
  {
    EncodingIsComplete(Map(s), []);
    EncodingIsComplete(Map(t), []);
  }

  lemma {:induction false} KeptField(xs: seq<Entry>, e: Entry)
    requires !HasName(e, SIG) && !HasName(e, POW_PROOF)
    requires forall f :: f in xs ==> StripField(f).Ok?
    ensures e in xs <==> exists f :: f in xs && StripsTo(f, e)
  {
    if e in xs {
      assert StripsTo(e, e);
    }
    if f :| f in xs && StripsTo(f, e) {
      FieldCases(f);
      assert f.key == e.key;
      assert f == e;
    }
  }

  lemma {:induction false} ProofField(f: Entry)
    requires f.key == TextKey(Lit(POW_PROOF)) && StripField(f).Ok?
    ensures f.value.Map? && StripProof(f.value.entries).Ok?
    ensures StripField(f).value == [Entry(f.key, Map(StripProof(f.value.entries).value))]
  {
    LitInjective(SIG, POW_PROOF);
  }
}
