/** What is signed, hashed and salted, octet for octet, of a record as it decodes (client/src/domain.rs,
    client/src/pow.rs): fields dropped, the rest written as RFC 8949 says, a domain in front. */
module Preimages {
  import opened Base
  import opened Ordering
  import opened Utf8
  import opened Cbor
  import opened CborCanonical
  import opened CborMembers
  import opened CborWire
  import opened Domain
  import opened Pow

  /** The entries under other names. */
  ghost function Without(entries: seq<Entry>, names: seq<Name>): seq<Entry> {
    if |entries| == 0 then []
    else
      var front, last := Without(entries[..|entries| - 1], names), entries[|entries| - 1];
      if exists i :: 0 <= i < |names| && last.key == TextKey(Lit(names[i])) then front else front + [last]
  }

  /** What the signatures of a record are over. */
  ghost function SigningOctets(entries: seq<Entry>): Octets {
    Ascii("VayuWeb-Registry-Record-v1") + [0, 1] + Wire(Map(Without(entries, ["sig", "coSig"])))
  }

  ghost function HashingOctets(bytes: Octets): Octets {
    Ascii("VayuWeb-Registry-Hash-v1") + [0] + bytes
  }

  /** The field of a proof, without the nonce in it. */
  ghost function WithoutNonce(e: Entry): Entry {
    if e.key == TextKey(Lit("powProof")) && e.value.Map? then Entry(e.key, Map(Without(e.value.entries, ["nonce"])))
    else e
  }

  ghost function Cut(kept: seq<Entry>): (r: seq<Entry>)
    ensures |r| == |kept| && forall i :: 0 <= i < |kept| ==> r[i] == WithoutNonce(kept[i])
  {
    seq(|kept|, i requires 0 <= i < |kept| => WithoutNonce(kept[i]))
  }

  ghost function SaltFields(entries: seq<Entry>): seq<Entry> {
    Cut(Without(entries, ["sig", "coSig"]))
  }

  /** What the salt of a record's proof is the digest of. */
  ghost function SaltOctets(entries: seq<Entry>): Octets {
    Ascii("vayuweb-pow-v1") + Wire(Map(SaltFields(entries)))
  }

  // ----- parts of decoded maps -----

  lemma {:induction false} WithoutMembers(entries: seq<Entry>, names: seq<Name>, e: Entry)
    ensures |Without(entries, names)| <= |entries|
    ensures e in Without(entries, names)
       <==> e in entries && forall i :: 0 <= i < |names| ==> e.key != TextKey(Lit(names[i]))
  {
    if |entries| > 0 {
      var front, last := entries[..|entries| - 1], entries[|entries| - 1];
      WithoutMembers(front, names, e);
      assert e in entries <==> e in front || e == last;
    }
  }

  lemma {:induction false} WithoutIncreasing(entries: seq<Entry>, names: seq<Name>)
    requires Increasing(EntryKey, entries)
    ensures Increasing(EntryKey, Without(entries, names))
  {
    hide EntryKey, Less;
    if |entries| > 0 {
      var front, last := entries[..|entries| - 1], entries[|entries| - 1];
      WithoutIncreasing(front, names);
      var kept := Without(front, names);
      forall i | 0 <= i < |kept| ensures Less(EntryKey(kept[i]), EntryKey(last)) {
        WithoutMembers(front, names, kept[i]);
        var j :| 0 <= j < |front| && front[j] == kept[i];
        assert entries[j] == kept[i] && entries[|entries| - 1] == last;
      }
    }
  }

  /** A map whose entries are in order and each of them as decoding leaves it encodes as it stands. */
  lemma {:induction false} PartEncodes(part: seq<Entry>)
    requires |part| < U64_LIMIT && Increasing(EntryKey, part)
    requires forall i :: 0 <= i < |part| ==> MachineEntry(part[i]) && InOrderEntry(part[i]) && NestsEntry(part[i], 31)
    ensures Encode(Map(part)) == Ok(Wire(Map(part)))
    ensures Machine(Map(part)) && InOrder(Map(part)) && Nests(Map(part), 32)
  {
    hide Wire, WireKey, MachineEntry, InOrderEntry, NestsEntry, EntryKey, Less, Before;
    assert Machine(Map(part));
    InOrderIncreasing(part);
    DecodesIff(Wire(Map(part)), Map(part));
    StrictDecodingIsCanonical(Wire(Map(part)));
  }

  /** How the entries of a decoded map stand. */
  lemma {:induction false} DecodedEntries(bytes: Octets, entries: seq<Entry>)
    requires Decode(bytes) == Ok(Map(entries))
    ensures |entries| < U64_LIMIT && Increasing(EntryKey, entries)
    ensures forall i :: 0 <= i < |entries| ==>
              MachineEntry(entries[i]) && InOrderEntry(entries[i]) && NestsEntry(entries[i], 31)
  {
    hide Wire, WireKey, MachineEntry, InOrderEntry, NestsEntry, EntryKey, Less, Before;
    DecodesIff(bytes, Map(entries));
    InOrderIncreasing(entries);
  }

  lemma {:induction false} WithoutEncodes(bytes: Octets, entries: seq<Entry>, names: seq<Name>)
    requires Decode(bytes) == Ok(Map(entries))
    ensures Encode(Map(Without(entries, names))) == Ok(Wire(Map(Without(entries, names))))
  {
    DecodedEntries(bytes, entries);
    WithoutIncreasing(entries, names);
    var kept := Without(entries, names);
    hide Without, Wire, MachineEntry, InOrderEntry, NestsEntry, EntryKey, Less, Encode, Decode;
    forall i | 0 <= i < |kept| ensures MachineEntry(kept[i]) && InOrderEntry(kept[i]) && NestsEntry(kept[i], 31) {
      WithoutMembers(entries, names, kept[i]);
      var j :| 0 <= j < |entries| && entries[j] == kept[i];
    }
    if |entries| > 0 {
      WithoutMembers(entries, names, entries[0]);
    }
    WithoutNoLonger(entries, names);
    PartEncodes(kept);
  }

  lemma {:induction false} WithoutNoLonger(entries: seq<Entry>, names: seq<Name>)
    ensures |Without(entries, names)| <= |entries|
  {
    if |entries| > 0 {
      WithoutNoLonger(entries[..|entries| - 1], names);
    }
  }

  // ----- what is signed and hashed -----

  lemma {:induction false} CoreIs(entries: seq<Entry>)
    ensures CoreOf(entries) == if TextKeys(entries) then Ok(Without(entries, ["sig", "coSig"])) else Err(BadMapKey)
  {
    if |entries| > 0 {
      var front, last := entries[..|entries| - 1], entries[|entries| - 1];
      CoreIs(front);
      assert TextKeys(entries) <==> TextKeys(front) && last.key.TextKey?;
      SignatureNames(last);
    }
  }

  lemma {:induction false} SignatureNames(e: Entry)
    ensures var names: seq<Name> := ["sig", "coSig"];
            IsSignature(e) <==> exists i :: 0 <= i < |names| && e.key == TextKey(Lit(names[i]))
  {
    var names: seq<Name> := ["sig", "coSig"];
    assert names[0] == SIG && names[1] == CO_SIG;
  }

  /** The core of a decoded record encodes exactly when its keys are text, and the signing input is the record
      without its signatures, after the domain, a zero and the suite. */
  lemma {:induction false} SigningInputIs(bytes: Octets, entries: seq<Entry>)
    requires Decode(bytes) == Ok(Map(entries))
    ensures EncodeCore(entries).Ok? <==> TextKeys(entries)
    ensures EncodeCore(entries).Ok? ==> SigningInput(EncodeCore(entries).value, 1) == SigningOctets(entries)
  {
    CoreIs(entries);
    WithoutEncodes(bytes, entries, ["sig", "coSig"]);
    hide Decode, Encode, CoreOf, Without, Wire;
    var prefix := Ascii("VayuWeb-Registry-Record-v1");
    assert RECORD_SIGNING_PREFIX == prefix;
  }

  lemma {:induction false} HashIs(blake: Blake, bytes: Octets)
    ensures RecordHash(blake, bytes) == blake(HashingOctets(bytes))
  {
    assert HashingOctets(bytes) == WithDomain(RECORD_HASH_PREFIX, bytes, []);
  }

  // ----- what the salt is made of -----

  lemma {:induction false} StripProofIs(proof: seq<Entry>)
    ensures StripProof(proof) == if TextKeys(proof) then Ok(Without(proof, ["nonce"])) else Err(BadMapKey)
  {
    if |proof| > 0 {
      var front, last := proof[..|proof| - 1], proof[|proof| - 1];
      StripProofIs(front);
      assert TextKeys(proof) <==> TextKeys(front) && last.key.TextKey?;
      var names: seq<Name> := ["nonce"];
      assert names[0] == NONCE;
      assert HasName(last, NONCE) <==> exists i :: 0 <= i < |names| && last.key == TextKey(Lit(names[i]));
    }
  }

  /** The proof of a record, where there is one, is a map of text keys. */
  ghost predicate Saltable(entries: seq<Entry>) {
    forall e :: e in entries && e.key == TextKey(Lit("powProof")) ==> e.value.Map? && TextKeys(e.value.entries)
  }

  lemma {:induction false} FieldIs(e: Entry)
    requires e.key.TextKey? && e.key != TextKey(Lit("sig"))
    ensures StripField(e)
         == if e.key == TextKey(Lit("powProof")) && !(e.value.Map? && TextKeys(e.value.entries)) then Err(BadMapKey)
            else Ok([WithoutNonce(e)])
  {
    hide StripProof, Without;
    if e.value.Map? {
      StripProofIs(e.value.entries);
    }
  }

  lemma {:induction false} StripIs(kept: seq<Entry>)
    requires TextKeys(kept) && forall e :: e in kept ==> e.key != TextKey(Lit("sig"))
    ensures Strip(kept)
         == if Saltable(kept) then Ok(Cut(kept)) else Err(BadMapKey)
  {
    hide StripField, WithoutNonce;
    if |kept| > 0 {
      var front, last := kept[..|kept| - 1], kept[|kept| - 1];
      assert last in kept && forall e :: e in front ==> e in kept;
      StripIs(front);
      FieldIs(last);
      assert forall e :: e in kept <==> e in front || e == last;
      assert Saltable(kept) <==> Saltable(front) && Saltable([last]);
      assert Saltable([last])
        <==> (last.key == TextKey(Lit("powProof")) ==> last.value.Map? && TextKeys(last.value.entries));
      assert Cut(kept) == Cut(front) + [WithoutNonce(last)];
    }
  }

  lemma {:induction false} SaltFieldsStand(bytes: Octets, entries: seq<Entry>)
    requires Decode(bytes) == Ok(Map(entries))
    ensures Increasing(EntryKey, SaltFields(entries)) && |SaltFields(entries)| < U64_LIMIT
    ensures var s := SaltFields(entries);
            forall i :: 0 <= i < |s| ==> MachineEntry(s[i]) && InOrderEntry(s[i]) && NestsEntry(s[i], 31)
  {
    DecodedEntries(bytes, entries);
    WithoutIncreasing(entries, ["sig", "coSig"]);
    WithoutNoLonger(entries, ["sig", "coSig"]);
    var kept, s := Without(entries, ["sig", "coSig"]), SaltFields(entries);
    hide Without, Wire, MachineEntry, InOrderEntry, NestsEntry, EntryKey, Less, WithoutNonce, Decode;
    forall i | 0 <= i < |s| ensures MachineEntry(s[i]) && InOrderEntry(s[i]) && NestsEntry(s[i], 31) {
      WithoutMembers(entries, ["sig", "coSig"], kept[i]);
      var j :| 0 <= j < |entries| && entries[j] == kept[i];
      CutStands(kept[i]);
    }
    forall i, j | 0 <= i < j < |s| ensures Less(EntryKey(s[i]), EntryKey(s[j])) {
      CutKey(kept[i]);
      CutKey(kept[j]);
    }
  }

  lemma {:induction false} CutKey(e: Entry)
    ensures EntryKey(WithoutNonce(e)) == EntryKey(e)
  {
  }

  /** What stood as decoding leaves it still does without its nonce. */
  lemma {:induction false} CutStands(e: Entry)
    requires MachineEntry(e) && InOrderEntry(e) && NestsEntry(e, 31)
    ensures var cut := WithoutNonce(e);
            MachineEntry(cut) && InOrderEntry(cut) && NestsEntry(cut, 31)
  {
    if e.value.Map? {
      var proof := e.value.entries;
      InOrderIncreasing(proof);
      WithoutIncreasing(proof, ["nonce"]);
      WithoutNoLonger(proof, ["nonce"]);
      var kept := Without(proof, ["nonce"]);
      hide Without, MachineEntry, InOrderEntry, NestsEntry, EntryKey, Less, WireKey;
      forall i | 0 <= i < |kept| ensures MachineEntry(kept[i]) && InOrderEntry(kept[i]) && NestsEntry(kept[i], 30) {
        WithoutMembers(proof, ["nonce"], kept[i]);
        var j :| 0 <= j < |proof| && proof[j] == kept[i];
      }
      assert Machine(Map(kept));
      InOrderIncreasing(kept);
      CutMap(e);
    }
  }

  lemma {:induction false} CutMap(e: Entry)
    requires MachineEntry(e) && InOrderEntry(e) && NestsEntry(e, 31) && e.value.Map?
    requires var cut := Map(Without(e.value.entries, ["nonce"]));
             Machine(cut) && InOrder(cut) && Nests(cut, 31)
    ensures var cut := WithoutNonce(e);
            MachineEntry(cut) && InOrderEntry(cut) && NestsEntry(cut, 31)
  {
    hide Without, Machine, InOrder, Nests;
  }

  lemma {:induction false} StrippedIs(bytes: Octets, entries: seq<Entry>)
    requires Decode(bytes) == Ok(Map(entries)) && TextKeys(entries)
    ensures CoreOf(entries).Ok?
    ensures Strip(CoreOf(entries).value) == if Saltable(entries) then Ok(SaltFields(entries)) else Err(BadMapKey)
    ensures Encode(Map(SaltFields(entries))) == Ok(Wire(Map(SaltFields(entries))))
  {
    CoreIs(entries);
    SaltFieldsStand(bytes, entries);
    KeptFields(entries);
    hide Decode, Encode, Without, Wire, Strip, CoreOf, Saltable, EntryKey, Increasing, MachineEntry, InOrderEntry,
         NestsEntry;
    StripIs(Without(entries, ["sig", "coSig"]));
    PartEncodes(SaltFields(entries));
  }

  /** The salt of a decoded record's core: sixteen octets of the digest of the record without its signatures
      and its nonce; there is none exactly when the proof is not a map of text keys. */
  lemma {:induction false} SaltIs(sha: Cid.Hash, bytes: Octets, entries: seq<Entry>)
    requires Decode(bytes) == Ok(Map(entries)) && TextKeys(entries)
    ensures CoreOf(entries).Ok?
    ensures Salt(sha, CoreOf(entries).value).Ok? <==> Saltable(entries)
    ensures Saltable(entries) ==> Salt(sha, CoreOf(entries).value) == Ok(sha(SaltOctets(entries))[..16])
  {
    StrippedIs(bytes, entries);
    hide Decode, Encode, SaltFields, Wire, Strip, CoreOf, Saltable;
    var prefix := Ascii("vayuweb-pow-v1");
    assert POW_SALT_PREFIX == prefix;
  }

  lemma {:induction false} KeptFields(entries: seq<Entry>)
    requires TextKeys(entries)
    ensures var kept := Without(entries, ["sig", "coSig"]);
            && TextKeys(kept) && (forall e :: e in kept ==> e.key != TextKey(Lit("sig")))
            && (Saltable(kept) <==> Saltable(entries))
  {
    var names: seq<Name> := ["sig", "coSig"];
    var kept := Without(entries, names);
    hide Without;
    LitInjective("powProof", "sig");
    LitInjective("powProof", "coSig");
    forall e ensures e in kept ==> e in entries && e.key != TextKey(Lit("sig"))
             ensures e in entries && e.key == TextKey(Lit("powProof")) ==> e in kept
    {
      WithoutMembers(entries, names, e);
      assert names[0] == "sig" && names[1] == "coSig";
    }
  }
}
