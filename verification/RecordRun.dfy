/** The loops of client/src/record.rs: scanning a predecessor's fields, checking carried entries, mapping
    typed entries, putting the winning nonce into the skeleton, signing. Each is proved against the
    functions of module Record. */
module RecordRun {
  import opened Base
  import opened Ordering
  import opened Utf8
  import opened Cbor
  import opened CborCanonical
  import opened CborEquality
  import opened CborMembers
  import opened Domain
  import opened Pow
  import opened Record
  import CborCodec

  // ----- scanning the predecessor -----

  /** One more entry adds its own field and no other. */
  lemma {:induction false} FieldStep(entries: seq<Entry>, i: nat, name: Name)
    requires Distinct(EntryKey, entries) && i < |entries|
    ensures Get(FieldMap(entries[..i + 1]), name)
         == if HasName(entries[i], name) then Some(entries[i].value) else Get(FieldMap(entries[..i]), name)
  {
    hide EntryKey, FieldMap;
    var before, after := entries[..i], entries[..i + 1];
    assert after == before + [entries[i]];
    PrefixDistinct(entries, i);
    PrefixDistinct(entries, i + 1);
    FieldMapFound(before, Lit(name));
    FieldMapFound(after, Lit(name));
    if HasName(entries[i], name) {
      FieldMapIs(after, entries[i]);
    } else if Lit(name) in FieldMap(before) {
      FieldMapIs(after, Entry(TextKey(Lit(name)), FieldMap(before)[Lit(name)]));
    }
  }

  lemma {:induction false} PrefixDistinct(entries: seq<Entry>, i: nat)
    requires Distinct(EntryKey, entries) && i <= |entries|
    ensures Distinct(EntryKey, entries[..i])
  {
  }

  lemma {:induction false} DecodedDistinct(bytes: Octets, entries: seq<Entry>)
    requires Decode(bytes) == Ok(Map(entries))
    ensures Distinct(EntryKey, entries)
  {
    StrictDecodingIsCanonical(bytes);
    EncodesWellKeyed(Map(entries), 0);
  }

  method ReadPredecessor(blake: Blake, bytes: Octets) returns (r: Result<Predecessor, BuildError>)
    ensures r == FromBytes(blake, bytes)
  {
    hide Decode, FieldMap, EntryKey;
    var decoded := CborCodec.DecodeAll(bytes);
    if decoded.Err? || !decoded.value.Map? {
      return Err(BadPredecessor);
    }
    var fields := decoded.value.entries;
    DecodedDistinct(bytes, fields);
    var seqNo: Option<u64>, notBefore: Option<u64>, notAfter: Option<u64>, op: Option<Str> := None, None, None, None;
    var records: seq<Value> := [];
    NoFields();
    for i := 0 to |fields|
      invariant seqNo == AsNumber(Get(FieldMap(fields[..i]), SEQ))
      invariant notBefore == AsNumber(Get(FieldMap(fields[..i]), NOT_BEFORE))
      invariant notAfter == AsNumber(Get(FieldMap(fields[..i]), NOT_AFTER))
      invariant op == AsText(Get(FieldMap(fields[..i]), OP))
      invariant AsEntries(Get(FieldMap(fields[..i]), RECORDS)) == Some(records)
    {
      var field := fields[i];
      FieldStep(fields, i, SEQ);
      FieldStep(fields, i, NOT_BEFORE);
      FieldStep(fields, i, NOT_AFTER);
      FieldStep(fields, i, OP);
      FieldStep(fields, i, RECORDS);
      FieldNamesDiffer();
      if !field.key.TextKey? {
        continue;
      }
      if field.key.text == Lit(SEQ) {
        seqNo := if field.value.UInt? then Some(field.value.n) else seqNo;
        NothingYet(fields, i, SEQ);
      } else if field.key.text == Lit(NOT_BEFORE) {
        notBefore := if field.value.UInt? then Some(field.value.n) else notBefore;
        NothingYet(fields, i, NOT_BEFORE);
      } else if field.key.text == Lit(NOT_AFTER) {
        notAfter := if field.value.UInt? then Some(field.value.n) else notAfter;
        NothingYet(fields, i, NOT_AFTER);
      } else if field.key.text == Lit(OP) {
        op := if field.value.Text? then Some(field.value.text) else op;
        NothingYet(fields, i, OP);
      } else if field.key.text == Lit(RECORDS) {
        if !field.value.Array? {
          FieldMapIs(fields, field);
          return Err(BadPredecessor);
        }
        records := field.value.items;
      }
    }
    assert fields[..|fields|] == fields;
    if op.None? || seqNo.None? || notBefore.None? || notAfter.None? {
      return Err(BadPredecessor);
    }
    var parsed := ParseOp(op.value);
    if parsed.None? {
      return Err(BadPredecessor);
    }
    r := Ok(Predecessor(seqNo.value, parsed.value, notBefore.value, notAfter.value, RecordHash(blake, bytes),
                        op.value == Lit(OpText(Revoke)), records));
  }

  lemma {:induction false} NoFields()
    ensures forall name: Name :: Get(FieldMap([]), name) == None
  {
  }

  /** Before its one entry a name has no field: there is nothing to keep. */
  lemma {:induction false} NothingYet(fields: seq<Entry>, i: nat, name: Name)
    requires Distinct(EntryKey, fields) && i < |fields| && HasName(fields[i], name)
    ensures Get(FieldMap(fields[..i]), name) == None
  {
    FieldMapFound(fields[..i], Lit(name));
  }

  lemma {:induction false} FieldNamesDiffer()
    ensures Lit(SEQ) != Lit(NOT_BEFORE) && Lit(SEQ) != Lit(NOT_AFTER) && Lit(SEQ) != Lit(OP) && Lit(SEQ) != Lit(RECORDS)
    ensures Lit(NOT_BEFORE) != Lit(NOT_AFTER) && Lit(NOT_BEFORE) != Lit(OP) && Lit(NOT_BEFORE) != Lit(RECORDS)
    ensures Lit(NOT_AFTER) != Lit(OP) && Lit(NOT_AFTER) != Lit(RECORDS) && Lit(OP) != Lit(RECORDS)
  {
    assert |SEQ| == 3 && |NOT_BEFORE| == 9 && |NOT_AFTER| == 8 && |OP| == 2 && |RECORDS| == 7;
  }

  // ----- entries -----

  method KindOf(fields: seq<Entry>) returns (kind: Option<Str>)
    ensures kind == Kind(fields)
  {
    kind := None;
    for i := 0 to |fields|
      invariant kind == Kind(fields[..i])
    {
      assert fields[..i + 1][..i] == fields[..i];
      if fields[i].key.TextKey? && fields[i].key.text == Lit(TYPE) && fields[i].value.Text? {
        kind := Some(fields[i].value.text);
      }
    }
    assert fields[..|fields|] == fields;
  }

  lemma {:induction false} CarriedRefusalStays(list: seq<Value>, i: nat)
    requires i <= |list| && CarriedAliases(list[..i]).Err?
    ensures CarriedAliases(list) == CarriedAliases(list[..i])
    decreases |list|
  {
    if i < |list| {
      assert list[..|list| - 1][..i] == list[..i];
      CarriedRefusalStays(list[..|list| - 1], i);
    } else {
      assert list[..i] == list;
    }
  }

  method CheckCarried(list: seq<Value>) returns (r: Result<Value, BuildError>)
    ensures r == CarriedField(list)
  {
    if |list| > MAX_RECORD_ENTRIES {
      return Err(TooManyEntries(|list|));
    }
    var aliases: nat := 0;
    for i := 0 to |list|
      invariant CarriedAliases(list[..i]) == Ok(aliases)
    {
      assert list[..i + 1][..i] == list[..i];
      if !list[i].Map? {
        CarriedRefusalStays(list, i + 1);
        return Err(BadEntry);
      }
      var kind := KindOf(list[i].entries);
      if kind.None? {
        CarriedRefusalStays(list, i + 1);
        return Err(BadEntry);
      }
      if kind.value == Lit(ALIAS) {
        aliases := aliases + 1;
      }
    }
    assert list[..|list|] == list;
    if aliases > 1 || (aliases == 1 && |list| > 1) {
      return Err(BadEntry);
    }
    r := Ok(Array(list));
  }

  lemma {:induction false} EntryRefusalStays(list: seq<RecordEntry>, i: nat)
    requires i <= |list| && EntryMaps(list[..i]).Err?
    ensures EntryMaps(list) == EntryMaps(list[..i])
    decreases |list|
  {
    if i < |list| {
      assert list[..|list| - 1][..i] == list[..i];
      EntryRefusalStays(list[..|list| - 1], i);
    } else {
      assert list[..i] == list;
    }
  }

  method MapEntries(list: seq<RecordEntry>) returns (r: Result<Value, BuildError>)
    ensures r == EntriesField(list)
  {
    hide EntryMap;
    if |list| > MAX_RECORD_ENTRIES {
      return Err(TooManyEntries(|list|));
    }
    var aliases: nat := 0;
    for i := 0 to |list|
      invariant aliases == AliasCount(list[..i])
    {
      assert list[..i + 1][..i] == list[..i];
      if list[i].value.Alias? {
        aliases := aliases + 1;
      }
    }
    assert list[..|list|] == list;
    if aliases > 1 || (aliases == 1 && |list| > 1) {
      return Err(BadEntry);
    }
    var out: seq<Value> := [];
    for i := 0 to |list|
      invariant EntryMaps(list[..i]) == Ok(out)
    {
      assert list[..i + 1][..i] == list[..i];
      var value := EntryMap(list[i]);
      if value.Err? {
        EntryRefusalStays(list, i + 1);
        return Err(value.error);
      }
      out := out + [value.value];
    }
    r := Ok(Array(out));
  }

  // ----- proof and signatures -----

  /** Put a proof into every field of that name, in place. */
  method PutProof(record: array<Entry>, proof: Value)
    modifies record
    ensures record[..] == WithProof(old(record[..]), proof)
  {
    for i := 0 to record.Length
      invariant record[..i] == WithProof(old(record[..]), proof)[..i]
      invariant record[i..] == old(record[i..])
    {
      assert record[i] == old(record[i]);
      if record[i].key.TextKey? && record[i].key.text == Lit(POW_PROOF) {
        record[i] := Entry(record[i].key, proof);
      }
      assert record[..i + 1] == record[..i] + [record[i]];
    }
  }

  method SignRecord(record: seq<Entry>, signer: Identity, coSigner: Option<Identity>)
    returns (r: Result<Octets, BuildError>)
    ensures r == Sign(record, signer, coSigner)
  {
    hide Encode;
    var core := CborCodec.EncodeWhole(Map(record));
    if core.Err? {
      return Err(EncodeFailed(core.error));
    }
    var input := SigningInput(core.value, LAUNCH_SUITE_BYTE);
    var signature := signer.sign(input);
    if signature.None? {
      return Err(Signing);
    }
    var signed := record + [Member(SIG, Bytes(signature.value))];
    if coSigner.Some? {
      var coSignature := coSigner.value.sign(input);
      if coSignature.None? {
        return Err(Signing);
      }
      signed := signed + [Member(CO_SIG, Bytes(coSignature.value))];
      assert signed == Signed(record, signature.value, coSignature);
    } else {
      assert signed == Signed(record, signature.value, None);
    }
    var bytes := CborCodec.EncodeWhole(Map(signed));
    if bytes.Err? {
      return Err(EncodeFailed(bytes.error));
    }
    r := Ok(bytes.value);
  }

  method FinishPowAndSign(p: Primitives, record: seq<Entry>, bits: u32, signer: Identity, coSigner: Option<Identity>,
                          limit: u64)
    returns (r: Result<Octets, BuildError>)
    ensures r == ProveAndSign(p, record, bits, signer, coSigner, limit)
  {
    hide Solve, Sign, Proof;
    var nonce := SolveNonce(p.sha, p.argon, record, bits, limit);
    if nonce.Err? {
      return Err(SolveRefusal(nonce.error));
    }
    var fields := new Entry[|record|](i requires 0 <= i < |record| => record[i]);
    assert fields[..] == record;
    PutProof(fields, Map(Proof(bits, nonce.value)));
    r := SignRecord(fields[..], signer, coSigner);
  }
}
