/** Domain separation, record hashing and the signing input (client/src/domain.rs). */
module Domain {
  import opened Arith
  import opened Base
  import opened Ordering
  import opened Cbor
  import opened CborEquality
  import opened CborMembers
  import opened Utf8

  /** "VayuWeb-Registry-Record-v1" and "VayuWeb-Registry-Hash-v1". */
  const RECORD_SIGNING_PREFIX: Octets := Ascii("VayuWeb-Registry-Record-v1")
  const RECORD_HASH_PREFIX: Octets := Ascii("VayuWeb-Registry-Hash-v1")
  const RECORD_HASH_LENGTH: nat := 32

  type Digest32 = d: Octets | |d| == RECORD_HASH_LENGTH witness seq(RECORD_HASH_LENGTH, _ => 0)

  /** BLAKE2b-256, left uninterpreted. */
  type Blake = Octets -> Digest32

  const SIG: Name := "sig"
  const CO_SIG: Name := "coSig"

  function WithDomain(prefix: Octets, body: Octets, extra: Octets): Octets {
    prefix + [0] + extra + body
  }

  function SigningInput(core: Octets, suite: byte): Octets {
    WithDomain(RECORD_SIGNING_PREFIX, core, [suite])
  }

  function RecordHash(blake: Blake, record: Octets): Digest32 {
    blake(WithDomain(RECORD_HASH_PREFIX, record, []))
  }

  predicate IsSignature(e: Entry) {
    e.key == TextKey(Lit(SIG)) || e.key == TextKey(Lit(CO_SIG))
  }

  /** The record map without its signature fields; keys must be text. */
  function CoreOf(record: seq<Entry>): Result<seq<Entry>, CborError>
  {
    if |record| == 0 then Ok([])
    else
      var core :- CoreOf(record[..|record| - 1]);
      var last := record[|record| - 1];
      if last.key.BytesKey? then Err(BadMapKey)
      else if IsSignature(last) then Ok(core)
      else Ok(core + [last])
  }

  function EncodeCore(record: seq<Entry>): Result<Octets, CborError> {
    var core :- CoreOf(record);
    Encode(Map(core))
  }

  lemma {:induction false} CoreStep(record: seq<Entry>, i: nat)
    requires i < |record|
    ensures CoreOf(record[..i + 1]) == match CoreOf(record[..i])
                                       case Err(e) => Err(e)
                                       case Ok(core) =>
                                         if record[i].key.BytesKey? then Err(BadMapKey)
                                         else if IsSignature(record[i]) then Ok(core)
                                         else Ok(core + [record[i]])
  {
    assert record[..i + 1][..i] == record[..i];
  }

  lemma {:induction false} CoreRefusalStays(record: seq<Entry>, i: nat)
    requires i <= |record| && CoreOf(record[..i]).Err?
    ensures CoreOf(record) == CoreOf(record[..i])
    decreases |record|
  {
    if i < |record| {
      assert record[..|record| - 1][..i] == record[..i];
      CoreRefusalStays(record[..|record| - 1], i);
    } else {
      assert record[..i] == record;
    }
  }

  method StripSignatures(record: seq<Entry>) returns (r: Result<seq<Entry>, CborError>)
    ensures r == CoreOf(record)
  {
    var core: seq<Entry> := [];
    for i := 0 to |record|
      invariant CoreOf(record[..i]) == Ok(core)
    {
      CoreStep(record, i);
      if record[i].key.BytesKey? {
        CoreRefusalStays(record, i + 1);
        return Err(BadMapKey);
      }
      if record[i].key.text != Lit(SIG) && record[i].key.text != Lit(CO_SIG) {
        core := core + [record[i]];
      }
    }
    assert record[..|record|] == record;
    r := Ok(core);
  }

  /** Equality without an early exit. */
  method BytesEqual(a: Octets, b: Octets) returns (equal: bool)
    ensures equal <==> a == b
  {
    if |a| != |b| {
      return false;
    }
    var diff: nat := 0;
    for i := 0 to |a|
      invariant diff == 0 <==> a[..i] == b[..i]
    {
      OctetsDiffer(a[i], b[i], diff);
      assert a[..i + 1] == a[..i] + [a[i]];
      assert b[..i + 1] == b[..i] + [b[i]];
      diff := BitOr(diff, BitXor(a[i], b[i]));
    }
    assert a[..|a|] == a && b[..|b|] == b;
    equal := diff == 0;
  }

  // ----- what the core keeps -----

  ghost predicate TextKeys(record: seq<Entry>) {
    forall i :: 0 <= i < |record| ==> record[i].key.TextKey?
  }

  lemma {:induction false} CoreMembers(record: seq<Entry>)
    requires TextKeys(record)
    ensures CoreOf(record).Ok?
    ensures forall e :: e in CoreOf(record).value <==> e in record && !IsSignature(e)
  {
    if |record| > 0 {
      var front, last := record[..|record| - 1], record[|record| - 1];
      CoreMembers(front);
      assert forall e :: e in record <==> e in front || e == last;
    }
  }

  lemma {:induction false} CoreIncreasing(record: seq<Entry>)
    requires TextKeys(record) && Increasing(EntryKey, record)
    ensures CoreOf(record).Ok? && Increasing(EntryKey, CoreOf(record).value)
  {
    if |record| > 0 {
      var front, last := record[..|record| - 1], record[|record| - 1];
      CoreIncreasing(front);
      CoreMembers(front);
      hide Less, EntryKey;
      var core := CoreOf(front).value;
      forall i | 0 <= i < |core| ensures Less(EntryKey(core[i]), EntryKey(last)) {
        assert core[i] in core;
        var j :| 0 <= j < |front| && front[j] == core[i];
        assert record[j] == core[i] && record[|record| - 1] == last;
      }
    }
  }

  /** `signed` is the record with signature fields added. */
  ghost predicate Signs(record: seq<Entry>, signed: seq<Entry>) {
    && TextKeys(record) && TextKeys(signed)
    && forall e :: e in record <==> e in signed && !IsSignature(e)
  }

  lemma {:induction false} SortedMembers(entries: seq<Entry>, e: Entry)
    ensures e in Sorted(entries) <==> exists f :: f in entries && e == CanonEntry(f)
  {
    SortMembers(EntryKey, CanonEntries(entries), e);
    if e in CanonEntries(entries) {
      var i :| 0 <= i < |entries| && CanonEntries(entries)[i] == e;
      assert entries[i] in entries;
    }
    if f :| f in entries && e == CanonEntry(f) {
      var i :| 0 <= i < |entries| && entries[i] == f;
      assert CanonEntries(entries)[i] == e;
    }
  }

  lemma {:induction false} SortedTextKeys(entries: seq<Entry>)
    requires TextKeys(entries)
    ensures TextKeys(Sorted(entries))
  {
    var s := Sorted(entries);
    forall i | 0 <= i < |s| ensures s[i].key.TextKey? {
      SortedMembers(entries, s[i]);
      var f :| f in entries && s[i] == CanonEntry(f);
    }
  }

  lemma {:induction false} SortedIncreasing(entries: seq<Entry>)
    requires Encode(Map(entries)).Ok?
    ensures Increasing(EntryKey, Sorted(entries))
  {
    EncodesWellKeyed(Map(entries), 0);
    CanonDistinct(entries);
    SortIncreasing(EntryKey, CanonEntries(entries));
  }

  /** Stripping the signatures off the decoded record gives back the very octets that were signed. */
  lemma {:induction false} CoreSurvives(record: seq<Entry>, signed: seq<Entry>)
    requires Signs(record, signed)
    requires Encode(Map(record)).Ok? && Encode(Map(signed)).Ok?
    ensures CoreOf(Sorted(signed)) == Ok(Sorted(record))
    ensures EncodeCore(Sorted(signed)) == Encode(Map(record))
  {
    hide Encode, Sorted;
    SortedTextKeys(signed);
    SortedIncreasing(signed);
    SortedIncreasing(record);
    CoreMembers(Sorted(signed));
    CoreIncreasing(Sorted(signed));
    var core := CoreOf(Sorted(signed)).value;
    forall e ensures e in core <==> e in Sorted(record) {
      SortedMembers(signed, e);
      SortedMembers(record, e);
      assert forall f :: IsSignature(CanonEntry(f)) <==> IsSignature(f);
    }
    IncreasingUnique(EntryKey, core, Sorted(record));
    SortedEncodesAlike(record);
  }

  lemma {:induction false} SortedEncodesAlike(record: seq<Entry>)
    requires Encode(Map(record)).Ok?
    ensures Encode(Map(Sorted(record))) == Encode(Map(record))
  {
    CanonEncodesAlike(Map(record));
  }

  // ----- separation -----

  /** What is signed determines the core, and no signing input is ever a hashing input. */
  lemma {:induction false} DomainsSeparate(core: Octets, other: Octets, suite: byte)
    ensures SigningInput(core, suite) == SigningInput(other, suite) ==> core == other
    ensures SigningInput(core, suite) != WithDomain(RECORD_HASH_PREFIX, other, [])
    ensures |RECORD_SIGNING_PREFIX| == 26 && |RECORD_HASH_PREFIX| == 24
  {
    assert SigningInput(core, suite)[28..] == core;
    assert SigningInput(other, suite)[28..] == other;
    assert SigningInput(core, suite)[17] == 'R' as int;
    assert WithDomain(RECORD_HASH_PREFIX, other, [])[17] == 'H' as int;
  }
}
