/** A name can always be carried on: what the typed entries check lets through, the carried entries check
    lets through as well, so along every chain a renewal inside its window is refused only for the name,
    the search or the signer. */
module Renewal {
  import opened Base
  import opened Ordering
  import opened Utf8
  import opened Cbor
  import opened CborEquality
  import opened CborMembers
  import opened Domain
  import opened Pow
  import opened Record
  import opened RecordRun
  import opened RecordFacts
  import opened Chain
  import opened Encodable

  /** With distinct keys the scan for the type finds the field of that name. */
  lemma {:induction false} KindIs(fields: seq<Entry>)
    requires Distinct(EntryKey, fields)
    ensures Kind(fields) == AsText(Get(FieldMap(fields), TYPE))
  {
    hide EntryKey, FieldMap;
    if |fields| == 0 {
      NoFields();
    } else {
      var n := |fields| - 1;
      PrefixDistinct(fields, n);
      KindIs(fields[..n]);
      FieldStep(fields, n, TYPE);
      assert fields[..n + 1] == fields;
      if HasName(fields[n], TYPE) {
        NothingYet(fields, n, TYPE);
      }
    }
  }

  lemma {:induction false} KindsDiffer()
    ensures Lit("peer") != Lit(ALIAS) && Lit("ipns") != Lit(ALIAS) && Lit("cid") != Lit(ALIAS)
            && Lit("txt") != Lit(ALIAS)
  {
    assert |Lit(ALIAS)| == 5 && |Lit("peer")| == 4 && |Lit("ipns")| == 4 && |Lit("cid")| == 3 && |Lit("txt")| == 3;
  }

  /** What the wire gives back of a typed entry. */
  lemma {:induction false} EntryFields(e: RecordEntry)
    requires EntryMap(e).Ok?
    ensures Canon(EntryMap(e).value).Map?
    ensures var fields := FieldMap(Canon(EntryMap(e).value).entries);
            var (kind, value) := TypedValue(e.value).value;
            && TypedValue(e.value).Ok?
            && Get(fields, TYPE) == Some(Text(Lit(kind))) && Get(fields, VALUE) == Some(value)
            && Get(fields, TTL) == Some(UInt(if e.ttl.Some? then e.ttl.value else DEFAULT_TTL))
  {
    hide CharCount, FieldMap, EntryKey, Sort;
    EntryNamesDiffer();
    var (kind, value) := TypedValue(e.value).value;
    var ttl := if e.ttl.Some? then e.ttl.value else DEFAULT_TTL;
    var names, values := [TYPE, VALUE, TTL], [Text(Lit(kind)), value, UInt(ttl)];
    var entries := Members(names, values);
    MembersDistinct(names, values);
    MembersFields(names, values);
    assert Get(FieldMap(entries), names[0]) == Some(values[0]) && Get(FieldMap(entries), names[1]) == Some(values[1]);
    assert Get(FieldMap(entries), names[2]) == Some(values[2]);
    FieldMapCanon(entries);
  }

  /** A typed entry, as the wire gives it back, names its type; only an alias is called one. */
  lemma {:induction false} EntryNamesKind(e: RecordEntry)
    requires EntryMap(e).Ok?
    ensures Canon(EntryMap(e).value).Map?
    ensures var kind := Kind(Canon(EntryMap(e).value).entries);
            kind.Some? && (kind.value == Lit(ALIAS) <==> e.value.Alias?)
  {
    hide CharCount, Kind, FieldMap, EntryKey, Sort;
    EntryFields(e);
    EntryNamesDiffer();
    var (kind, value) := TypedValue(e.value).value;
    var ttl := if e.ttl.Some? then e.ttl.value else DEFAULT_TTL;
    var names, values := [TYPE, VALUE, TTL], [Text(Lit(kind)), value, UInt(ttl)];
    MembersDistinct(names, values);
    DistinctSorted(Members(names, values));
    KindIs(Sorted(Members(names, values)));
    KindsDiffer();
  }

  lemma {:induction false} DistinctSorted(entries: seq<Entry>)
    requires Distinct(EntryKey, entries)
    ensures Distinct(EntryKey, Sorted(entries))
  {
    hide EntryKey;
    CanonDistinct(entries);
    SortPermutes(EntryKey, CanonEntries(entries));
    DistinctPermuted(EntryKey, CanonEntries(entries), Sorted(entries));
  }

  lemma {:induction false} CarriedStep(items: seq<Value>, last: Value)
    requires last.Map? && Kind(last.entries).Some? && CarriedAliases(items).Ok?
    ensures CarriedAliases(items + [last])
         == Ok(CarriedAliases(items).value + if Kind(last.entries).value == Lit(ALIAS) then 1 else 0)
  {
    hide Kind;
    assert (items + [last])[..|items|] == items;
  }

  lemma {:induction false} CanonItemsStep(items: seq<Value>, last: Value)
    ensures CanonItems(items + [last]) == CanonItems(items) + [Canon(last)]
  {
    hide Canon;
  }

  lemma {:induction false} AliasesCarried(list: seq<RecordEntry>)
    requires EntryMaps(list).Ok?
    ensures |EntryMaps(list).value| == |list|
    ensures CarriedAliases(CanonItems(EntryMaps(list).value)) == Ok(AliasCount(list))
  {
    hide EntryMap, Kind, Canon, CanonItems, CarriedAliases;
    if |list| == 0 {
      NothingCarries();
    } else {
      var front, last := list[..|list| - 1], list[|list| - 1];
      AliasesCarried(front);
      EntryNamesKind(last);
      var items, value := EntryMaps(front).value, EntryMap(last).value;
      CanonItemsStep(items, value);
      CarriedStep(CanonItems(items), Canon(value));
    }
  }

  /** What a registration or an update may carry, every later renewal or transfer may repeat. */
  lemma {:induction false} TypedEntriesCarry(list: seq<RecordEntry>)
    requires EntriesField(list).Ok?
    ensures EntriesField(list).value.Array?
    ensures var carried := CanonItems(EntriesField(list).value.items);
            CarriedField(carried) == Ok(Array(carried))
  {
    hide EntryMaps, CarriedAliases;
    AliasesCarried(list);
  }

  lemma {:induction false} NothingCarries()
    ensures CarriedField([]) == Ok(Array([])) && CarriedAliases([]) == Ok(0) && CanonItems([]) == []
  {
  }

  lemma {:induction false} CarriedIs(list: seq<Value>)
    requires CarriedField(list).Ok?
    ensures CarriedField(list) == Ok(Array(list))
  {
    hide CarriedAliases;
  }

  /** The entries of every record of every chain pass the carried entries check. */
  lemma {:induction false} ChainCarries(p: Primitives, steps: seq<Step>, records: seq<Octets>, i: nat)
    requires IsChain(p, steps, records) && i < |records|
    ensures FromBytes(p.blake, records[i]).Ok?
    ensures CarriedField(FromBytes(p.blake, records[i]).value.entries).Ok?
  {
    hide First, Next, FromBytes, Emitted, FieldIn, CarriedField, EntriesField, CanonItems;
    var s := steps[i];
    if i == 0 {
      var d := FirstCarries(p, s, records[0]);
      TypedEntriesCarry(s.entries);
      RecordEntries(p, d, s, records[i]);
    } else {
      assert Follows(p, records[i - 1], s, records[i]);
      var prev := FromBytes(p.blake, records[i - 1]).value;
      var d := NextCarries(p, prev, s, records[i]);
      RecordEntries(p, d, s, records[i]);
      if s.ToUpdate? {
        TypedEntriesCarry(s.entries);
      } else if s.ToRelinquish? || s.ToRevoke? {
        NothingCarries();
      } else {
        RepeatedPass(p, prev, s);
        PredecessorCanonical(p.blake, records[i - 1]);
      }
    }
  }

  lemma {:induction false} RecordEntries(p: Primitives, d: Draft, s: Step, bytes: Octets)
    requires Chain.Carried(p, d, s, bytes) && d.records.Array?
    ensures FromBytes(p.blake, bytes).value.entries == CanonItems(d.records.items)
  {
    hide FromBytes, FieldIn, Emitted;
    PredecessorEntries(p.blake, bytes);
  }

  lemma {:induction false} RepeatedPass(p: Primitives, prev: Predecessor, s: Step)
    requires s.ToRenew? || s.ToTransfer?
    requires Next(p, prev, s).Ok?
    ensures CarriedField(prev.entries).Ok?
  {
    hide ProveAndSign, Sign, CarriedField, Preamble, RenewalCheck;
  }

  /** Entries read from decoded bytes are in canonical form. */
  lemma {:induction false} PredecessorCanonical(blake: Blake, bytes: Octets)
    requires FromBytes(blake, bytes).Ok?
    ensures CanonItems(FromBytes(blake, bytes).value.entries) == FromBytes(blake, bytes).value.entries
  {
    hide FieldIn;
    PredecessorEntries(blake, bytes);
    hide FromBytes;
    var entries := FromBytes(blake, bytes).value.entries;
    if FieldIn(bytes, RECORDS).Some? {
      DecodedField(bytes, RECORDS);
      assert Canon(Array(entries)) == Array(entries);
    } else {
      NothingCarries();
    }
  }

  /** Along every chain: once the clock allows it, a renewal succeeds or is refused for the name, for an
      exhausted search or by the signer; never for what the name carries. */
  lemma {:induction false} RenewalRefusals(p: Primitives, steps: seq<Step>, records: seq<Octets>, i: nat, s: Step)
    requires IsChain(p, steps, records) && i < |records|
    requires s.ToRenew? && StepInMemory(s)
    requires FromBytes(p.blake, records[i]).Ok?
    requires RenewalCheck(FromBytes(p.blake, records[i]).value, s.now).Pass?
    ensures var r := Next(p, FromBytes(p.blake, records[i]).value, s);
            r.Ok? || r.error.InvalidName? || r.error.PowExhausted? || r.error.Signing?
  {
    ChainSane(p, steps, records, i);
    ChainSpacing(p, steps, records, i);
    ChainCarries(p, steps, records, i);
    NextEncodes(p, records[i], s);
    var prev := FromBytes(p.blake, records[i]).value;
    hide FromBytes, IsChain, RenewalCheck, CarriedField, Skeleton, Proof, Sane;
    CarriedIs(prev.entries);
    RenewalFits(prev, s.now);
    RenewalProves(p, prev, s);
  }

  lemma {:induction false} RenewalProves(p: Primitives, prev: Predecessor, s: Step)
    requires s.ToRenew? && RenewalCheck(prev, s.now).Pass? && CarriedField(prev.entries) == Ok(Array(prev.entries))
    requires prev.seqNo + 1 < U64_LIMIT
    ensures var r := Next(p, prev, s);
            r.Ok? || r.error.InvalidName? || r.error.PowExhausted? || r.error.Signing? || EncodingRefusal(r)
  {
    hide RenewalCheck, CarriedField, Skeleton, Proof, CharCount, Solve, Encode, WithProof;
    RenewalFits(prev, s.now);
  }
}
