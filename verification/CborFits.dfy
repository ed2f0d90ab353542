/** When a value can be written, and how many octets it takes. */
module CborFits {
  import opened Base
  import opened Ordering
  import opened Cbor
  import opened CborComplete
  import opened CborMembers

  /** This value can be written at this depth. */
  predicate Fits(v: Value, depth: nat) {
    EncodeAt(v, depth).Ok?
  }

  // ----- when maps and arrays encode -----

  lemma {:induction false} EntriesEncode(entries: seq<Entry>, depth: nat)
    requires forall e :: e in entries ==> Fits(e.value, depth)
    ensures EncodeEntries(entries, depth).Ok?
  {
    hide EncodeAt;
    if |entries| > 0 {
      EntriesEncode(entries[1..], depth);
      assert Fits(entries[0].value, depth);
    }
  }

  lemma {:induction false} ItemsEncode(items: seq<Value>, depth: nat)
    requires forall v :: v in items ==> Fits(v, depth)
    ensures EncodeItems(items, depth).Ok?
  {
    hide EncodeAt;
    if |items| > 0 {
      ItemsEncode(items[1..], depth);
      assert Fits(items[0], depth);
    }
  }

  lemma {:induction false} MapFits(entries: seq<Entry>, depth: nat)
    requires depth <= MAX_DEPTH && |entries| < U64_LIMIT && Distinct(EntryKey, entries)
    requires forall e :: e in entries ==> Fits(KeyValue(e.key), depth + 1) && Fits(e.value, depth + 1)
    ensures Fits(Map(entries), depth)
  {
    assert EncodeMap(entries, depth).Ok? by {
      hide EncodeAt;
      EncodeKeysEach(entries, depth + 1);
      NeighboursFindDuplicates(EntryKey, entries);
      forall e | e in Sort(EntryKey, entries) ensures Fits(e.value, depth + 1) {
        SortMembers(EntryKey, entries, e);
      }
      EntriesEncode(Sort(EntryKey, entries), depth + 1);
    }
  }

  lemma {:induction false} ArrayFits(items: seq<Value>, depth: nat)
    requires depth <= MAX_DEPTH && |items| < U64_LIMIT && forall v :: v in items ==> Fits(v, depth + 1)
    ensures Fits(Array(items), depth)
  {
    ItemsEncode(items, depth + 1);
  }

  /** Numbers and strings of machine length fit at any depth short of the limit. */
  predicate Scalar(v: Value) {
    v.UInt? || v.Null? || (v.Bytes? && |v.bytes| < U64_LIMIT) || (v.Text? && |v.text| < U64_LIMIT)
  }

  lemma {:induction false} ScalarFits(v: Value, depth: nat)
    requires Scalar(v) && depth <= MAX_DEPTH
    ensures Fits(v, depth)
  {
  }

  lemma {:induction false} MembersFit(names: seq<Name>, values: seq<Value>, depth: nat)
    requires |names| == |values| < U64_LIMIT && Different(names) && depth < MAX_DEPTH
    requires forall i :: 0 <= i < |values| ==> Fits(values[i], depth + 1)
    ensures Fits(Map(Members(names, values)), depth)
  {
    hide Fits, EntryKey;
    var entries := Members(names, values);
    MembersDistinct(names, values);
    forall e | e in entries ensures Fits(KeyValue(e.key), depth + 1) && Fits(e.value, depth + 1) {
      var i :| 0 <= i < |entries| && entries[i] == e;
      ScalarFits(KeyValue(e.key), depth + 1);
    }
    MapFits(entries, depth);
  }

  // ----- how long an encoding is -----

  /** The octets of a shortest head. */
  function HeadLength(argument: nat): nat {
    if argument < 24 then 1 else if argument <= 0xff then 2 else if argument <= 0xffff then 3
    else if argument <= 0xffff_ffff then 5 else 9
  }

  function StringLength(length: nat): nat {
    HeadLength(length) + length
  }

  function KeyLength(k: Key): nat {
    match k
    case TextKey(t) => StringLength(|t|)
    case BytesKey(b) => StringLength(|b|)
  }

  /** The octets a value takes, whatever the order of its maps. */
  function EncodedLength(v: Value): nat
    decreases v
  {
    match v
    case Null => 1
    case UInt(n) => HeadLength(n)
    case Bytes(b) => StringLength(|b|)
    case Text(t) => StringLength(|t|)
    case Array(items) => HeadLength(|items|) + ItemsLength(items)
    case Map(entries) => HeadLength(|entries|) + EntriesLength(entries)
  }

  function ItemsLength(items: seq<Value>): nat
    decreases items
  {
    if |items| == 0 then 0 else EncodedLength(items[0]) + ItemsLength(items[1..])
  }

  function EntryLength(e: Entry): nat
    decreases e, 0
  {
    KeyLength(e.key) + EncodedLength(e.value)
  }

  function EntriesLength(entries: seq<Entry>): nat
    decreases entries
  {
    if |entries| == 0 then 0 else EntryLength(entries[0]) + EntriesLength(entries[1..])
  }

  lemma {:induction false} InsertLength(e: Entry, entries: seq<Entry>)
    ensures EntriesLength(Insert(EntryKey, e, entries)) == EntryLength(e) + EntriesLength(entries)
  {
    hide EntryLength, EntryKey;
    if |entries| > 0 && !Less(EntryKey(e), EntryKey(entries[0])) {
      InsertLength(e, entries[1..]);
      assert ([entries[0]] + Insert(EntryKey, e, entries[1..]))[1..] == Insert(EntryKey, e, entries[1..]);
    } else {
      assert ([e] + entries)[1..] == entries;
    }
  }

  lemma {:induction false} PushLength(entries: seq<Entry>, e: Entry)
    ensures EntriesLength(entries + [e]) == EntriesLength(entries) + EntryLength(e)
  {
    hide EntryLength;
    if |entries| > 0 {
      PushLength(entries[1..], e);
      assert (entries + [e])[1..] == entries[1..] + [e];
    }
  }

  /** Sorting moves octets and adds none. */
  lemma {:induction false} SortLength(entries: seq<Entry>)
    ensures EntriesLength(Sort(EntryKey, entries)) == EntriesLength(entries)
  {
    hide EntryLength, EntryKey;
    if |entries| > 0 {
      var front, last := entries[..|entries| - 1], entries[|entries| - 1];
      SortLength(front);
      InsertLength(last, Sort(EntryKey, front));
      PushLength(front, last);
      assert front + [last] == entries;
    }
  }

  /** What the encoder writes is exactly as long as the value says. */
  lemma {:induction false} EncodesToLength(v: Value, depth: nat)
    requires EncodeAt(v, depth).Ok?
    ensures |EncodeAt(v, depth).value| == EncodedLength(v)
    decreases MAX_DEPTH + 1 - depth, 0, v
  {
    match v
    case Array(items) => ItemsToLength(items, depth + 1);
    case Map(entries) =>
      EntriesToLength(Sort(EntryKey, entries), depth + 1);
      SortLength(entries);
    case _ =>
  }

  lemma {:induction false} ItemsToLength(items: seq<Value>, depth: nat)
    requires EncodeItems(items, depth).Ok?
    ensures |EncodeItems(items, depth).value| == ItemsLength(items)
    decreases MAX_DEPTH + 1 - depth, |items| + 1, items
  {
    hide EncodeAt, EncodedLength;
    if |items| > 0 {
      EncodesToLength(items[0], depth);
      ItemsToLength(items[1..], depth);
    }
  }

  lemma {:induction false} EntriesToLength(entries: seq<Entry>, depth: nat)
    requires EncodeEntries(entries, depth).Ok?
    ensures |EncodeEntries(entries, depth).value| == EntriesLength(entries)
    decreases MAX_DEPTH + 1 - depth, |entries| + 1, entries
  {
    hide EncodeAt, EncodedLength;
    if |entries| > 0 {
      EncodesToLength(entries[0].value, depth);
      EntriesToLength(entries[1..], depth);
    }
  }

  /** A list of members takes the octets of its names and values. */
  function MembersLength(names: seq<Name>, values: seq<Value>): nat
    requires |names| == |values|
  {
    if |names| == 0 then 0
    else
      var n := |names| - 1;
      MembersLength(names[..n], values[..n]) + StringLength(|names[n]|) + EncodedLength(values[n])
  }

  lemma {:induction false} MembersAreLong(names: seq<Name>, values: seq<Value>)
    requires |names| == |values|
    ensures EntriesLength(Members(names, values)) == MembersLength(names, values)
  {
    hide EncodedLength, StringLength;
    if |names| > 0 {
      var n := |names| - 1;
      MembersAreLong(names[..n], values[..n]);
      PushLength(Members(names[..n], values[..n]), Member(names[n], values[n]));
      assert Members(names[..n], values[..n]) + [Member(names[n], values[n])] == Members(names, values);
    }
  }

  /** The last member, peeled off. */
  lemma {:induction false} MembersLengthStep(names: seq<Name>, values: seq<Value>, name: Name, value: Value)
    requires |names| == |values|
    ensures MembersLength(names + [name], values + [value])
         == MembersLength(names, values) + StringLength(|name|) + EncodedLength(value)
  {
    hide EncodedLength, StringLength;
    assert (names + [name])[..|names|] == names && (values + [value])[..|values|] == values;
  }
}
