/** Strict decoding is canonical: whatever the decoder accepts, the encoder reproduces. */
module CborCanonical {
  import opened Base
  import opened Ordering
  import opened Cbor

  /** An accepted head is the one the encoder writes. */
  lemma {:induction false} ReadArgumentCanonical(major: byte, additional: byte, b: Octets)
    requires major < 8 && additional < 32
    requires ReadArgument(b, additional).Ok?
    ensures var head := ReadArgument(b, additional).value;
            [major * 32 + additional] + b == Head(major, head.argument) + head.rest
  {
    if additional > 23 {
      var width := if additional == 24 then 1 else if additional == 25 then 2 else if additional == 26 then 4 else 8;
      Pow256Values(width);
      FromBigEndianBound(b[..width]);
      FromBigEndianInverse(b[..width]);
      assert b == b[..width] + b[width..];
      if width == 1 {
        assert FromBigEndian(b[..1]) == b[0] by {
          assert b[..1][..0] == [];
          assert FromBigEndian([]) == 0;
        }
      }
    }
  }

  /** The decoder read `enc` off the front of `b` and stopped at `rest`. */
  ghost predicate Reads(b: Octets, enc: Result<Octets, CborError>, rest: Octets) {
    enc.Ok? && b == enc.value + rest
  }

  lemma {:induction false} DecodeCanonical(b: Octets, depth: nat)
    requires DecodeAt(b, depth).Ok?
    ensures var p := DecodeAt(b, depth).value; Reads(b, EncodeAt(p.value, depth), p.rest)
    decreases MAX_DEPTH + 1 - depth, 0, 0
  {
    DecodeBodyCanonical(b[0] / 32, b[0] % 32, b[1..], depth);
    assert b == [b[0]] + b[1..];
  }

  lemma {:induction false} DecodeBodyCanonical(major: byte, additional: byte, b: Octets, depth: nat)
    requires major < 8 && additional < 32 && depth <= MAX_DEPTH
    requires DecodeBody(major, additional, b, depth).Ok?
    ensures var p := DecodeBody(major, additional, b, depth).value;
            Reads([major * 32 + additional] + b, EncodeAt(p.value, depth), p.rest)
    decreases MAX_DEPTH - depth, 1, 0
  {
    if major != MAJOR_SIMPLE {
      var head := ReadArgument(b, additional).value;
      ReadArgumentCanonical(major, additional, b);
      if major == MAJOR_ARRAY {
        DecodeArrayCanonical(head.rest, head.argument, depth);
      } else if major == MAJOR_MAP {
        DecodeMapCanonical(head.rest, head.argument, depth);
      }
    }
  }

  lemma {:induction false} DecodeArrayCanonical(b: Octets, count: nat, depth: nat)
    requires depth <= MAX_DEPTH && count < U64_LIMIT
    requires DecodeArray(b, count, depth).Ok?
    ensures var p := DecodeArray(b, count, depth).value;
            p.value.Array? && Reads(Head(MAJOR_ARRAY, count) + b, EncodeArray(p.value.items, depth), p.rest)
    decreases MAX_DEPTH - depth, 0, count + 3
  {
    DecodeItemsCanonical(b, count, depth + 1);
  }

  lemma {:induction false} DecodeItemsCanonical(b: Octets, count: nat, depth: nat)
    requires DecodeItems(b, count, depth).Ok?
    ensures var p := DecodeItems(b, count, depth).value; Reads(b, EncodeItems(p.value, depth), p.rest)
    decreases MAX_DEPTH + 1 - depth, 0, count + 1
  {
    hide DecodeAt, EncodeAt;
    if count > 0 {
      DecodeCanonical(b, depth);
      var first := DecodeAt(b, depth).value;
      DecodeItemsCanonical(first.rest, count - 1, depth);
      var others := DecodeItems(first.rest, count - 1, depth).value;
      PrependItem(first.value, others.value, depth);
    }
  }

  lemma {:induction false} PrependItem(first: Value, others: seq<Value>, depth: nat)
    requires EncodeAt(first, depth).Ok? && EncodeItems(others, depth).Ok?
    ensures EncodeItems([first] + others, depth)
         == Ok(EncodeAt(first, depth).value + EncodeItems(others, depth).value)
  {
    assert ([first] + others)[1..] == others;
  }

  lemma {:induction false} DecodeMapCanonical(b: Octets, count: nat, depth: nat)
    requires depth <= MAX_DEPTH && count < U64_LIMIT
    requires DecodeMap(b, count, depth).Ok?
    ensures var p := DecodeMap(b, count, depth).value;
            p.value.Map? && Reads(Head(MAJOR_MAP, count) + b, EncodeMap(p.value.entries, depth), p.rest)
    decreases MAX_DEPTH - depth, 0, count + 3
  {
    DecodeEntriesCanonical(b, count, depth + 1, None);
    var entries := DecodeEntries(b, count, depth + 1, None).value.value;
    EncodeOrderedMap(entries, depth);
  }

  /** Entries in strictly increasing key order are written as they stand. */
  lemma {:induction false} EncodeOrderedMap(entries: seq<Entry>, depth: nat)
    requires depth <= MAX_DEPTH && |entries| < U64_LIMIT
    requires EncodeKeys(entries, depth + 1).Ok? && EncodeEntries(entries, depth + 1).Ok?
    requires Increasing(EntryKey, entries)
    ensures EncodeMap(entries, depth)
         == Ok(Head(MAJOR_MAP, |entries|) + EncodeEntries(entries, depth + 1).value)
  {
    SortIdentity(EntryKey, entries);
    IncreasingDistinct(EntryKey, entries);
    NeighboursFindDuplicates(EntryKey, entries);
  }

  lemma {:induction false} DecodeKeyCanonical(b: Octets, depth: nat, previous: Option<Octets>)
    requires DecodeKey(b, depth, previous).Ok?
    ensures var p := DecodeKey(b, depth, previous).value;
            && Reads(b, EncodeAt(KeyValue(p.value), depth), p.rest)
            && KeyBytes(p.value) == Taken(b, p.rest)
            && (previous.Some? ==> Less(previous.value, KeyBytes(p.value)))
    decreases MAX_DEPTH + 1 - depth, 0, 1
  {
    DecodeCanonical(b, depth);
  }

  /** Accepted map entries re-encode to their octets and arrive in strictly increasing key order. */
  ghost predicate EntriesRead(b: Octets, entries: seq<Entry>, rest: Octets, depth: nat, previous: Option<Octets>)
  {
    && EncodeKeys(entries, depth).Ok?
    && Reads(b, EncodeEntries(entries, depth), rest)
    && Increasing(EntryKey, entries)
    && (previous.Some? ==> forall e :: e in entries ==> Less(previous.value, EntryKey(e)))
  }

  lemma {:induction false} DecodeEntriesCanonical(b: Octets, count: nat, depth: nat, previous: Option<Octets>)
    requires DecodeEntries(b, count, depth, previous).Ok?
    ensures var p := DecodeEntries(b, count, depth, previous).value;
            EntriesRead(b, p.value, p.rest, depth, previous)
    decreases MAX_DEPTH + 1 - depth, 0, count + 2
  {
    if count > 0 {
      DecodeKeyCanonical(b, depth, previous);
      var key := DecodeKey(b, depth, previous).value;
      DecodeCanonical(key.rest, depth);
      var value := DecodeAt(key.rest, depth).value;
      var taken := Some(Taken(b, key.rest));
      DecodeEntriesCanonical(value.rest, count - 1, depth, taken);
      var others := DecodeEntries(value.rest, count - 1, depth, taken).value;
      PrependRead(b, key.rest, value.rest, others.rest, Entry(key.value, value.value), others.value, depth, previous);
    }
  }

  lemma {:induction false} PrependRead(b: Octets, afterKey: Octets, afterValue: Octets, rest: Octets,
                    first: Entry, others: seq<Entry>, depth: nat, previous: Option<Octets>)
    requires Reads(b, EncodeAt(KeyValue(first.key), depth), afterKey)
    requires |afterKey| <= |b| && EntryKey(first) == Taken(b, afterKey)
    requires Reads(afterKey, EncodeAt(first.value, depth), afterValue)
    requires EntriesRead(afterValue, others, rest, depth, Some(EntryKey(first)))
    requires previous.Some? ==> Less(previous.value, EntryKey(first))
    ensures EntriesRead(b, [first] + others, rest, depth, previous)
  {
    hide Less, Increasing, EntryKey, EncodeAt;
    PrependEncoded(first, others, depth);
    PrependIncreasing(first, others, previous);
  }

  lemma {:induction false} PrependEncoded(first: Entry, others: seq<Entry>, depth: nat)
    requires EncodeAt(KeyValue(first.key), depth).Ok? && EncodeKeys(others, depth).Ok?
    requires EncodeAt(first.value, depth).Ok? && EncodeEntries(others, depth).Ok?
    ensures EncodeEntries([first] + others, depth)
         == Ok(EntryKey(first) + EncodeAt(first.value, depth).value + EncodeEntries(others, depth).value)
    ensures EncodeKeys([first] + others, depth).Ok?
  {
    assert ([first] + others)[1..] == others;
  }

  lemma {:induction false} PrependIncreasing(first: Entry, others: seq<Entry>, previous: Option<Octets>)
    requires Increasing(EntryKey, others)
    requires forall e :: e in others ==> Less(EntryKey(first), EntryKey(e))
    requires previous.Some? ==> Less(previous.value, EntryKey(first))
    ensures Increasing(EntryKey, [first] + others)
    ensures previous.Some? ==> forall e :: e in [first] + others ==> Less(previous.value, EntryKey(e))
  {
    forall e | e in others && previous.Some? ensures Less(previous.value, EntryKey(e)) {
      LessTransitive(previous.value, EntryKey(first), EntryKey(e));
    }
  }

  /** Every accepted byte string is exactly the encoding of the value it decodes to. */
  lemma {:induction false} StrictDecodingIsCanonical(b: Octets)
    requires Decode(b).Ok?
    ensures Encode(Decode(b).value) == Ok(b)
  {
    DecodeCanonical(b, 0);
    assert b == EncodeAt(Decode(b).value, 0).value;
  }

  /** Being deterministic and being accepted are the same thing. */
  lemma {:induction false} DeterministicIffDecodes(b: Octets)
    ensures IsDeterministic(b) <==> Decode(b).Ok?
  {
    if Decode(b).Ok? {
      StrictDecodingIsCanonical(b);
    }
  }
}
