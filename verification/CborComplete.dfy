/** The decoder accepts everything the encoder emits, whatever octets follow, and returns the
    canonical form of the value. */
module CborComplete {
  import opened Base
  import opened Ordering
  import opened Utf8
  import opened Cbor

  /** The decoder stops exactly where the encoding of `v` ends. */
  ghost predicate ReadsBack(v: Value, depth: nat, rest: Octets)
  {
    EncodeAt(v, depth).Ok? ==> DecodeAt(EncodeAt(v, depth).value + rest, depth) == Ok(Parsed(Canon(v), rest))
  }

  lemma {:induction false} ReadWideBack(n: nat, width: nat, shorter: nat, rest: Octets)
    requires width <= 8 && shorter < n < Pow256(width)
    ensures n < U64_LIMIT && ReadWide(BigEndian(n, width) + rest, width, shorter) == Ok(Argument(n, rest))
  {
    Pow256Values(width);
    BigEndianInverse(n, width);
    assert (BigEndian(n, width) + rest)[..width] == BigEndian(n, width);
    assert (BigEndian(n, width) + rest)[width..] == rest;
  }

  lemma {:induction false} ReadArgumentBack(major: byte, n: u64, rest: Octets)
    requires major < 8
    ensures var head := Head(major, n);
            head[0] / 32 == major && ReadArgument(head[1..] + rest, head[0] % 32) == Ok(Argument(n, rest))
  {
    Pow256Values(8);
    var head := Head(major, n);
    if n < 24 {
      assert head[1..] + rest == rest;
    } else if n <= 0xff {
      assert BigEndian(n, 1) == [n] by {
        assert BigEndian(n / 256, 0) == [];
      }
      assert head[1..] == BigEndian(n, 1);
      ReadWideBack(n, 1, 23, rest);
    } else if n <= 0xffff {
      assert head[1..] == BigEndian(n, 2);
      ReadWideBack(n, 2, 0xff, rest);
    } else if n <= 0xffff_ffff {
      assert head[1..] == BigEndian(n, 4);
      ReadWideBack(n, 4, 0xffff, rest);
    } else {
      assert head[1..] == BigEndian(n, 8);
      ReadWideBack(n, 8, 0xffff_ffff, rest);
    }
  }

  /** What the decoder does once it has read an argument of one of the five sized major types. */
  function AfterArgument(major: byte, n: u64, rest: Octets, depth: nat): Read<Value>
    requires depth <= MAX_DEPTH
  {
    if major == MAJOR_UINT then Ok(Parsed(UInt(n), rest))
    else if major == MAJOR_BSTR then DecodeBytes(rest, n)
    else if major == MAJOR_TSTR then DecodeText(rest, n)
    else if major == MAJOR_ARRAY then DecodeArray(rest, n, depth)
    else DecodeMap(rest, n, depth)
  }

  predicate Sized(major: byte) {
    major == MAJOR_UINT || major == MAJOR_BSTR || major == MAJOR_TSTR || major == MAJOR_ARRAY || major == MAJOR_MAP
  }

  lemma {:induction false} DecodeAfterOctets(head: Octets, major: byte, n: u64, rest: Octets, depth: nat)
    requires |head| >= 1 && Sized(major) && depth <= MAX_DEPTH
    requires head[0] / 32 == major && ReadArgument(head[1..] + rest, head[0] % 32) == Ok(Argument(n, rest))
    ensures DecodeAt(head + rest, depth) == AfterArgument(major, n, rest, depth)
  {
    hide ReadArgument;
    var b := head + rest;
    assert b[0] == head[0] && b[1..] == head[1..] + rest;
    assert DecodeAt(b, depth) == DecodeBody(major, head[0] % 32, head[1..] + rest, depth);
  }

  lemma {:induction false} DecodeAfterHead(major: byte, n: u64, rest: Octets, depth: nat)
    requires Sized(major) && depth <= MAX_DEPTH
    ensures DecodeAt(Head(major, n) + rest, depth) == AfterArgument(major, n, rest, depth)
  {
    ReadArgumentBack(major, n, rest);
    DecodeAfterOctets(Head(major, n), major, n, rest, depth);
  }

  lemma {:induction false} TakeBack(raw: Octets, rest: Octets)
    ensures Take(raw + rest, |raw|) == Ok(Parsed(raw, rest))
  {
    assert (raw + rest)[..|raw|] == raw;
    assert (raw + rest)[|raw|..] == rest;
  }

  lemma {:induction false} EncodeDecodes(v: Value, depth: nat, rest: Octets)
    ensures ReadsBack(v, depth, rest)
    decreases MAX_DEPTH + 1 - depth, 0
  {
    if depth <= MAX_DEPTH && EncodeAt(v, depth).Ok? {
      match v
      case Null =>
        assert (EncodeAt(v, depth).value + rest)[1..] == rest;
      case UInt(n) =>
        DecodeAfterHead(MAJOR_UINT, n, rest, depth);
      case Bytes(raw) =>
        StringDecodes(MAJOR_BSTR, raw, depth, rest);
      case Text(raw) =>
        StringDecodes(MAJOR_TSTR, raw, depth, rest);
      case Array(items) =>
        ArrayDecodes(items, depth, rest);
      case Map(entries) =>
        MapDecodes(entries, depth, rest);
    }
  }

  lemma {:induction false} StringDecodes(major: byte, raw: Octets, depth: nat, rest: Octets)
    requires depth <= MAX_DEPTH && |raw| < U64_LIMIT
    requires major == MAJOR_BSTR || (major == MAJOR_TSTR && ValidUtf8(raw))
    ensures DecodeAt(Head(major, |raw|) + raw + rest, depth)
         == Ok(Parsed(if major == MAJOR_BSTR then Bytes(raw) else Text(raw), rest))
  {
    assert Head(major, |raw|) + raw + rest == Head(major, |raw|) + (raw + rest);
    DecodeAfterHead(major, |raw|, raw + rest, depth);
    TakeBack(raw, rest);
  }

  lemma {:induction false} EncodeItemsLength(items: seq<Value>, depth: nat)
    requires EncodeItems(items, depth).Ok?
    ensures |EncodeItems(items, depth).value| >= |items|
  {
    if |items| > 0 {
      EncodeItemsLength(items[1..], depth);
      EncodeDecodesLength(items[0], depth);
    }
  }

  lemma {:induction false} EncodeDecodesLength(v: Value, depth: nat)
    requires EncodeAt(v, depth).Ok?
    ensures |EncodeAt(v, depth).value| >= 1
  {
  }

  lemma {:induction false} ArrayDecodes(items: seq<Value>, depth: nat, rest: Octets)
    requires depth <= MAX_DEPTH && EncodeArray(items, depth).Ok?
    ensures DecodeAt(EncodeArray(items, depth).value + rest, depth) == Ok(Parsed(Canon(Array(items)), rest))
    decreases MAX_DEPTH - depth, |items| + 2
  {
    var body := EncodeItems(items, depth + 1).value;
    assert EncodeArray(items, depth).value + rest == Head(MAJOR_ARRAY, |items|) + (body + rest);
    DecodeAfterHead(MAJOR_ARRAY, |items|, body + rest, depth);
    EncodeItemsLength(items, depth + 1);
    ItemsDecode(items, depth + 1, rest);
  }

  lemma {:induction false} ItemsDecode(items: seq<Value>, depth: nat, rest: Octets)
    requires EncodeItems(items, depth).Ok?
    ensures DecodeItems(EncodeItems(items, depth).value + rest, |items|, depth) == Ok(Parsed(CanonItems(items), rest))
    decreases MAX_DEPTH + 1 - depth, |items| + 1
  {
    if |items| == 0 {
      assert EncodeItems(items, depth).value + rest == rest;
    } else {
      var first := EncodeAt(items[0], depth).value;
      var others := EncodeItems(items[1..], depth).value;
      assert EncodeItems(items, depth).value + rest == first + (others + rest);
      EncodeDecodes(items[0], depth, others + rest);
      ItemsDecode(items[1..], depth, rest);
    }
  }

  lemma {:induction false} EncodeKeysEach(entries: seq<Entry>, depth: nat)
    ensures EncodeKeys(entries, depth).Ok? <==> forall e :: e in entries ==> EncodeAt(KeyValue(e.key), depth).Ok?
  {
    if |entries| > 0 {
      EncodeKeysEach(entries[1..], depth);
      assert forall e :: e in entries <==> e == entries[0] || e in entries[1..];
    }
  }

  lemma {:induction false} MapDecodes(entries: seq<Entry>, depth: nat, rest: Octets)
    requires depth <= MAX_DEPTH && EncodeMap(entries, depth).Ok?
    ensures DecodeAt(EncodeMap(entries, depth).value + rest, depth) == Ok(Parsed(Canon(Map(entries)), rest))
    decreases MAX_DEPTH - depth, |entries| + 2
  {
    var body := EncodeEntries(Sort(EntryKey, entries), depth + 1).value;
    assert EncodeMap(entries, depth).value + rest == Head(MAJOR_MAP, |entries|) + (body + rest);
    DecodeAfterHead(MAJOR_MAP, |entries|, body + rest, depth);
    SortedEntriesDecode(entries, depth, rest);
  }

  lemma {:induction false} SortedEntriesDecode(entries: seq<Entry>, depth: nat, rest: Octets)
    requires depth <= MAX_DEPTH && EncodeMap(entries, depth).Ok?
    ensures DecodeMap(EncodeEntries(Sort(EntryKey, entries), depth + 1).value + rest, |entries|, depth)
         == Ok(Parsed(Canon(Map(entries)), rest))
    decreases MAX_DEPTH - depth, |entries| + 2, 0
  {
    var sorted := Sort(EntryKey, entries);
    assert |sorted| == |entries|;
    assert Canon(Map(entries)) == Map(CanonEntries(sorted)) by {
      SortCanon(entries);
    }
    assert DecodeEntries(EncodeEntries(sorted, depth + 1).value + rest, |sorted|, depth + 1, None)
        == Ok(Parsed(CanonEntries(sorted), rest)) by {
      SortedEntriesReady(entries, depth + 1);
      EntriesDecode(sorted, depth + 1, rest, None);
    }
  }

  /** What the map case hands to the entry loop: encodable keys in strictly increasing order. */
  lemma {:induction false} SortedEntriesReady(entries: seq<Entry>, depth: nat)
    requires EncodeKeys(entries, depth).Ok? && !EqualNeighbours(EntryKey, Sort(EntryKey, entries))
    ensures EncodeKeys(Sort(EntryKey, entries), depth).Ok? && Increasing(EntryKey, Sort(EntryKey, entries))
  {
    NeighboursFindDuplicates(EntryKey, entries);
    SortIncreasing(EntryKey, entries);
    EncodeKeysEach(entries, depth);
    forall e | e in Sort(EntryKey, entries) ensures e in entries {
      SortMembers(EntryKey, entries, e);
    }
    EncodeKeysEach(Sort(EntryKey, entries), depth);
  }

  lemma {:induction false} KeyDecodes(key: Key, depth: nat, rest: Octets, previous: Option<Octets>)
    requires EncodeAt(KeyValue(key), depth).Ok?
    requires previous.Some? ==> Less(previous.value, KeyBytes(key))
    ensures DecodeKey(KeyBytes(key) + rest, depth, previous) == Ok(Parsed(key, rest))
    ensures Taken(KeyBytes(key) + rest, rest) == KeyBytes(key)
  {
    var b := KeyBytes(key) + rest;
    assert EncodeAt(KeyValue(key), depth) == Ok(KeyBytes(key));
    match key
    case TextKey(t) => StringDecodes(MAJOR_TSTR, t, depth, rest);
    case BytesKey(t) => StringDecodes(MAJOR_BSTR, t, depth, rest);
    assert Taken(b, rest) == KeyBytes(key);
  }

  lemma {:induction false} EntriesDecode(entries: seq<Entry>, depth: nat, rest: Octets, previous: Option<Octets>)
    requires EncodeEntries(entries, depth).Ok? && EncodeKeys(entries, depth).Ok?
    requires Increasing(EntryKey, entries)
    requires previous.Some? && |entries| > 0 ==> Less(previous.value, EntryKey(entries[0]))
    ensures DecodeEntries(EncodeEntries(entries, depth).value + rest, |entries|, depth, previous)
         == Ok(Parsed(CanonEntries(entries), rest))
    decreases MAX_DEPTH + 1 - depth, |entries| + 1
  {
    if |entries| == 0 {
      assert EncodeEntries(entries, depth).value + rest == rest;
    } else {
      var key := EntryKey(entries[0]);
      var value := EncodeAt(entries[0].value, depth).value;
      var others := EncodeEntries(entries[1..], depth).value;
      assert EncodeEntries(entries, depth).value + rest == key + (value + (others + rest));
      KeyDecodes(entries[0].key, depth, value + (others + rest), previous);
      EncodeDecodes(entries[0].value, depth, others + rest);
      EntriesDecode(entries[1..], depth, rest, Some(key));
    }
  }

  // ----- sorting and canonical form commute -----

  lemma {:induction false} InsertCanon(x: Entry, xs: seq<Entry>)
    ensures CanonEntries(Insert(EntryKey, x, xs)) == Insert(EntryKey, CanonEntry(x), CanonEntries(xs))
  {
    if |xs| == 0 {
      assert ([x] + xs)[1..] == xs;
    } else if Less(EntryKey(x), EntryKey(xs[0])) {
      assert ([x] + xs)[1..] == xs;
      assert EntryKey(CanonEntry(x)) == EntryKey(x) && EntryKey(CanonEntries(xs)[0]) == EntryKey(xs[0]);
    } else {
      InsertCanon(x, xs[1..]);
      var r := [xs[0]] + Insert(EntryKey, x, xs[1..]);
      assert r[1..] == Insert(EntryKey, x, xs[1..]);
      assert CanonEntries(xs)[1..] == CanonEntries(xs[1..]);
      assert EntryKey(CanonEntry(x)) == EntryKey(x) && EntryKey(CanonEntries(xs)[0]) == EntryKey(xs[0]);
    }
  }

  lemma {:induction false} SortCanon(xs: seq<Entry>)
    ensures CanonEntries(Sort(EntryKey, xs)) == Sort(EntryKey, CanonEntries(xs))
  {
    if |xs| > 0 {
      SortCanon(xs[..|xs| - 1]);
      InsertCanon(xs[|xs| - 1], Sort(EntryKey, xs[..|xs| - 1]));
      assert CanonEntries(xs)[..|xs| - 1] == CanonEntries(xs[..|xs| - 1]);
    }
  }

  // ----- what encoding and decoding promise together -----

  /** Decoding an encoding followed by anything consumes exactly the encoding. */
  lemma {:induction false} EncodingIsComplete(v: Value, rest: Octets)
    requires Encode(v).Ok?
    ensures DecodeAt(Encode(v).value + rest, 0) == Ok(Parsed(Canon(v), rest))
    ensures Decode(Encode(v).value) == Ok(Canon(v))
  {
    EncodeDecodes(v, 0, rest);
    EncodeDecodes(v, 0, []);
    assert Encode(v).value + [] == Encode(v).value;
  }

  /** No encoding is a proper prefix of another. */
  lemma {:induction false} EncodingIsPrefixFree(v: Value, w: Value)
    requires Encode(v).Ok? && Encode(w).Ok?
    requires Encode(v).value <= Encode(w).value
    ensures Encode(v).value == Encode(w).value
  {
    var a, b := Encode(v).value, Encode(w).value;
    assert b == a + b[|a|..];
    EncodingIsComplete(v, b[|a|..]);
    EncodingIsComplete(w, []);
    assert b + [] == b;
  }
}
