/** The encoder that appends to a vector and the decoder that advances a cursor, proved against
    the functions of module Cbor. */
module CborCodec {
  import opened Base
  import opened Ordering
  import opened Utf8
  import opened Cbor

  /** A growable byte vector: the encoder's `out`. */
  class OctetVec {
    var data: Octets

    constructor ()
      ensures data == []
    {
      data := [];
    }

    method Push(b: byte)
      modifies this
      ensures data == old(data) + [b]
    {
      data := data + [b];
    }

    method Extend(bs: Octets)
      modifies this
      ensures data == old(data) + bs
    {
      data := data + bs;
    }
  }

  /** Append the shortest head for an argument. */
  method HeadInto(major: byte, argument: nat, out: OctetVec)
    requires major < 8 && argument < U64_LIMIT
    modifies out
    ensures out.data == old(out.data) + Head(major, argument)
  {
    var base := major * 32;
    if argument < 24 {
      out.Push(base + argument);
    } else if argument <= 0xff {
      out.Push(base + 24);
      out.Push(argument);
    } else if argument <= 0xffff {
      out.Push(base + 25);
      out.Extend(BigEndian(argument, 2));
    } else if argument <= 0xffff_ffff {
      out.Push(base + 26);
      out.Extend(BigEndian(argument, 4));
    } else {
      out.Push(base + 27);
      out.Extend(BigEndian(argument, 8));
    }
  }

  /** The outcome of appending an encoding: on success exactly those octets were added. */
  ghost predicate Appended(spec: Result<Octets, CborError>, r: Outcome<CborError>, before: Octets, after: Octets)
  {
    match spec
    case Ok(enc) => r.Pass? && after == before + enc
    case Err(e) => r == Fail(e)
  }

  method EncodeValue(value: Value, out: OctetVec, depth: nat) returns (r: Outcome<CborError>)
    modifies out
    ensures Appended(EncodeAt(value, depth), r, old(out.data), out.data)
    decreases MAX_DEPTH + 1 - depth, 0
  {
    if depth > MAX_DEPTH {
      return Fail(DepthExceeded);
    }
    match value {
      case Null =>
        out.Push(MAJOR_SIMPLE * 32 + SIMPLE_NULL);
        r := Pass;
      case UInt(n) =>
        HeadInto(MAJOR_UINT, n, out);
        r := Pass;
      case Bytes(bytes) =>
        r := StringInto(MAJOR_BSTR, bytes, out);
      case Text(text) =>
        r := StringInto(MAJOR_TSTR, text, out);
      case Array(items) =>
        r := ArrayInto(items, out, depth);
      case Map(entries) =>
        r := MapInto(entries, out, depth);
    }
  }

  method StringInto(major: byte, bytes: Octets, out: OctetVec) returns (r: Outcome<CborError>)
    requires major < 8
    modifies out
    ensures Appended(EncodeString(major, bytes), r, old(out.data), out.data)
  {
    if |bytes| >= U64_LIMIT {
      return Fail(CapacityOverflow);
    }
    HeadInto(major, |bytes|, out);
    out.Extend(bytes);
    r := Pass;
  }

  /** Octets already appended, followed by what is still to be appended. */
  function After(done: Octets, remaining: Result<Octets, CborError>): Result<Octets, CborError> {
    match remaining
    case Ok(enc) => Ok(done + enc)
    case Err(e) => Err(e)
  }

  lemma {:induction false} AppendedAfter(spec: Result<Octets, CborError>, r: Outcome<CborError>, before: Octets,
                                         head: Octets, after: Octets)
    requires Appended(spec, r, before + head, after)
    ensures Appended(After(head, spec), r, before, after)
  {
    if spec.Ok? {
      assert (before + head) + spec.value == before + (head + spec.value);
    }
  }

  lemma {:induction false} AfterNothing(remaining: Result<Octets, CborError>)
    ensures After([], remaining) == remaining
  {
    if remaining.Ok? {
      assert [] + remaining.value == remaining.value;
    }
  }

  lemma {:induction false} AfterMore(done: Octets, more: Octets, remaining: Result<Octets, CborError>)
    ensures After(done, After(more, remaining)) == After(done + more, remaining)
  {
    if remaining.Ok? {
      assert done + (more + remaining.value) == (done + more) + remaining.value;
    }
  }

  method ArrayInto(items: seq<Value>, out: OctetVec, depth: nat) returns (r: Outcome<CborError>)
    requires depth <= MAX_DEPTH
    modifies out
    ensures Appended(EncodeArray(items, depth), r, old(out.data), out.data)
    decreases MAX_DEPTH - depth, |items| + 2
  {
    if |items| >= U64_LIMIT {
      return Fail(CapacityOverflow);
    }
    HeadInto(MAJOR_ARRAY, |items|, out);
    ghost var start, done := out.data, [];
    assert items[0..] == items;
    AfterNothing(EncodeItems(items, depth + 1));
    for i := 0 to |items|
      invariant out.data == start + done
      invariant EncodeItems(items, depth + 1) == After(done, EncodeItems(items[i..], depth + 1))
    {
      assert items[i..][1..] == items[i + 1..];
      r := EncodeValue(items[i], out, depth + 1);
      if r.Fail? {
        return;
      }
      ghost var enc := EncodeAt(items[i], depth + 1).value;
      AfterMore(done, enc, EncodeItems(items[i + 1..], depth + 1));
      done := done + enc;
    }
    r := Pass;
  }

  /** A map entry with its key already encoded. */
  datatype Keyed = Keyed(keyBytes: Octets, value: Value)

  function KeyedBytes(k: Keyed): Octets {
    k.keyBytes
  }

  function KeyedOf(e: Entry): Keyed {
    Keyed(EntryKey(e), e.value)
  }

  function KeyedAll(entries: seq<Entry>): (r: seq<Keyed>)
    ensures |r| == |entries|
    ensures forall i :: 0 <= i < |entries| ==> r[i] == KeyedOf(entries[i])
  {
    seq(|entries|, i requires 0 <= i < |entries| => KeyedOf(entries[i]))
  }

  lemma {:induction false} InsertKeyed(x: Entry, xs: seq<Entry>)
    ensures KeyedAll(Insert(EntryKey, x, xs)) == Insert(KeyedBytes, KeyedOf(x), KeyedAll(xs))
  {
    if |xs| > 0 && !Less(EntryKey(x), EntryKey(xs[0])) {
      InsertKeyed(x, xs[1..]);
      assert KeyedAll(xs)[1..] == KeyedAll(xs[1..]);
      assert KeyedAll(Insert(EntryKey, x, xs)) == [KeyedOf(xs[0])] + KeyedAll(Insert(EntryKey, x, xs[1..]));
    } else {
      assert KeyedAll([x] + xs) == [KeyedOf(x)] + KeyedAll(xs);
    }
  }

  /** Sorting encoded pairs and sorting entries by their encoded key are one sort. */
  lemma {:induction false} SortKeyed(xs: seq<Entry>)
    ensures KeyedAll(Sort(EntryKey, xs)) == Sort(KeyedBytes, KeyedAll(xs))
  {
    if |xs| > 0 {
      SortKeyed(xs[..|xs| - 1]);
      InsertKeyed(xs[|xs| - 1], Sort(EntryKey, xs[..|xs| - 1]));
      assert KeyedAll(xs)[..|xs| - 1] == KeyedAll(xs[..|xs| - 1]);
    }
  }

  lemma {:induction false} KeyedNeighbours(xs: seq<Entry>)
    ensures EqualNeighbours(KeyedBytes, KeyedAll(xs)) <==> EqualNeighbours(EntryKey, xs)
  {
    if EqualNeighbours(EntryKey, xs) {
      var i :| 0 <= i < |xs| - 1 && EntryKey(xs[i]) == EntryKey(xs[i + 1]);
      assert KeyedBytes(KeyedAll(xs)[i]) == KeyedBytes(KeyedAll(xs)[i + 1]);
    }
    if EqualNeighbours(KeyedBytes, KeyedAll(xs)) {
      var i :| 0 <= i < |xs| - 1 && KeyedBytes(KeyedAll(xs)[i]) == KeyedBytes(KeyedAll(xs)[i + 1]);
      assert EntryKey(xs[i]) == EntryKey(xs[i + 1]);
    }
  }

  /** The encoder may sort and test its encoded pairs instead of the entries themselves. */
  lemma {:induction false} SortedKeyed(entries: seq<Entry>)
    ensures Sort(KeyedBytes, KeyedAll(entries)) == KeyedAll(Sort(EntryKey, entries))
    ensures EqualNeighbours(KeyedBytes, Sort(KeyedBytes, KeyedAll(entries)))
       <==> EqualNeighbours(EntryKey, Sort(EntryKey, entries))
  {
    SortKeyed(entries);
    KeyedNeighbours(Sort(EntryKey, entries));
  }

  /** Encode every key into a vector of its own, pairing it with its value. */
  method EncodeKeyed(entries: seq<Entry>, depth: nat) returns (r: Outcome<CborError>, encoded: seq<Keyed>)
    ensures match EncodeKeys(entries, depth)
            case Ok(_) => r.Pass? && encoded == KeyedAll(entries)
            case Err(e) => r == Fail(e)
    decreases MAX_DEPTH + 1 - depth, |entries| + 1
  {
    r, encoded := Pass, [];
    assert entries[0..] == entries;
    for i := 0 to |entries|
      invariant r.Pass? && encoded == KeyedAll(entries[..i])
      invariant EncodeKeys(entries[i..], depth).Ok? ==> EncodeKeys(entries, depth).Ok?
      invariant EncodeKeys(entries[i..], depth).Err? ==> EncodeKeys(entries, depth) == EncodeKeys(entries[i..], depth)
    {
      assert entries[i..][1..] == entries[i + 1..];
      var keyBytes := new OctetVec();
      r := EncodeValue(KeyValue(entries[i].key), keyBytes, depth);
      if r.Fail? {
        return;
      }
      encoded := encoded + [Keyed(keyBytes.data, entries[i].value)];
      assert keyBytes.data == EntryKey(entries[i]);
      assert entries[..i + 1] == entries[..i] + [entries[i]];
    }
    assert entries[..|entries|] == entries;
  }

  method MapInto(entries: seq<Entry>, out: OctetVec, depth: nat) returns (r: Outcome<CborError>)
    requires depth <= MAX_DEPTH
    modifies out
    ensures Appended(EncodeMap(entries, depth), r, old(out.data), out.data)
    decreases MAX_DEPTH - depth, |entries| + 2
  {
    var encoded;
    r, encoded := EncodeKeyed(entries, depth + 1);
    if r.Fail? {
      return;
    }
    SortedKeyed(entries);
    encoded := Sort(KeyedBytes, encoded);
    if EqualNeighbours(KeyedBytes, encoded) {
      return Fail(DuplicateKey);
    }
    if |encoded| >= U64_LIMIT {
      return Fail(CapacityOverflow);
    }
    HeadInto(MAJOR_MAP, |encoded|, out);
    r := KeyedInto(encoded, Sort(EntryKey, entries), out, depth + 1);
    AppendedAfter(EncodeEntries(Sort(EntryKey, entries), depth + 1), r, old(out.data), Head(MAJOR_MAP, |entries|),
                  out.data);
  }

  method KeyedInto(encoded: seq<Keyed>, ghost sorted: seq<Entry>, out: OctetVec, depth: nat)
    returns (r: Outcome<CborError>)
    requires encoded == KeyedAll(sorted)
    modifies out
    ensures Appended(EncodeEntries(sorted, depth), r, old(out.data), out.data)
    decreases MAX_DEPTH + 1 - depth, |encoded| + 1
  {
    ghost var done := [];
    assert sorted[0..] == sorted;
    AfterNothing(EncodeEntries(sorted, depth));
    for i := 0 to |encoded|
      invariant out.data == old(out.data) + done
      invariant EncodeEntries(sorted, depth) == After(done, EncodeEntries(sorted[i..], depth))
    {
      assert sorted[i..][1..] == sorted[i + 1..];
      out.Extend(encoded[i].keyBytes);
      r := EncodeValue(encoded[i].value, out, depth);
      if r.Fail? {
        return;
      }
      ghost var enc := EntryKey(sorted[i]) + EncodeAt(sorted[i].value, depth).value;
      AfterMore(done, enc, EncodeEntries(sorted[i + 1..], depth));
      done := done + enc;
    }
    assert done + [] == done;
    r := Pass;
  }

  method EncodeWhole(value: Value) returns (r: Result<Octets, CborError>)
    ensures r == Encode(value)
  {
    var out := new OctetVec();
    var outcome := EncodeValue(value, out, 0);
    assert outcome.Pass? ==> [] + Encode(value).value == Encode(value).value;
    match outcome {
      case Pass => r := Ok(out.data);
      case Fail(e) => r := Err(e);
    }
  }

  // ----- decoding -----

  /** A cursor over the input octets. */
  class Reader {
    const bytes: Octets
    var offset: nat

    ghost predicate Valid()
      reads this
    {
      offset <= |bytes|
    }

    /** The octets not read yet. */
    ghost function Rest(): Octets
      requires Valid()
      reads this
    {
      bytes[offset..]
    }

    constructor (bytes: Octets)
      ensures Valid() && this.bytes == bytes && Rest() == bytes && offset == 0
    {
      this.bytes := bytes;
      this.offset := 0;
    }

    method TakeOctets(count: nat) returns (r: Result<Octets, CborError>)
      requires Valid()
      modifies this
      ensures Valid() && Advanced(Take(old(Rest()), count), r, this) && offset >= old(offset)
      ensures r.Err? ==> offset == old(offset)
    {
      if offset + count > |bytes| {
        return Err(Truncated);
      }
      var slice := bytes[offset..offset + count];
      offset := offset + count;
      r := Ok(slice);
      assert bytes[old(offset)..][..count] == slice;
      assert bytes[old(offset)..][count..] == bytes[offset..];
    }

    function Remaining(): (n: int)
      reads this
      ensures Valid() ==> n == |Rest()|
    {
      |bytes| - offset
    }
  }

  /** A read that left the cursor where the specification leaves the rest. */
  ghost predicate Advanced<T>(spec: Read<T>, r: Result<T, CborError>, reader: Reader)
    requires reader.Valid()
    reads reader
  {
    match spec
    case Ok(Parsed(value, rest)) => r == Ok(value) && reader.Rest() == rest
    case Err(e) => r == Err(e)
  }

  method ReadHeadArgument(reader: Reader, additional: byte) returns (r: Result<u64, CborError>)
    requires reader.Valid() && additional < 32
    modifies reader
    ensures reader.Valid() && reader.offset >= old(reader.offset)
    ensures match ReadArgument(old(reader.Rest()), additional)
            case Ok(Argument(argument, rest)) => r == Ok(argument) && reader.Rest() == rest
            case Err(e) => r == Err(e)
  {
    if additional <= 23 {
      return Ok(additional);
    }
    var width, shorter;
    if additional == 24 {
      width, shorter := 1, 23;
    } else if additional == 25 {
      width, shorter := 2, 0xff;
    } else if additional == 26 {
      width, shorter := 4, 0xffff;
    } else if additional == 27 {
      width, shorter := 8, 0xffff_ffff;
    } else if additional == 31 {
      return Err(IndefiniteLength);
    } else {
      return Err(ReservedAdditional(additional));
    }
    var raw :- reader.TakeOctets(width);
    FromBigEndianBound(raw);
    Pow256Values(width);
    var v := FromBigEndian(raw);
    if v <= shorter {
      return Err(NonCanonical);
    }
    r := Ok(v);
  }

  method DecodeValue(reader: Reader, depth: nat) returns (r: Result<Value, CborError>)
    requires reader.Valid()
    modifies reader
    ensures reader.Valid() && reader.offset >= old(reader.offset)
            && Advanced(DecodeAt(old(reader.Rest()), depth), r, reader)
    decreases MAX_DEPTH + 1 - depth, 0, 0
  {
    if depth > MAX_DEPTH {
      return Err(DepthExceeded);
    }
    var initial :- reader.TakeOctets(1);
    var major, additional := initial[0] / 32, initial[0] % 32;
    if major == MAJOR_SIMPLE {
      if additional == SIMPLE_NULL {
        return Ok(Null);
      }
      if additional == 25 || additional == 26 || additional == 27 {
        return Err(FloatNotAllowed);
      }
      return Err(UnsupportedSimple(additional));
    }
    if major == 1 || major == 6 {
      return Err(UnsupportedMajor(major));
    }
    var argument :- ReadHeadArgument(reader, additional);
    if major == MAJOR_UINT {
      r := Ok(UInt(argument));
    } else if major == MAJOR_BSTR || major == MAJOR_TSTR {
      r := ReadString(reader, major, argument);
    } else if major == MAJOR_ARRAY {
      r := ReadArray(reader, argument, depth);
    } else {
      r := ReadMap(reader, argument, depth);
    }
  }

  method ReadString(reader: Reader, major: byte, length: nat) returns (r: Result<Value, CborError>)
    requires reader.Valid() && (major == MAJOR_BSTR || major == MAJOR_TSTR)
    modifies reader
    ensures reader.Valid() && reader.offset >= old(reader.offset)
    ensures Advanced(if major == MAJOR_BSTR then DecodeBytes(old(reader.Rest()), length)
                     else DecodeText(old(reader.Rest()), length), r, reader)
  {
    if length > reader.Remaining() {
      return Err(Truncated);
    }
    var raw := reader.TakeOctets(length);
    if major == MAJOR_BSTR {
      r := Ok(Bytes(raw.value));
    } else if ValidUtf8(raw.value) {
      r := Ok(Text(raw.value));
    } else {
      r := Err(BadUtf8);
    }
  }

  /** What a loop has collected, followed by the reads still to come. */
  function Collected<T>(done: seq<T>, remaining: Read<seq<T>>): Read<seq<T>> {
    match remaining
    case Ok(Parsed(values, rest)) => Ok(Parsed(done + values, rest))
    case Err(e) => Err(e)
  }

  lemma {:induction false} CollectedNothing<T>(remaining: Read<seq<T>>)
    ensures Collected([], remaining) == remaining
  {
    if remaining.Ok? {
      assert [] + remaining.value.value == remaining.value.value;
    }
  }

  lemma {:induction false} CollectedMore<T>(done: seq<T>, more: seq<T>, remaining: Read<seq<T>>)
    ensures Collected(done, Collected(more, remaining)) == Collected(done + more, remaining)
  {
    if remaining.Ok? {
      assert done + (more + remaining.value.value) == (done + more) + remaining.value.value;
    }
  }

  method ReadArray(reader: Reader, count: nat, depth: nat) returns (r: Result<Value, CborError>)
    requires reader.Valid() && depth <= MAX_DEPTH
    modifies reader
    ensures reader.Valid() && reader.offset >= old(reader.offset)
            && Advanced(DecodeArray(old(reader.Rest()), count, depth), r, reader)
    decreases MAX_DEPTH - depth, 0, count + 3
  {
    if count > reader.Remaining() {
      return Err(Truncated);
    }
    var items: seq<Value> := [];
    CollectedNothing(DecodeItems(reader.Rest(), count, depth + 1));
    for i := 0 to count
      invariant reader.Valid() && reader.offset >= old(reader.offset)
      invariant DecodeItems(old(reader.Rest()), count, depth + 1)
             == Collected(items, DecodeItems(reader.Rest(), count - i, depth + 1))
    {
      var item :- DecodeValue(reader, depth + 1);
      CollectedMore(items, [item], DecodeItems(reader.Rest(), count - i - 1, depth + 1));
      items := items + [item];
    }
    assert items + [] == items;
    r := Ok(Array(items));
  }

  method ReadMap(reader: Reader, count: nat, depth: nat) returns (r: Result<Value, CborError>)
    requires reader.Valid() && depth <= MAX_DEPTH
    modifies reader
    ensures reader.Valid() && reader.offset >= old(reader.offset)
            && Advanced(DecodeMap(old(reader.Rest()), count, depth), r, reader)
    decreases MAX_DEPTH - depth, 0, count + 3
  {
    var entries: seq<Entry> := [];
    var previousKey: Option<Octets> := None;
    CollectedNothing(DecodeEntries(reader.Rest(), count, depth + 1, None));
    for i := 0 to count
      invariant reader.Valid() && reader.offset >= old(reader.offset)
      invariant DecodeEntries(old(reader.Rest()), count, depth + 1, None)
             == Collected(entries, DecodeEntries(reader.Rest(), count - i, depth + 1, previousKey))
    {
      var key, keyBytes := ReadKey(reader, depth + 1, previousKey);
      if key.Err? {
        return Err(key.error);
      }
      previousKey := Some(keyBytes);
      var value :- DecodeValue(reader, depth + 1);
      var entry := Entry(key.value, value);
      CollectedMore(entries, [entry], DecodeEntries(reader.Rest(), count - i - 1, depth + 1, previousKey));
      entries := entries + [entry];
    }
    assert entries + [] == entries;
    r := Ok(Map(entries));
  }

  method ReadKey(reader: Reader, depth: nat, previousKey: Option<Octets>)
    returns (r: Result<Key, CborError>, keyBytes: Octets)
    requires reader.Valid()
    modifies reader
    ensures reader.Valid() && reader.offset >= old(reader.offset)
            && Advanced(DecodeKey(old(reader.Rest()), depth, previousKey), r, reader)
    ensures |reader.Rest()| <= |old(reader.Rest())| && keyBytes == Taken(old(reader.Rest()), reader.Rest())
    decreases MAX_DEPTH + 1 - depth, 0, 1
  {
    var keyStart := reader.offset;
    var value := DecodeValue(reader, depth);
    keyBytes := reader.bytes[keyStart..reader.offset];
    if value.Err? {
      return Err(value.error), keyBytes;
    }
    assert keyBytes == Taken(old(reader.Rest()), reader.Rest());
    if !value.value.Text? && !value.value.Bytes? {
      return Err(BadMapKey), keyBytes;
    }
    match KeyOrder(previousKey, keyBytes) {
      case Fail(e) => r := Err(e);
      case Pass => r := Ok(AsKey(value.value));
    }
  }

  method DecodeAll(bytes: Octets) returns (r: Result<Value, CborError>)
    ensures r == Decode(bytes)
  {
    var reader := new Reader(bytes);
    var value :- DecodeValue(reader, 0);
    if reader.offset != |bytes| {
      return Err(TrailingBytes(|bytes| - reader.offset));
    }
    r := Ok(value);
  }

  method CheckDeterministic(bytes: Octets) returns (r: bool)
    ensures r == IsDeterministic(bytes)
  {
    var value := DecodeAll(bytes);
    if value.Err? {
      return false;
    }
    var reencoded := EncodeWhole(value.value);
    r := reencoded == Ok(bytes);
  }
}
