/** Deterministic CBOR (RFC 8949 section 4.2.1): what the encoder and the strict decoder compute,
    as functions. The in-place encoder and the cursor-driven decoder are in CborCodec.dfy. */
module Cbor {
  import opened Base
  import opened Ordering
  import opened Utf8

  datatype CborError =
    | NonCanonical
    | IndefiniteLength
    | ReservedAdditional(info: byte)
    | Truncated
    | TrailingBytes(remaining: nat)
    | DepthExceeded
    | DuplicateKey
    | KeysOutOfOrder
    | BadMapKey
    | BadUtf8
    | UnsupportedMajor(major: byte)
    | FloatNotAllowed
    | UnsupportedSimple(simple: byte)
      /** A length that does not fit 64 bits. No Rust allocation is that long, so the source has
          no such refusal; it keeps the functions below total on unbounded sequences. */
    | CapacityOverflow

  const MAX_DEPTH: nat := 32

  datatype Key = TextKey(text: Str) | BytesKey(bytes: Octets)

  datatype Value =
    | UInt(n: u64)
    | Bytes(bytes: Octets)
    | Text(text: Str)
    | Array(items: seq<Value>)
    | Map(entries: seq<Entry>)
    | Null

  datatype Entry = Entry(key: Key, value: Value)

  const MAJOR_UINT: byte := 0
  const MAJOR_BSTR: byte := 2
  const MAJOR_TSTR: byte := 3
  const MAJOR_ARRAY: byte := 4
  const MAJOR_MAP: byte := 5
  const MAJOR_SIMPLE: byte := 7
  const SIMPLE_NULL: byte := 22

  // ----- heads -----

  /** The low `width` octets of `n`, most significant first. */
  function BigEndian(n: nat, width: nat): (r: Octets)
    ensures |r| == width
  {
    if width == 0 then [] else BigEndian(n / 256, width - 1) + [n % 256]
  }

  function FromBigEndian(b: Octets): nat
  {
    if |b| == 0 then 0 else 256 * FromBigEndian(b[..|b| - 1]) + b[|b| - 1]
  }

  /** The shortest head for an argument; `argument as u64` beyond eight octets. */
  function Head(major: byte, argument: nat): (r: Octets)
    requires major < 8
    ensures 1 <= |r| <= 9
  {
    var base := major * 32;
    if argument < 24 then [base + argument]
    else if argument <= 0xff then [base + 24, argument]
    else if argument <= 0xffff then [base + 25] + BigEndian(argument, 2)
    else if argument <= 0xffff_ffff then [base + 26] + BigEndian(argument, 4)
    else [base + 27] + BigEndian(argument, 8)
  }

  /** A head argument and the octets left after it. */
  datatype Argument = Argument(argument: u64, rest: Octets)

  /** The argument announced by a head's low five bits; any longer form than needed is refused. */
  function ReadArgument(b: Octets, additional: byte): (r: Result<Argument, CborError>)
    requires additional < 32
    ensures r.Ok? ==> |r.value.rest| <= |b|
  {
    if additional <= 23 then Ok(Argument(additional, b))
    else if additional == 24 then ReadWide(b, 1, 23)
    else if additional == 25 then ReadWide(b, 2, 0xff)
    else if additional == 26 then ReadWide(b, 4, 0xffff)
    else if additional == 27 then ReadWide(b, 8, 0xffff_ffff)
    else if additional == 31 then Err(IndefiniteLength)
    else Err(ReservedAdditional(additional))
  }

  /** A `width`-octet argument that must exceed the largest value the next shorter form carries. */
  function ReadWide(b: Octets, width: nat, shorter: nat): (r: Result<Argument, CborError>)
    requires width <= 8
    ensures r.Ok? ==> width <= |b| && |r.value.rest| == |b| - width
  {
    if |b| < width then Err(Truncated)
    else
      FromBigEndianBound(b[..width]);
      Pow256Values(width);
      var v := FromBigEndian(b[..width]);
      if v <= shorter then Err(NonCanonical) else Ok(Argument(v, b[width..]))
  }

  function Pow256(w: nat): (r: nat)
    ensures r >= 1
  {
    if w == 0 then 1 else 256 * Pow256(w - 1)
  }

  lemma {:induction false} Pow256Values(width: nat)
    requires width <= 8
    ensures Pow256(width) <= U64_LIMIT
    ensures Pow256(1) == 0x100 && Pow256(2) == 0x1_0000 && Pow256(4) == U32_LIMIT && Pow256(8) == U64_LIMIT
  {
    assert Pow256(1) == 0x100;
    assert Pow256(2) == 0x1_0000;
    assert Pow256(3) == 0x100_0000;
    assert Pow256(4) == U32_LIMIT;
    assert Pow256(5) == 0x100_0000_0000;
    assert Pow256(6) == 0x1_0000_0000_0000;
    assert Pow256(7) == 0x100_0000_0000_0000;
  }

  lemma {:induction false} FromBigEndianBound(b: Octets)
    ensures FromBigEndian(b) < Pow256(|b|)
  {
    if |b| > 0 {
      FromBigEndianBound(b[..|b| - 1]);
    }
  }

  lemma {:induction false} BigEndianInverse(n: nat, width: nat)
    requires n < Pow256(width)
    ensures FromBigEndian(BigEndian(n, width)) == n
  {
    if width > 0 {
      BigEndianInverse(n / 256, width - 1);
      assert BigEndian(n, width)[..width - 1] == BigEndian(n / 256, width - 1);
    }
  }

  lemma {:induction false} FromBigEndianInverse(b: Octets)
    ensures BigEndian(FromBigEndian(b), |b|) == b
  {
    if |b| > 0 {
      FromBigEndianInverse(b[..|b| - 1]);
      assert b == b[..|b| - 1] + [b[|b| - 1]];
    }
  }

  // ----- encoding -----

  /** A map key as the wire carries it: what RFC 8949 section 4.2.1 rule 3 sorts by. */
  function KeyBytes(k: Key): Octets {
    match k
    case TextKey(t) => Head(MAJOR_TSTR, |t|) + t
    case BytesKey(b) => Head(MAJOR_BSTR, |b|) + b
  }

  function EntryKey(e: Entry): Octets {
    KeyBytes(e.key)
  }

  function KeyValue(k: Key): Value {
    match k
    case TextKey(t) => Text(t)
    case BytesKey(b) => Bytes(b)
  }

  function EncodeString(major: byte, b: Octets): Result<Octets, CborError>
    requires major < 8
  {
    if |b| >= U64_LIMIT then Err(CapacityOverflow) else Ok(Head(major, |b|) + b)
  }

  /** What the encoder appends for a value met at a nesting depth. */
  function EncodeAt(v: Value, depth: nat): Result<Octets, CborError>
    decreases MAX_DEPTH + 1 - depth, 0, v
  {
    if depth > MAX_DEPTH then Err(DepthExceeded)
    else
      match v
      case Null => Ok([MAJOR_SIMPLE * 32 + SIMPLE_NULL])
      case UInt(n) => Ok(Head(MAJOR_UINT, n))
      case Bytes(b) => EncodeString(MAJOR_BSTR, b)
      case Text(t) => EncodeString(MAJOR_TSTR, t)
      case Array(items) => EncodeArray(items, depth)
      case Map(entries) => EncodeMap(entries, depth)
  }

  function EncodeArray(items: seq<Value>, depth: nat): Result<Octets, CborError>
    requires depth <= MAX_DEPTH
    decreases MAX_DEPTH - depth, |items| + 2, items
  {
    if |items| >= U64_LIMIT then Err(CapacityOverflow)
    else
      var body :- EncodeItems(items, depth + 1);
      Ok(Head(MAJOR_ARRAY, |items|) + body)
  }

  /** Keys first, then the order and the duplicate test, then head, keys and values. */
  function EncodeMap(entries: seq<Entry>, depth: nat): Result<Octets, CborError>
    requires depth <= MAX_DEPTH
    decreases MAX_DEPTH - depth, |entries| + 2, entries
  {
    var _ :- EncodeKeys(entries, depth + 1);
    var sorted := Sort(EntryKey, entries);
    if EqualNeighbours(EntryKey, sorted) then Err(DuplicateKey)
    else if |entries| >= U64_LIMIT then Err(CapacityOverflow)
    else
      var body :- EncodeEntries(sorted, depth + 1);
      Ok(Head(MAJOR_MAP, |entries|) + body)
  }

  function EncodeItems(items: seq<Value>, depth: nat): Result<Octets, CborError>
    decreases MAX_DEPTH + 1 - depth, |items| + 1, items
  {
    if |items| == 0 then Ok([])
    else
      var first :- EncodeAt(items[0], depth);
      var rest :- EncodeItems(items[1..], depth);
      Ok(first + rest)
  }

  /** The encodings of all keys, in order of arrival, or the first refusal among them. */
  function EncodeKeys(entries: seq<Entry>, depth: nat): Result<seq<Octets>, CborError>
    decreases MAX_DEPTH + 1 - depth, |entries| + 1, entries
  {
    if |entries| == 0 then Ok([])
    else
      var first :- EncodeAt(KeyValue(entries[0].key), depth);
      var rest :- EncodeKeys(entries[1..], depth);
      Ok([first] + rest)
  }

  function EncodeEntries(entries: seq<Entry>, depth: nat): Result<Octets, CborError>
    decreases MAX_DEPTH + 1 - depth, |entries| + 1, entries
  {
    if |entries| == 0 then Ok([])
    else
      var value :- EncodeAt(entries[0].value, depth);
      var rest :- EncodeEntries(entries[1..], depth);
      Ok(EntryKey(entries[0]) + value + rest)
  }

  function Encode(v: Value): Result<Octets, CborError> {
    EncodeAt(v, 0)
  }

  // ----- decoding -----

  /** A decoded thing and the octets left after it. */
  datatype Parsed<+T> = Parsed(value: T, rest: Octets)

  type Read<+T> = Result<Parsed<T>, CborError>

  /** The octets read when `rest` is what remains of `b`. */
  function Taken(b: Octets, rest: Octets): Octets
    requires |rest| <= |b|
  {
    b[..|b| - |rest|]
  }

  /** Exactly `count` octets, refused when fewer remain. */
  function Take(b: Octets, count: nat): (r: Read<Octets>)
    ensures r.Ok? ==> |r.value.value| == count && |r.value.rest| == |b| - count
  {
    if count > |b| then Err(Truncated) else Ok(Parsed(b[..count], b[count..]))
  }

  /** The item the octets start with. */
  function DecodeAt(b: Octets, depth: nat): (r: Read<Value>)
    ensures r.Ok? ==> |r.value.rest| < |b|
    decreases MAX_DEPTH + 1 - depth, 0, 0, b
  {
    if depth > MAX_DEPTH then Err(DepthExceeded)
    else if |b| == 0 then Err(Truncated)
    else DecodeBody(b[0] / 32, b[0] % 32, b[1..], depth)
  }

  /** What follows an initial octet that carries this major type and additional information. */
  function DecodeBody(major: byte, additional: byte, b: Octets, depth: nat): (r: Read<Value>)
    requires major < 8 && additional < 32 && depth <= MAX_DEPTH
    ensures r.Ok? ==> |r.value.rest| <= |b|
    decreases MAX_DEPTH - depth, 1, 0, b
  {
    if major == MAJOR_SIMPLE then
      if additional == SIMPLE_NULL then Ok(Parsed(Null, b))
      else if additional == 25 || additional == 26 || additional == 27 then Err(FloatNotAllowed)
      else Err(UnsupportedSimple(additional))
    else if major == 1 || major == 6 then Err(UnsupportedMajor(major))
    else
      var Argument(argument, rest) :- ReadArgument(b, additional);
      if major == MAJOR_UINT then Ok(Parsed(UInt(argument), rest))
      else if major == MAJOR_BSTR then DecodeBytes(rest, argument)
      else if major == MAJOR_TSTR then DecodeText(rest, argument)
      else if major == MAJOR_ARRAY then DecodeArray(rest, argument, depth)
      else DecodeMap(rest, argument, depth)
  }

  function DecodeBytes(b: Octets, length: nat): (r: Read<Value>)
    ensures r.Ok? ==> |r.value.rest| <= |b|
  {
    var Parsed(raw, rest) :- Take(b, length);
    Ok(Parsed(Bytes(raw), rest))
  }

  function DecodeText(b: Octets, length: nat): (r: Read<Value>)
    ensures r.Ok? ==> |r.value.rest| <= |b|
  {
    var Parsed(raw, rest) :- Take(b, length);
    if ValidUtf8(raw) then Ok(Parsed(Text(raw), rest)) else Err(BadUtf8)
  }

  /** An array: more elements than octets left cannot be, each costs at least one. */
  function DecodeArray(b: Octets, count: nat, depth: nat): (r: Read<Value>)
    requires depth <= MAX_DEPTH
    ensures r.Ok? ==> |r.value.rest| <= |b|
    decreases MAX_DEPTH - depth, 0, count + 3, b
  {
    if count > |b| then Err(Truncated)
    else
      var Parsed(items, rest) :- DecodeItems(b, count, depth + 1);
      Ok(Parsed(Array(items), rest))
  }

  function DecodeMap(b: Octets, count: nat, depth: nat): (r: Read<Value>)
    requires depth <= MAX_DEPTH
    ensures r.Ok? ==> |r.value.rest| <= |b|
    decreases MAX_DEPTH - depth, 0, count + 3, b
  {
    var Parsed(entries, rest) :- DecodeEntries(b, count, depth + 1, None);
    Ok(Parsed(Map(entries), rest))
  }

  function DecodeItems(b: Octets, count: nat, depth: nat): (r: Read<seq<Value>>)
    ensures r.Ok? ==> |r.value.rest| <= |b| && |r.value.value| == count
    decreases MAX_DEPTH + 1 - depth, 0, count + 1, b
  {
    if count == 0 then Ok(Parsed([], b))
    else
      var Parsed(first, rest) :- DecodeAt(b, depth);
      var Parsed(others, rest') :- DecodeItems(rest, count - 1, depth);
      Ok(Parsed([first] + others, rest'))
  }

  /** The refusal, if any, that a key following `previous` meets. */
  function KeyOrder(previous: Option<Octets>, key: Octets): Outcome<CborError> {
    if previous.None? || Less(previous.value, key) then Pass
    else if previous.value == key then Fail(DuplicateKey)
    else Fail(KeysOutOfOrder)
  }

  /** A map key; its octets must follow those of the key before it. */
  function DecodeKey(b: Octets, depth: nat, previous: Option<Octets>): (r: Read<Key>)
    ensures r.Ok? ==> |r.value.rest| < |b|
    decreases MAX_DEPTH + 1 - depth, 0, 1, b
  {
    var Parsed(value, rest) :- DecodeAt(b, depth);
    if !value.Text? && !value.Bytes? then Err(BadMapKey)
    else
      :- KeyOrder(previous, Taken(b, rest));
      Ok(Parsed(AsKey(value), rest))
  }

  function DecodeEntries(b: Octets, count: nat, depth: nat, previous: Option<Octets>): (r: Read<seq<Entry>>)
    ensures r.Ok? ==> |r.value.rest| <= |b| && |r.value.value| == count
    decreases MAX_DEPTH + 1 - depth, 0, count + 2, b
  {
    if count == 0 then Ok(Parsed([], b))
    else
      var Parsed(key, rest) :- DecodeKey(b, depth, previous);
      var Parsed(value, rest') :- DecodeAt(rest, depth);
      var Parsed(others, rest'') :- DecodeEntries(rest', count - 1, depth, Some(Taken(b, rest)));
      Ok(Parsed([Entry(key, value)] + others, rest''))
  }

  function AsKey(v: Value): Key
    requires v.Text? || v.Bytes?
  {
    if v.Text? then TextKey(v.text) else BytesKey(v.bytes)
  }

  function Decode(b: Octets): Result<Value, CborError> {
    var Parsed(value, rest) :- DecodeAt(b, 0);
    if |rest| > 0 then Err(TrailingBytes(|rest|)) else Ok(value)
  }

  function IsDeterministic(b: Octets): bool {
    match Decode(b)
    case Ok(value) => Encode(value) == Ok(b)
    case Err(_) => false
  }

  // ----- the canonical form of a value -----

  /** A value with every map's entries in encoded-key order, at every depth. */
  function Canon(v: Value): Value {
    match v
    case Array(items) => Array(CanonItems(items))
    case Map(entries) => Map(Sort(EntryKey, CanonEntries(entries)))
    case _ => v
  }

  function CanonItems(items: seq<Value>): (r: seq<Value>)
    ensures |r| == |items|
    ensures forall i :: 0 <= i < |items| ==> r[i] == Canon(items[i])
  {
    if |items| == 0 then [] else [Canon(items[0])] + CanonItems(items[1..])
  }

  function CanonEntry(e: Entry): Entry {
    Entry(e.key, Canon(e.value))
  }

  function CanonEntries(entries: seq<Entry>): (r: seq<Entry>)
    ensures |r| == |entries|
    ensures forall i :: 0 <= i < |entries| ==> r[i] == CanonEntry(entries[i])
  {
    if |entries| == 0 then [] else [CanonEntry(entries[0])] + CanonEntries(entries[1..])
  }
}
