/** The octets of RFC 8949, written down without the encoder: initial octets, arguments, payloads, and map
    keys in bytewise order. The encoder writes exactly these and the decoder reads nothing else. */
module CborWire {
  import opened Arith
  import opened Base
  import opened Ordering
  import opened Cbor
  import opened CborCanonical
  import opened CborComplete
  import opened CborEquality
  import opened CborFits

  // ----- the wire -----

  /** Section 3: the major type in the high three bits, the argument in the low five or, most significant
      octet first, in the one, two, four or eight octets that follow; section 4.2.1: as few as possible. */
  ghost function Initial(major: nat, n: nat): Octets
    requires major < 8
  {
    if n < 24 then [32 * major + n]
    else if n < 0x100 then [32 * major + 24, n]
    else if n < 0x1_0000 then [32 * major + 25, n / 0x100, n % 0x100]
    else if n < 0x1_0000_0000 then
      [32 * major + 26, n / 0x100_0000, n / 0x1_0000 % 0x100, n / 0x100 % 0x100, n % 0x100]
    else
      [32 * major + 27, n / 0x100_0000_0000_0000 % 0x100, n / 0x1_0000_0000_0000 % 0x100, n / 0x100_0000_0000 % 0x100,
       n / 0x1_0000_0000 % 0x100, n / 0x100_0000 % 0x100, n / 0x1_0000 % 0x100, n / 0x100 % 0x100, n % 0x100]
  }

  /** Every length fits 64 bits, as on any machine it does. */
  ghost predicate Machine(v: Value) {
    match v
    case Bytes(b) => |b| < U64_LIMIT
    case Text(t) => |t| < U64_LIMIT
    case Array(items) => |items| < U64_LIMIT && forall i :: 0 <= i < |items| ==> Machine(items[i])
    case Map(entries) => |entries| < U64_LIMIT && forall i :: 0 <= i < |entries| ==> MachineEntry(entries[i])
    case _ => true
  }

  ghost predicate MachineKey(k: Key) {
    match k
    case TextKey(t) => |t| < U64_LIMIT
    case BytesKey(b) => |b| < U64_LIMIT
  }

  ghost predicate MachineEntry(e: Entry) {
    MachineKey(e.key) && Machine(e.value)
  }

  /** A value as it stands, its maps in the order in which they list their entries. */
  ghost function Wire(v: Value): Octets
    decreases v
  {
    match v
    case UInt(n) => Initial(0, n)
    case Bytes(b) => Initial(2, |b|) + b
    case Text(t) => Initial(3, |t|) + t
    case Array(items) => Initial(4, |items|) + WireItems(items)
    case Map(entries) => Initial(5, |entries|) + WireEntries(entries)
    case Null => [0xf6]
  }

  ghost function WireItems(items: seq<Value>): Octets
    decreases items
  {
    if |items| == 0 then [] else Wire(items[0]) + WireItems(items[1..])
  }

  ghost function WireKey(k: Key): Octets
  {
    match k
    case TextKey(t) => Initial(3, |t|) + t
    case BytesKey(b) => Initial(2, |b|) + b
  }

  ghost function WireEntries(entries: seq<Entry>): Octets
    decreases entries
  {
    if |entries| == 0 then []
    else WireEntry(entries[0]) + WireEntries(entries[1..])
  }

  ghost function WireEntry(e: Entry): Octets
    decreases e, 0
  {
    WireKey(e.key) + Wire(e.value)
  }

  /** Section 4.2.1: keys in bytewise order, none twice, in every map. */
  ghost predicate InOrder(v: Value)
  {
    match v
    case Array(items) => forall i :: 0 <= i < |items| ==> InOrder(items[i])
    case Map(entries) =>
      && (forall i, j :: 0 <= i < j < |entries| ==> Before(WireKey(entries[i].key), WireKey(entries[j].key)))
      && (forall i :: 0 <= i < |entries| ==> InOrderEntry(entries[i]))
    case _ => true
  }

  ghost predicate InOrderEntry(e: Entry)
  {
    InOrder(e.value)
  }

  /** No more than so many arrays and maps inside one another; keys count as inside. */
  ghost predicate Nests(v: Value, levels: nat) {
    match v
    case Array(items) =>
      |items| > 0 ==> levels > 0 && forall i :: 0 <= i < |items| ==> Nests(items[i], levels - 1)
    case Map(entries) =>
      |entries| > 0 ==> levels > 0 && forall i :: 0 <= i < |entries| ==> NestsEntry(entries[i], levels - 1)
    case _ => true
  }

  ghost predicate NestsEntry(e: Entry, levels: nat) {
    Nests(e.value, levels)
  }

  // ----- heads -----

  lemma {:induction false} HeadIs(major: byte, n: u64)
    requires major < 8
    ensures Head(major, n) == Initial(major, n)
  {
    hide BigEndian;
    if 0x100 <= n < 0x1_0000 {
      BigEndianTwo(n);
    } else if 0x1_0000 <= n < 0x1_0000_0000 {
      BigEndianFour(n);
    } else if n >= 0x1_0000_0000 {
      BigEndianEight(n);
    }
  }

  lemma {:induction false} BigEndianTwo(n: nat)
    ensures BigEndian(n, 2) == [n / 0x100 % 0x100, n % 0x100]
  {
    hide BigEndian;
    BigEndianStep(n, 0x1, 1);
    BigEndianStep(n, 0x100, 0);
    BigEndianStep(n, 0x1_0000, 0);
  }

  lemma {:induction false} BigEndianFour(n: nat)
    ensures BigEndian(n, 4) == [n / 0x100_0000 % 0x100, n / 0x1_0000 % 0x100, n / 0x100 % 0x100, n % 0x100]
  {
    hide BigEndian;
    BigEndianStep(n, 0x1, 3);
    BigEndianStep(n, 0x100, 2);
    BigEndianStep(n, 0x1_0000, 1);
    BigEndianStep(n, 0x100_0000, 0);
    BigEndianStep(n, 0x1_0000_0000, 0);
  }

  lemma {:induction false} BigEndianEight(n: u64)
    ensures BigEndian(n, 8)
         == [n / 0x100_0000_0000_0000 % 0x100, n / 0x1_0000_0000_0000 % 0x100, n / 0x100_0000_0000 % 0x100,
             n / 0x1_0000_0000 % 0x100, n / 0x100_0000 % 0x100, n / 0x1_0000 % 0x100, n / 0x100 % 0x100, n % 0x100]
  {
    hide BigEndian;
    BigEndianStep(n, 0x1, 7);
    BigEndianStep(n, 0x100, 6);
    BigEndianStep(n, 0x1_0000, 5);
    BigEndianStep(n, 0x100_0000, 4);
    BigEndianStep(n, 0x1_0000_0000, 3);
    BigEndianStep(n, 0x100_0000_0000, 2);
    BigEndianStep(n, 0x1_0000_0000_0000, 1);
    BigEndianStep(n, 0x100_0000_0000_0000, 0);
    BigEndianStep(n, 0x1_0000_0000_0000_0000, 0);
  }

  lemma {:induction false} BigEndianStep(n: nat, scale: nat, width: nat)
    requires scale > 0
    ensures BigEndian(n / scale, width + 1) == BigEndian(n / (scale * 256), width) + [n / scale % 256]
    ensures BigEndian(n / scale, 0) == []
  {
    DivideTwice(n, scale, 256);
  }

  // ----- what the encoder writes -----

  lemma {:induction false} KeyIs(k: Key)
    requires MachineKey(k)
    ensures KeyBytes(k) == WireKey(k)
  {
    hide Head, Initial;
    match k
    case TextKey(t) => HeadIs(MAJOR_TSTR, |t|);
    case BytesKey(b) => HeadIs(MAJOR_BSTR, |b|);
  }

  /** A value that is in order is written as it stands. */
  lemma {:induction false} WritesWire(v: Value, depth: nat)
    requires EncodeAt(v, depth).Ok? && Machine(v) && InOrder(v)
    ensures EncodeAt(v, depth).value == Wire(v)
    decreases MAX_DEPTH + 1 - depth, 0, v
  {
    hide Head, Initial;
    match v
    case UInt(n) => HeadIs(MAJOR_UINT, n);
    case Bytes(b) => HeadIs(MAJOR_BSTR, |b|);
    case Text(t) => HeadIs(MAJOR_TSTR, |t|);
    case Array(items) =>
      HeadIs(MAJOR_ARRAY, |items|);
      ItemsWireWritten(items, depth + 1);
    case Map(entries) =>
      HeadIs(MAJOR_MAP, |entries|);
      InOrderIncreasing(entries);
      SortIdentity(EntryKey, entries);
      EntriesWritten(entries, depth + 1);
    case Null =>
  }

  lemma {:induction false} ItemsWireWritten(items: seq<Value>, depth: nat)
    requires EncodeItems(items, depth).Ok?
    requires forall i :: 0 <= i < |items| ==> Machine(items[i]) && InOrder(items[i])
    ensures EncodeItems(items, depth).value == WireItems(items)
    decreases MAX_DEPTH + 1 - depth, |items| + 1, items
  {
    hide EncodeAt, Wire, Machine, InOrder;
    if |items| > 0 {
      WritesWire(items[0], depth);
      ItemsWireWritten(items[1..], depth);
    }
  }

  lemma {:induction false} EntriesWritten(entries: seq<Entry>, depth: nat)
    requires EncodeEntries(entries, depth).Ok?
    requires forall i :: 0 <= i < |entries| ==> MachineEntry(entries[i]) && InOrderEntry(entries[i])
    ensures EncodeEntries(entries, depth).value == WireEntries(entries)
    decreases MAX_DEPTH + 1 - depth, |entries| + 1, entries
  {
    hide EncodeAt, Wire, WireKey, KeyBytes, Machine, MachineKey, InOrder;
    if |entries| > 0 {
      KeyIs(entries[0].key);
      WritesWire(entries[0].value, depth);
      EntriesWritten(entries[1..], depth);
    }
  }

  lemma {:induction false} InOrderIncreasing(entries: seq<Entry>)
    requires Machine(Map(entries))
    ensures Increasing(EntryKey, entries)
       <==> forall i, j :: 0 <= i < j < |entries| ==> Before(WireKey(entries[i].key), WireKey(entries[j].key))
  {
    hide KeyBytes, WireKey, Before, Less, Machine;
    forall i, j | 0 <= i < j < |entries|
      ensures Less(EntryKey(entries[i]), EntryKey(entries[j]))
         <==> Before(WireKey(entries[i].key), WireKey(entries[j].key))
    {
      MachineKeys(entries, i);
      MachineKeys(entries, j);
      KeyIs(entries[i].key);
      KeyIs(entries[j].key);
      LessIffBefore(EntryKey(entries[i]), EntryKey(entries[j]));
    }
  }

  lemma {:induction false} MachineKeys(entries: seq<Entry>, i: nat)
    requires Machine(Map(entries)) && i < |entries|
    ensures MachineKey(entries[i].key)
  {
    assert MachineEntry(entries[i]);
  }

  // ----- what encodes -----

  lemma {:induction false} WritesIff(v: Value, depth: nat)
    ensures EncodeAt(v, depth).Ok? <==> depth <= 32 && Nests(v, 32 - depth) && Machine(v) && WellKeyed(v)
    decreases 33 - depth, 2
  {
    if depth <= 32 {
      match v
      case Array(items) => ItemsWriteIff(items, depth);
      case Map(entries) => EntriesWriteIff(entries, depth);
      case _ =>
    }
  }

  lemma {:induction false} ItemsWriteIff(items: seq<Value>, depth: nat)
    requires depth <= 32
    ensures EncodeAt(Array(items), depth).Ok?
       <==> Nests(Array(items), 32 - depth) && Machine(Array(items)) && WellKeyed(Array(items))
    decreases 33 - depth, 1
  {
    forall i | 0 <= i < |items|
      ensures Fits(items[i], depth + 1)
         <==> depth < 32 && Nests(items[i], 31 - depth) && Machine(items[i]) && WellKeyed(items[i])
    {
      InnerWritesIff(items[i], depth);
    }
    ArrayWritesIff(items, depth);
    hide Fits, EncodeAt;
    assert depth == 32 && |items| > 0 ==> !Fits(items[0], depth + 1);
  }

  lemma {:induction false} InnerWritesIff(v: Value, depth: nat)
    requires depth <= 32
    ensures Fits(v, depth + 1) <==> depth < 32 && Nests(v, 31 - depth) && Machine(v) && WellKeyed(v)
    decreases 33 - depth, 0
  {
    if depth < 32 {
      WritesIff(v, depth + 1);
    }
  }

  lemma {:induction false} ArrayWritesIff(items: seq<Value>, depth: nat)
    requires depth <= 32
    ensures EncodeAt(Array(items), depth).Ok?
       <==> |items| < U64_LIMIT && forall i :: 0 <= i < |items| ==> Fits(items[i], depth + 1)
  {
    if EncodeItems(items, depth + 1).Ok? {
      forall i | 0 <= i < |items| ensures Fits(items[i], depth + 1) {
        ItemEncodes(items, depth + 1, i);
      }
    } else if forall i :: 0 <= i < |items| ==> Fits(items[i], depth + 1) {
      ItemsEncode(items, depth + 1);
    }
  }

  lemma {:induction false} EntriesWriteIff(entries: seq<Entry>, depth: nat)
    requires depth <= 32
    ensures EncodeAt(Map(entries), depth).Ok?
       <==> Nests(Map(entries), 32 - depth) && Machine(Map(entries)) && WellKeyed(Map(entries))
    decreases 33 - depth, 1
  {
    forall i | 0 <= i < |entries|
      ensures EntryFits(entries[i], depth + 1)
         <==> depth < 32 && NestsEntry(entries[i], 31 - depth) && MachineEntry(entries[i]) && WellKeyedEntry(entries[i])
    {
      InnerWritesIff(entries[i].value, depth);
    }
    MapWritesIff(entries, depth);
    hide EntryFits, EncodeAt, EntryKey, MachineEntry;
    assert depth == 32 && |entries| > 0 ==> !EntryFits(entries[0], depth + 1);
  }

  predicate EntryFits(e: Entry, depth: nat) {
    Fits(KeyValue(e.key), depth) && Fits(e.value, depth)
  }

  lemma {:induction false} MapWritesIff(entries: seq<Entry>, depth: nat)
    requires depth <= 32
    ensures EncodeAt(Map(entries), depth).Ok?
       <==> && |entries| < U64_LIMIT && Distinct(EntryKey, entries)
            && forall i :: 0 <= i < |entries| ==> EntryFits(entries[i], depth + 1)
  {
    if EncodeMap(entries, depth).Ok? {
      EncodesWellKeyedEntries(entries, depth);
      WrittenEntriesFit(entries, depth);
    } else if |entries| < U64_LIMIT && Distinct(EntryKey, entries) {
      if forall i :: 0 <= i < |entries| ==> EntryFits(entries[i], depth + 1) {
        hide Fits, EntryKey;
        forall e | e in entries ensures Fits(KeyValue(e.key), depth + 1) && Fits(e.value, depth + 1) {
          var i :| 0 <= i < |entries| && entries[i] == e;
          assert EntryFits(entries[i], depth + 1);
        }
        MapFits(entries, depth);
        FitsWritten(entries, depth);
      }
    }
  }

  lemma {:induction false} FitsWritten(entries: seq<Entry>, depth: nat)
    requires depth <= 32 && Fits(Map(entries), depth)
    ensures EncodeMap(entries, depth).Ok?
  {
  }

  lemma {:induction false} WrittenEntriesFit(entries: seq<Entry>, depth: nat)
    requires depth <= 32 && EncodeMap(entries, depth).Ok?
    ensures forall i :: 0 <= i < |entries| ==> EntryFits(entries[i], depth + 1)
  {
    hide EncodeAt, EntryKey;
    EncodeKeysEach(entries, depth + 1);
    var sorted := Sort(EntryKey, entries);
    forall i | 0 <= i < |entries| ensures EntryFits(entries[i], depth + 1) {
      SortMembers(EntryKey, entries, entries[i]);
      var j :| 0 <= j < |sorted| && sorted[j] == entries[i];
      EntryEncodes(sorted, depth + 1, j);
    }
  }

  // ----- order and canonical form -----

  /** The canonical form of a value that encodes is in order. */
  lemma {:induction false} CanonInOrder(v: Value)
    requires Machine(v) && WellKeyed(v)
    ensures Machine(Canon(v)) && InOrder(Canon(v))
    decreases v
  {
    match v
    case Array(items) =>
      forall i | 0 <= i < |items| ensures Machine(CanonItems(items)[i]) && InOrder(CanonItems(items)[i]) {
        CanonInOrder(items[i]);
      }
    case Map(entries) => CanonMapInOrder(entries);
    case _ =>
  }

  lemma {:induction false} CanonMapInOrder(entries: seq<Entry>)
    requires Machine(Map(entries)) && WellKeyed(Map(entries))
    ensures Machine(Canon(Map(entries))) && InOrder(Canon(Map(entries)))
    decreases entries
  {
    var sorted := Sort(EntryKey, CanonEntries(entries));
    forall k | 0 <= k < |sorted| ensures MachineEntry(sorted[k]) && InOrderEntry(sorted[k]) {
      SortMembers(EntryKey, CanonEntries(entries), sorted[k]);
      var i :| 0 <= i < |entries| && CanonEntries(entries)[i] == sorted[k];
      assert MachineEntry(entries[i]) && WellKeyedEntry(entries[i]);
      CanonInOrder(entries[i].value);
    }
    CanonDistinct(entries);
    SortIncreasing(EntryKey, CanonEntries(entries));
    InOrderIncreasing(sorted);
  }

  /** A value in order is its own canonical form. */
  lemma {:induction false} InOrderCanon(v: Value)
    requires Machine(v) && InOrder(v)
    ensures Canon(v) == v && WellKeyed(v)
    decreases v
  {
    match v
    case Array(items) =>
      forall i | 0 <= i < |items| ensures CanonItems(items)[i] == items[i] && WellKeyed(items[i]) {
        InOrderCanon(items[i]);
      }
      assert CanonItems(items) == items;
    case Map(entries) => InOrderCanonMap(entries);
    case _ =>
  }

  lemma {:induction false} InOrderCanonMap(entries: seq<Entry>)
    requires Machine(Map(entries)) && InOrder(Map(entries))
    ensures Canon(Map(entries)) == Map(entries) && WellKeyed(Map(entries))
    decreases entries
  {
    forall i | 0 <= i < |entries| ensures CanonEntries(entries)[i] == entries[i] && WellKeyedEntry(entries[i]) {
      assert MachineEntry(entries[i]) && InOrderEntry(entries[i]);
      InOrderCanon(entries[i].value);
    }
    assert CanonEntries(entries) == entries;
    InOrderIncreasing(entries);
    SortIdentity(EntryKey, entries);
    IncreasingDistinct(EntryKey, entries);
  }

  // ----- the two directions -----

  /** Decoding gives a value exactly when the octets are its wire form: in order, with lengths of machine
      size, and nested at most 32 deep. */
  lemma {:induction false} DecodesIff(b: Octets, v: Value)
    ensures Decode(b) == Ok(v) <==> Machine(v) && InOrder(v) && Nests(v, 32) && b == Wire(v)
  {
    hide EncodeAt, DecodeAt, Canon, WellKeyed, Machine, InOrder, Nests, Wire;
    if Decode(b) == Ok(v) {
      StrictDecodingIsCanonical(b);
      EncodingIsComplete(v, []);
      WritesIff(v, 0);
      CanonInOrder(v);
      WritesWire(v, 0);
    }
    if Machine(v) && InOrder(v) && Nests(v, 32) && b == Wire(v) {
      InOrderCanon(v);
      WritesIff(v, 0);
      WritesWire(v, 0);
      EncodingIsComplete(v, []);
    }
  }

  /** A value encodes exactly when no map in it carries a key twice, its lengths are of machine size and it
      nests at most 32 deep; what is written is the wire form of the one value in order that differs from
      it in the order of map entries only. */
  lemma {:induction false} EncodesIff(v: Value)
    ensures Encode(v).Ok? <==> WellKeyed(v) && Machine(v) && Nests(v, 32)
    ensures Encode(v).Ok? ==> exists w :: Same(v, w) && Machine(w) && InOrder(w) && Encode(v).value == Wire(w)
  {
    hide EncodeAt, DecodeAt, Canon, WellKeyed, Machine, InOrder, Nests, Wire, Same;
    WritesIff(v, 0);
    if Encode(v).Ok? {
      EncodingIsComplete(v, []);
      CanonInOrder(v);
      DecodesIff(Encode(v).value, Canon(v));
      InOrderCanon(Canon(v));
      CanonEqualIsSame(v, Canon(v));
    }
  }

  /** There is only one such value. */
  lemma {:induction false} OneOrder(v: Value, w: Value)
    requires WellKeyed(v) && Same(v, w) && Machine(w) && InOrder(w)
    ensures w == Canon(v)
  {
    InOrderCanon(w);
    SameIsCanonEqual(v, w);
  }

  // ----- what the decoder calls its refusals -----

  /** Initial octets that no deterministic encoding has, each with its own refusal. */
  lemma {:induction false} RefusedInitials(b: Octets)
    requires |b| > 0
    ensures 0x20 <= b[0] < 0x40 ==> Decode(b) == Err(UnsupportedMajor(1))
    ensures 0xc0 <= b[0] < 0xe0 ==> Decode(b) == Err(UnsupportedMajor(6))
    ensures b[0] in {0xf9, 0xfa, 0xfb} ==> Decode(b) == Err(FloatNotAllowed)
    ensures b[0] >= 0xe0 && b[0] !in {0xf6, 0xf9, 0xfa, 0xfb} ==> Decode(b) == Err(UnsupportedSimple(b[0] - 0xe0))
    ensures (b[0] < 0x20 || 0x40 <= b[0] < 0xc0) && b[0] % 32 == 31 ==> Decode(b) == Err(IndefiniteLength)
    ensures (b[0] < 0x20 || 0x40 <= b[0] < 0xc0) && 28 <= b[0] % 32 <= 30 ==>
              Decode(b) == Err(ReservedAdditional(b[0] % 32))
  {
    var body := DecodeBody(b[0] / 32, b[0] % 32, b[1..], 0);
    assert DecodeAt(b, 0) == body;
    assert b[0] == 32 * (b[0] / 32) + b[0] % 32;
    hide DecodeAt;
    assert body.Err? ==> Decode(b) == Err(body.error);
  }
}
