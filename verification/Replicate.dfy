/** Replication message codecs over deterministic CBOR (client/src/replicate.rs). */
module Replicate {
  import opened Base
  import opened Utf8
  import opened Ordering
  import opened CborCanonical
  import opened CborEquality
  import opened CborMembers
  import opened CborFits
  import opened Messages

  const MESSAGE_BYTES: nat := 65_536
  const RECORDS_PER_BATCH: nat := 256
  const ROOT_BYTES: nat := 32

  const F_LEN: Name := "len"
  const F_ROOT: Name := "root"
  const F_FROM: Name := "from"
  const F_COUNT: Name := "count"
  const F_RECS: Name := "recs"
  const F_TREE_ROOT: Name := "treeRoot"
  const F_INDEX_ROOT: Name := "indexRoot"
  const F_LIVE_NAMES: Name := "liveNames"
  const F_A: Name := "a"
  const F_B: Name := "b"
  const T_HELLO: Name := "HELLO"
  const T_WANT: Name := "WANT"
  const T_RECORDS: Name := "RECORDS"
  const T_CHECKPOINT: Name := "CHECKPOINT"
  const T_EQUIVOCATION: Name := "EQUIVOCATION"

  datatype Message =
    | Hello(v: u64, len: u64, root: Octets)
    | Want(start: u64, count: u64)
    | Records(start: u64, recs: seq<Octets>)
    | Checkpoint(len: u64, treeRoot: Octets, indexRoot: Octets, liveNames: u64)
    | Equivocation(a: Octets, b: Octets)

  function TypeName(m: Message): Name {
    match m
    case Hello(_, _, _) => T_HELLO
    case Want(_, _) => T_WANT
    case Records(_, _) => T_RECORDS
    case Checkpoint(_, _, _, _) => T_CHECKPOINT
    case Equivocation(_, _) => T_EQUIVOCATION
  }

  function Names(m: Message): seq<Name> {
    match m
    case Hello(_, _, _) => [F_T, F_V, F_LEN, F_ROOT]
    case Want(_, _) => [F_T, F_FROM, F_COUNT]
    case Records(_, _) => [F_T, F_FROM, F_RECS]
    case Checkpoint(_, _, _, _) => [F_T, F_LEN, F_TREE_ROOT, F_INDEX_ROOT, F_LIVE_NAMES]
    case Equivocation(_, _) => [F_T, F_A, F_B]
  }

  function Values(m: Message): (r: seq<Cbor.Value>)
    ensures |r| == |Names(m)|
  {
    var kind := Cbor.Text(Lit(TypeName(m)));
    match m
    case Hello(v, len, root) => [kind, Cbor.UInt(v), Cbor.UInt(len), Cbor.Bytes(root)]
    case Want(start, count) => [kind, Cbor.UInt(start), Cbor.UInt(count)]
    case Records(start, recs) => [kind, Cbor.UInt(start), Cbor.Array(ByteStrings(recs))]
    case Checkpoint(len, treeRoot, indexRoot, liveNames) =>
      [kind, Cbor.UInt(len), Cbor.Bytes(treeRoot), Cbor.Bytes(indexRoot), Cbor.UInt(liveNames)]
    case Equivocation(a, b) => [kind, Cbor.Bytes(a), Cbor.Bytes(b)]
  }

  /** A message as the map it is sent as: its type, then its own fields. */
  function MessageMembers(m: Message): seq<Cbor.Entry> {
    Members(Names(m), Values(m))
  }

  function EncodeMessage(m: Message): Checked<Octets> {
    Sealed(MessageMembers(m), MESSAGE_BYTES)
  }

  /** A byte string, with an exact length where one is required. */
  function BstrField(fields: Fields, name: Name, length: Option<nat>): (r: Checked<Octets>)
    ensures r.Err? ==> r.error == Malformed
    ensures r.Ok? && length.Some? ==> |r.value| == length.value
  {
    match Get(fields, name)
    case Some(Bytes(b)) => if length.Some? && |b| != length.value then Err(Malformed) else Ok(b)
    case _ => Err(Malformed)
  }

  function AllBytes(items: seq<Cbor.Value>): (r: Checked<seq<Octets>>)
    ensures r.Err? ==> r.error == Malformed
    ensures r.Ok? ==> |r.value| == |items|
  {
    if |items| == 0 then Ok([])
    else if !items[0].Bytes? then Err(Malformed)
    else
      var rest :- AllBytes(items[1..]);
      Ok([items[0].bytes] + rest)
  }

  /** The record list: the count is checked before any element is looked at. */
  function RecsField(fields: Fields): (r: Checked<seq<Octets>>)
    ensures r.Err? ==> r.error == Malformed || r.error == LimitExceeded
    ensures r.Ok? ==> |r.value| <= RECORDS_PER_BATCH
  {
    match Get(fields, F_RECS)
    case Some(Array(items)) => if |items| > RECORDS_PER_BATCH then Err(LimitExceeded) else AllBytes(items)
    case _ => Err(Malformed)
  }

  function HelloFrom(fields: Fields): (r: Checked<Message>)
    ensures r.Err? ==> r.error == Malformed
    ensures r.Ok? ==> Bounded(r.value)
  {
    var v, len := UintField(fields, F_V), UintField(fields, F_LEN);
    var root := BstrField(fields, F_ROOT, Some(ROOT_BYTES));
    if v.Ok? && len.Ok? && root.Ok? then Ok(Hello(v.value, len.value, root.value)) else Err(Malformed)
  }

  function WantFrom(fields: Fields): (r: Checked<Message>)
    ensures r.Err? ==> r.error == Malformed
    ensures r.Ok? ==> Bounded(r.value)
  {
    var start, count := UintField(fields, F_FROM), UintField(fields, F_COUNT);
    if start.Ok? && count.Ok? then Ok(Want(start.value, count.value)) else Err(Malformed)
  }

  function RecordsFrom(fields: Fields): (r: Checked<Message>)
    ensures r.Err? ==> r.error == Malformed || r.error == LimitExceeded
    ensures r.Ok? ==> Bounded(r.value)
  {
    var recs, start := RecsField(fields), UintField(fields, F_FROM);
    if recs.Err? then Err(recs.error)
    else if start.Err? then Err(Malformed)
    else Ok(Records(start.value, recs.value))
  }

  function CheckpointFrom(fields: Fields): (r: Checked<Message>)
    ensures r.Err? ==> r.error == Malformed
    ensures r.Ok? ==> Bounded(r.value)
  {
    var len, liveNames := UintField(fields, F_LEN), UintField(fields, F_LIVE_NAMES);
    var treeRoot := BstrField(fields, F_TREE_ROOT, Some(ROOT_BYTES));
    var indexRoot := BstrField(fields, F_INDEX_ROOT, Some(ROOT_BYTES));
    if len.Ok? && treeRoot.Ok? && indexRoot.Ok? && liveNames.Ok? then
      Ok(Checkpoint(len.value, treeRoot.value, indexRoot.value, liveNames.value))
    else
      Err(Malformed)
  }

  function EquivocationFrom(fields: Fields): (r: Checked<Message>)
    ensures r.Err? ==> r.error == Malformed
    ensures r.Ok? ==> Bounded(r.value)
  {
    var a, b := BstrField(fields, F_A, None), BstrField(fields, F_B, None);
    if a.Ok? && b.Ok? then Ok(Equivocation(a.value, b.value)) else Err(Malformed)
  }

  datatype Kind = KindHello | KindWant | KindRecords | KindCheckpoint | KindEquivocation

  /** The message type a wire text names. */
  function KindOf(text: Str): Option<Kind> {
    if text == Lit(T_HELLO) then Some(KindHello)
    else if text == Lit(T_WANT) then Some(KindWant)
    else if text == Lit(T_RECORDS) then Some(KindRecords)
    else if text == Lit(T_CHECKPOINT) then Some(KindCheckpoint)
    else if text == Lit(T_EQUIVOCATION) then Some(KindEquivocation)
    else None
  }

  function MessageFrom(fields: Fields): (r: Checked<Message>)
    ensures r.Err? ==> r.error != NonCanonical && r.error != TooLarge
    ensures r.Ok? ==> Bounded(r.value)
  {
    var text :- TypeField(fields);
    match KindOf(text)
    case Some(KindHello) => HelloFrom(fields)
    case Some(KindWant) => WantFrom(fields)
    case Some(KindRecords) => RecordsFrom(fields)
    case Some(KindCheckpoint) => CheckpointFrom(fields)
    case Some(KindEquivocation) => EquivocationFrom(fields)
    case None => Err(UnknownType)
  }

  /** The bounds a decoder checks on a message's own fields. */
  predicate Bounded(m: Message) {
    match m
    case Hello(_, _, root) => |root| == 32
    case Records(_, recs) => |recs| <= 256
    case Checkpoint(_, treeRoot, indexRoot, _) => |treeRoot| == 32 && |indexRoot| == 32
    case _ => true
  }

  function DecodeMessage(bytes: Octets): (r: Checked<Message>)
    ensures r == Err(NonCanonical) <==> Unsealed(bytes, MESSAGE_BYTES) == Err(NonCanonical)
  {
    var fields :- Unsealed(bytes, MESSAGE_BYTES);
    MessageFrom(fields)
  }

  // ----- the codec as the source runs it -----

  method EncodeMembers(m: Message) returns (r: Checked<Octets>)
    ensures r == EncodeMessage(m)
  {
    var members := [Member(F_T, Cbor.Text(Lit(TypeName(m))))];
    match m {
      case Hello(v, len, root) =>
        members := members + [Member(F_V, Cbor.UInt(v))];
        members := members + [Member(F_LEN, Cbor.UInt(len))];
        members := members + [Member(F_ROOT, Cbor.Bytes(root))];
      case Want(start, count) =>
        members := members + [Member(F_FROM, Cbor.UInt(start))];
        members := members + [Member(F_COUNT, Cbor.UInt(count))];
      case Records(start, recs) =>
        members := members + [Member(F_FROM, Cbor.UInt(start))];
        members := members + [Member(F_RECS, Cbor.Array(ByteStrings(recs)))];
      case Checkpoint(len, treeRoot, indexRoot, liveNames) =>
        members := members + [Member(F_LEN, Cbor.UInt(len))];
        members := members + [Member(F_TREE_ROOT, Cbor.Bytes(treeRoot))];
        members := members + [Member(F_INDEX_ROOT, Cbor.Bytes(indexRoot))];
        members := members + [Member(F_LIVE_NAMES, Cbor.UInt(liveNames))];
      case Equivocation(a, b) =>
        members := members + [Member(F_A, Cbor.Bytes(a))];
        members := members + [Member(F_B, Cbor.Bytes(b))];
    }
    assert members == MessageMembers(m);
    r := Seal(members, MESSAGE_BYTES);
  }

  /** Collect the records of a batch, refusing the first element that is not a byte string. */
  method CollectRecords(items: seq<Cbor.Value>) returns (r: Checked<seq<Octets>>)
    ensures r == AllBytes(items)
  {
    var out: seq<Octets> := [];
    assert items[0..] == items;
    assert forall rest: seq<Octets> :: [] + rest == rest;
    for i := 0 to |items|
      invariant match AllBytes(items[i..])
                case Ok(rest) => AllBytes(items) == Ok(out + rest)
                case Err(e) => AllBytes(items) == Err(e)
    {
      assert items[i..][1..] == items[i + 1..];
      if !items[i].Bytes? {
        return Err(Malformed);
      }
      assert forall rest: seq<Octets> :: out + ([items[i].bytes] + rest) == (out + [items[i].bytes]) + rest;
      out := out + [items[i].bytes];
    }
    assert out + [] == out;
    r := Ok(out);
  }

  /** Decoding as the source runs it, the record loop included. */
  method Receive(bytes: Octets) returns (r: Checked<Message>)
    ensures r == DecodeMessage(bytes)
  {
    var fields :- Unseal(bytes, MESSAGE_BYTES);
    var text :- TypeField(fields);
    match KindOf(text) {
      case Some(KindHello) => r := HelloFrom(fields);
      case Some(KindWant) => r := WantFrom(fields);
      case Some(KindRecords) =>
        var recs := Get(fields, F_RECS);
        if recs.None? || !recs.value.Array? {
          return Err(Malformed);
        }
        if |recs.value.items| > RECORDS_PER_BATCH {
          return Err(LimitExceeded);
        }
        var out :- CollectRecords(recs.value.items);
        var start :- UintField(fields, F_FROM);
        r := Ok(Records(start, out));
      case Some(KindCheckpoint) => r := CheckpointFrom(fields);
      case Some(KindEquivocation) => r := EquivocationFrom(fields);
      case None => r := Err(UnknownType);
    }
  }

  // ----- what the two directions promise together -----

  lemma {:induction false} NamesDiffer(m: Message)
    ensures Different(Names(m))
  {
  }

  lemma {:induction false} AllBytesBack(list: seq<Octets>)
    ensures AllBytes(ByteStrings(list)) == Ok(list)
  {
    if |list| > 0 {
      AllBytesBack(list[1..]);
      assert ByteStrings(list)[1..] == ByteStrings(list[1..]);
      assert [list[0]] + list[1..] == list;
    }
  }

  lemma {:induction false} ValuesFlat(m: Message)
    ensures forall i :: 0 <= i < |Values(m)| ==> Flat(Values(m)[i])
  {
  }

  /** How a receiver refuses what is outside the bounds: a batch for its count, anything else for its shape. */
  function OutOfBounds(m: Message): MessageError {
    if m.Records? then LimitExceeded else Malformed
  }

  /** What a sender emits comes back as itself when it respects its field bounds, and is refused when it does
      not: it is never read as anything else. */
  lemma {:induction false} MessageRoundTrip(m: Message)
    requires EncodeMessage(m).Ok?
    ensures DecodeMessage(EncodeMessage(m).value) == if Bounded(m) then Ok(m) else Err(OutOfBounds(m))
  {
    NamesDiffer(m);
    ValuesFlat(m);
    SealedUnseals(Names(m), Values(m), MESSAGE_BYTES);
    MessageFromSent(m, Unsealed(EncodeMessage(m).value, MESSAGE_BYTES).value);
  }

  lemma {:induction false} KindNamed(m: Message)
    ensures KindOf(Lit(TypeName(m)))
         == Some(match m
                 case Hello(_, _, _) => KindHello
                 case Want(_, _) => KindWant
                 case Records(_, _) => KindRecords
                 case Checkpoint(_, _, _, _) => KindCheckpoint
                 case Equivocation(_, _) => KindEquivocation)
  {
    LitInjective(TypeName(m), T_HELLO);
    LitInjective(TypeName(m), T_WANT);
    LitInjective(TypeName(m), T_RECORDS);
    LitInjective(TypeName(m), T_CHECKPOINT);
  }

  lemma {:induction false} HelloSent(fields: Fields, m: Message)
    requires m.Hello? && Carries(fields, Names(m), Values(m))
    ensures HelloFrom(fields) == (if Bounded(m) then Ok(m) else Err(Malformed))
  {
    assert Names(m)[1] == F_V && Names(m)[2] == F_LEN && Names(m)[3] == F_ROOT;
  }

  lemma {:induction false} WantSent(fields: Fields, m: Message)
    requires m.Want? && Carries(fields, Names(m), Values(m))
    ensures WantFrom(fields) == Ok(m)
  {
    assert Names(m)[1] == F_FROM && Names(m)[2] == F_COUNT;
  }

  lemma {:induction false} RecordsSent(fields: Fields, m: Message)
    requires m.Records? && Carries(fields, Names(m), Values(m))
    ensures RecordsFrom(fields) == (if Bounded(m) then Ok(m) else Err(LimitExceeded))
  {
    assert Names(m)[1] == F_FROM && Names(m)[2] == F_RECS;
    AllBytesBack(m.recs);
  }

  lemma {:induction false} CheckpointSent(fields: Fields, m: Message)
    requires m.Checkpoint? && Carries(fields, Names(m), Values(m))
    ensures CheckpointFrom(fields) == (if Bounded(m) then Ok(m) else Err(Malformed))
  {
    assert Names(m)[1] == F_LEN && Names(m)[2] == F_TREE_ROOT;
    assert Names(m)[3] == F_INDEX_ROOT && Names(m)[4] == F_LIVE_NAMES;
  }

  lemma {:induction false} EquivocationSent(fields: Fields, m: Message)
    requires m.Equivocation? && Carries(fields, Names(m), Values(m))
    ensures EquivocationFrom(fields) == Ok(m)
  {
    assert Names(m)[1] == F_A && Names(m)[2] == F_B;
  }

  lemma {:induction false} MessageFromSent(m: Message, fields: Fields)
    requires Carries(fields, Names(m), Values(m))
    ensures MessageFrom(fields) == if Bounded(m) then Ok(m) else Err(OutOfBounds(m))
  {
    assert Names(m)[0] == F_T;
    KindNamed(m);
    match m
    case Hello(_, _, _) => HelloSent(fields, m);
    case Want(_, _) => WantSent(fields, m);
    case Records(_, _) => RecordsSent(fields, m);
    case Checkpoint(_, _, _, _) => CheckpointSent(fields, m);
    case Equivocation(_, _) => EquivocationSent(fields, m);
  }

  /** What a message was read from carries that message's values under its names. */
  lemma {:induction false} ReadFromCarries(fields: Fields)
    requires MessageFrom(fields).Ok?
    ensures Carries(fields, Names(MessageFrom(fields).value), Values(MessageFrom(fields).value))
  {
    var m := MessageFrom(fields).value;
    KindTexts(fields[Lit(F_T)].text);
    if m.Records? {
      AllBytesOf(fields[Lit(F_RECS)].items);
    }
  }

  lemma {:induction false} KindTexts(text: Str)
    ensures match KindOf(text)
            case Some(KindHello) => text == Lit(T_HELLO)
            case Some(KindWant) => text == Lit(T_WANT)
            case Some(KindRecords) => text == Lit(T_RECORDS)
            case Some(KindCheckpoint) => text == Lit(T_CHECKPOINT)
            case Some(KindEquivocation) => text == Lit(T_EQUIVOCATION)
            case None => true
  {
  }

  lemma {:induction false} AllBytesOf(items: seq<Cbor.Value>)
    requires AllBytes(items).Ok?
    ensures ByteStrings(AllBytes(items).value) == items
  {
    if |items| > 0 {
      AllBytesOf(items[1..]);
      assert items == [items[0]] + items[1..];
      assert ByteStrings(AllBytes(items).value) == [items[0]] + ByteStrings(AllBytes(items[1..]).value);
    }
  }

  /** Sending a received message again reproduces its octets exactly when it had no member beyond
      the ones its type defines: unknown members are ignored and lost. */
  lemma {:induction false} ResendReproducesIffNoExtraMember(bytes: Octets)
    requires DecodeMessage(bytes).Ok?
    ensures var m := DecodeMessage(bytes).value;
            EncodeMessage(m) == Ok(bytes) <==> |Cbor.Decode(bytes).value.entries| == |Names(m)|
  {
    var m := DecodeMessage(bytes).value;
    var entries := Cbor.Decode(bytes).value.entries;
    var own := MessageMembers(m);
    NamesDiffer(m);
    MembersDistinct(Names(m), Values(m));
    StrictDecodingIsCanonical(bytes);
    if EncodeMessage(m) == Ok(bytes) {
      DecodedFields(own);
    }
    if |entries| == |own| {
      ReadFromCarries(FieldMap(entries));
      forall e | e in own ensures e in entries {
        var i :| 0 <= i < |own| && own[i] == e;
        assert Get(FieldMap(entries), Names(m)[i]) == Some(Values(m)[i]);
        FieldMapFound(entries, Lit(Names(m)[i]));
      }
      EncodesWellKeyed(Cbor.Map(entries), 0);
      SameSizeSameMembers(Cbor.EntryKey, own, entries);
      EncodeOrderIndependent(entries, own);
    }
  }

  /** Whatever is decoded respects the bounds, on arbitrary input. */
  lemma {:induction false} DecodedIsBounded(bytes: Octets)
    requires DecodeMessage(bytes).Ok?
    ensures Bounded(DecodeMessage(bytes).value) && |bytes| <= MESSAGE_BYTES
  {
  }

  /** The octets a message takes. */
  function MessageLength(m: Message): nat {
    HeadLength(|Names(m)|) + MembersLength(Names(m), Values(m))
  }

  /** A sender emits exactly what is short enough; it checks nothing else. */
  lemma {:induction false} EmitsIff(m: Message)
    ensures EncodeMessage(m).Ok? <==> MessageLength(m) <= 65_536
    ensures 65_536 < MessageLength(m) < U64_LIMIT ==> EncodeMessage(m) == Err(TooLarge)
  {
    hide Sealed, MembersLength;
    NamesDiffer(m);
    ValuesFlat(m);
    SealsIffShort(Names(m), Values(m), MESSAGE_BYTES);
  }

  /** Members under short names, none of them longer than `each`. */
  lemma {:induction false} MembersLengthUpTo(names: seq<Name>, values: seq<Cbor.Value>, each: nat)
    requires |names| == |values|
    requires forall i :: 0 <= i < |names| ==> |names[i]| < 24 && EncodedLength(values[i]) <= each
    ensures MembersLength(names, values) <= |names| * (each + 24)
  {
    hide EncodedLength;
    if |names| > 0 {
      var n := |names| - 1;
      MembersLengthUpTo(names[..n], values[..n], each);
      assert |names| * (each + 24) == n * (each + 24) + (each + 24);
    }
  }

  lemma {:induction false} MessageLengthUpTo(m: Message, each: nat)
    requires forall i :: 0 <= i < |Values(m)| ==> EncodedLength(Values(m)[i]) <= each
    ensures MessageLength(m) <= 5 * each + 121
  {
    hide MembersLength, Values;
    MembersLengthUpTo(Names(m), Values(m), each);
    assert |Names(m)| * (each + 24) <= 5 * (each + 24);
  }

  /** Senders emit what receivers refuse: roots of any wrong length, and batches of more than 256 records, as
      long as the message stays short. */
  lemma {:induction false} EmittedAndRefused(v: u64, n: u64, root: Octets, other: Octets, recs: seq<Octets>)
    requires |root| <= 10_000 && |other| <= 10_000 && |recs| <= 1_000 && forall i :: 0 <= i < |recs| ==> |recs[i]| <= 1
    ensures EncodeMessage(Hello(v, n, root)).Ok? && EncodeMessage(Checkpoint(n, root, other, v)).Ok?
    ensures EncodeMessage(Records(n, recs)).Ok?
    ensures |root| != ROOT_BYTES ==>
              && DecodeMessage(EncodeMessage(Hello(v, n, root)).value) == Err(Malformed)
              && DecodeMessage(EncodeMessage(Checkpoint(n, root, other, v)).value) == Err(Malformed)
    ensures |recs| > RECORDS_PER_BATCH ==> DecodeMessage(EncodeMessage(Records(n, recs)).value) == Err(LimitExceeded)
  {
    hide EncodeMessage, DecodeMessage, MessageLength, ItemsLength;
    ByteStringsLength(recs, 1);
    assert |recs| * 10 <= 10_000;
    var hello, checkpoint, records := Hello(v, n, root), Checkpoint(n, root, other, v), Records(n, recs);
    MessageLengthUpTo(hello, 10_010);
    MessageLengthUpTo(checkpoint, 10_010);
    MessageLengthUpTo(records, 10_010);
    EmitsIff(hello);
    EmitsIff(checkpoint);
    EmitsIff(records);
    MessageRoundTrip(hello);
    MessageRoundTrip(checkpoint);
    MessageRoundTrip(records);
  }

  /** For example a greeting with no root at all. */
  lemma {:induction false} EmptyRoot()
    ensures EncodeMessage(Hello(0, 0, [])).Ok? && DecodeMessage(EncodeMessage(Hello(0, 0, [])).value) == Err(Malformed)
  {
    hide EncodeMessage, DecodeMessage;
    EmittedAndRefused(0, 0, [], [], []);
  }

  // ----- the wire, both ways -----

  /** What a message is on the wire, field by field. */
  function WireFields(m: Message): seq<(Name, Cbor.Value)> {
    match m
    case Hello(v, len, root) =>
      [("t", Cbor.Text(Lit("HELLO"))), ("v", Cbor.UInt(v)), ("len", Cbor.UInt(len)), ("root", Cbor.Bytes(root))]
    case Want(start, count) =>
      [("t", Cbor.Text(Lit("WANT"))), ("from", Cbor.UInt(start)), ("count", Cbor.UInt(count))]
    case Records(start, recs) =>
      [("t", Cbor.Text(Lit("RECORDS"))), ("from", Cbor.UInt(start)), ("recs", Cbor.Array(ByteStrings(recs)))]
    case Checkpoint(len, treeRoot, indexRoot, liveNames) =>
      [("t", Cbor.Text(Lit("CHECKPOINT"))), ("len", Cbor.UInt(len)), ("treeRoot", Cbor.Bytes(treeRoot)),
       ("indexRoot", Cbor.Bytes(indexRoot)), ("liveNames", Cbor.UInt(liveNames))]
    case Equivocation(a, b) => [("t", Cbor.Text(Lit("EQUIVOCATION"))), ("a", Cbor.Bytes(a)), ("b", Cbor.Bytes(b))]
  }

  lemma {:induction false} WireIs(m: Message)
    ensures |WireFields(m)| == |Names(m)|
    ensures forall i :: 0 <= i < |Names(m)| ==> WireFields(m)[i] == (Names(m)[i], Values(m)[i])
  {
  }

  /** What is emitted decodes to a map of exactly these fields. */
  lemma {:induction false} EmittedFields(m: Message)
    requires EncodeMessage(m).Ok?
    ensures HoldsExactly(EncodeMessage(m).value, WireFields(m))
  {
    NamesDiffer(m);
    ValuesFlat(m);
    FlatCanonical(Values(m));
    WireIs(m);
    hide WireFields, Names, Values;
    MembersHeld(Names(m), Values(m), WireFields(m));
  }

  /** The fields of a message, among any others. */
  ghost predicate Found(fields: Fields, m: Message) {
    forall i :: 0 <= i < |WireFields(m)| ==> Get(fields, WireFields(m)[i].0) == Some(WireFields(m)[i].1)
  }

  /** Octets are received as a message exactly when they are short enough, strictly encoded, a map that holds
      the fields of that message, and the message keeps the bounds. */
  lemma {:induction false} ReceivesIff(bytes: Octets, m: Message)
    ensures DecodeMessage(bytes) == Ok(m)
       <==> && |bytes| <= 65_536 && Bounded(m)
            && match Cbor.Decode(bytes)
               case Ok(Map(entries)) => Found(FieldMap(entries), m)
               case _ => false
  {
    ReencodeCheckUnreachable(bytes, MESSAGE_BYTES);
    if Unsealed(bytes, MESSAGE_BYTES).Ok? {
      ReadsIff(Unsealed(bytes, MESSAGE_BYTES).value, m);
    }
    hide MessageFrom, Found, Bounded, FieldMap;
  }

  lemma {:induction false} ReadsIff(fields: Fields, m: Message)
    ensures MessageFrom(fields) == Ok(m) <==> Bounded(m) && Found(fields, m)
  {
    hide WireFields, Names, Values;
    WireIs(m);
    assert Found(fields, m) <==> Carries(fields, Names(m), Values(m));
    if Found(fields, m) {
      MessageFromSent(m, fields);
    }
    if MessageFrom(fields) == Ok(m) {
      ReadFromCarries(fields);
    }
  }

  /** Every refusal of a receiver says what is wrong: size, strict form, the type, the count of a batch. */
  lemma {:induction false} Refusals(bytes: Octets)
    ensures DecodeMessage(bytes) == Err(TooLarge) <==> |bytes| > 65_536
    ensures DecodeMessage(bytes) == Err(NonCanonical) <==> |bytes| <= 65_536 && Cbor.Decode(bytes).Err?
    ensures |bytes| <= 65_536 ==>
              match Cbor.Decode(bytes)
              case Err(_) => true
              case Ok(Map(entries)) =>
                var kind, recs := Get(FieldMap(entries), "t"), Get(FieldMap(entries), "recs");
                && (DecodeMessage(bytes) == Err(UnknownType)
                    <==> && kind.Some? && kind.value.Text?
                         && kind.value.text !in [Lit("HELLO"), Lit("WANT"), Lit("RECORDS"), Lit("CHECKPOINT"),
                                                 Lit("EQUIVOCATION")])
                && (DecodeMessage(bytes) == Err(LimitExceeded)
                    <==> && kind == Some(Cbor.Text(Lit("RECORDS")))
                         && recs.Some? && recs.value.Array? && |recs.value.items| > 256)
              case _ => DecodeMessage(bytes) == Err(Malformed)
  {
    ReencodeCheckUnreachable(bytes, MESSAGE_BYTES);
    if Unsealed(bytes, MESSAGE_BYTES).Ok? {
      ReadRefusals(Unsealed(bytes, MESSAGE_BYTES).value);
    }
    hide MessageFrom, FieldMap, Lit;
  }

  lemma {:induction false} ReadRefusals(fields: Fields)
    ensures var kind, recs := Get(fields, "t"), Get(fields, "recs");
            && (MessageFrom(fields) == Err(UnknownType)
                <==> && kind.Some? && kind.value.Text?
                     && kind.value.text !in [Lit("HELLO"), Lit("WANT"), Lit("RECORDS"), Lit("CHECKPOINT"),
                                             Lit("EQUIVOCATION")])
            && (MessageFrom(fields) == Err(LimitExceeded)
                <==> && kind == Some(Cbor.Text(Lit("RECORDS")))
                     && recs.Some? && recs.value.Array? && |recs.value.items| > 256)
  {
    KindNamed(Records(0, []));
    hide HelloFrom, WantFrom, CheckpointFrom, EquivocationFrom;
  }
}
